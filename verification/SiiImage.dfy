/** The SII image (ETG.1000.6, Tables 16, 17, 19, 21, 23 and 24): the category payloads other than
    strings and PDOs, and build_image itself. */
module SiiImage {
  import opened Wrappers
  import opened SiiBytes
  import opened Flattening
  import opened SiiStrings
  import opened SiiPdos
  import opened EsiDevice
  import SiiChecksum

  const CAT_STRINGS := 0x000A
  const CAT_GENERAL := 0x001E
  const CAT_FMMU := 0x0028
  const CAT_SYNCM := 0x0029
  const CAT_TXPDO := 0x0032
  const CAT_RXPDO := 0x0033
  const CAT_END := 0xFFFF

  // ---------- GENERAL ----------

  function GroupText(dev: Device): string { Text(dev.groupType) }

  function TypeText(dev: Device): string { Text(dev.typeText) }

  /** A missing or empty Name falls back to the type text. */
  function NameText(dev: Device): string {
    if dev.name.Some? && dev.name.value != "" then Text(dev.name) else TypeText(dev)
  }

  function GeneralTexts(dev: Device): seq<string> { [GroupText(dev), TypeText(dev), NameText(dev)] }

  function CoeDetails(coe: Option<Coe>): byte {
    match coe
    case None => 0
    case Some(c) =>
      0x01 + (if c.sdoInfo then 0x02 else 0) + (if c.pdoAssign then 0x04 else 0)
      + (if c.pdoConfig then 0x08 else 0) + (if c.completeAccess then 0x20 else 0)
  }

  function MailboxProtocol(mailbox: Option<Mailbox>): (r: nat)
    ensures r < 0x40
  {
    match mailbox
    case None => 0
    case Some(m) =>
      (if m.coe.Some? then 0x04 else 0) + (if m.foe then 0x08 else 0) + (if m.eoe then 0x02 else 0)
      + (if m.soe then 0x10 else 0) + (if m.voe then 0x20 else 0)
  }

  function CoeOf(mailbox: Option<Mailbox>): Option<Coe> {
    match mailbox case None => None case Some(m) => m.coe
  }

  function GeneralFlags(dev: Device): byte {
    (if dev.mailbox.Some? && dev.mailbox.value.dataLinkLayer then 0x04 else 0)
    + (if dev.identificationReg134 then 0x10 else 0)
  }

  /** One nibble a port, for the first four ports. */
  function PortNibble(physics: string, port: nat): nat {
    if port < |physics| && physics[port] == 'Y' then 1 else 0
  }

  function PhysicalPorts(physics: string): (r: nat)
    ensures r <= 0x1111
  {
    PortNibble(physics, 0) + 0x10 * PortNibble(physics, 1) + 0x100 * PortNibble(physics, 2) +
        0x1000 * PortNibble(physics, 3)
  }

  /** The indices of the three texts fit one byte. */
  ghost predicate GeneralFits(dev: Device, items: seq<string>) {
    && IndexOf(items, GroupText(dev)) < 0x100
    && IndexOf(items, TypeText(dev)) < 0x100
    && IndexOf(items, NameText(dev)) < 0x100
  }

  /** The fields of Table 21 that carry something, before they are laid out. */
  datatype General = General(group: byte, typ: byte, name: byte, coe: byte, foe: byte, eoe: byte, flags: byte,
                             ports: nat, memory: nat)

  predicate GeneralValid(g: General) { g.ports < 0x1_0000 && g.memory < 0x1_0000 }

  function GeneralByte(g: General, k: nat): byte
    requires GeneralValid(g)
  {
    if k == 0 || k == 14 then g.group
    else if k == 2 then g.typ
    else if k == 3 then g.name
    else if k == 5 then g.coe
    else if k == 6 then g.foe
    else if k == 7 then g.eoe
    else if k == 11 then g.flags
    else if k == 0x10 then g.ports % 0x100
    else if k == 0x11 then g.ports / 0x100
    else if k == 0x12 then g.memory % 0x100
    else if k == 0x13 then g.memory / 0x100
    else 0
  }

  function GeneralLayout(g: General): (r: seq<byte>)
    requires GeneralValid(g)
    ensures |r| == 32
  {
    seq(32, k requires 0 <= k => GeneralByte(g, k))
  }

  function FoeDetails(dev: Device): byte { if dev.mailbox.Some? && dev.mailbox.value.foe then 1 else 0 }

  function EoeDetails(dev: Device): byte { if dev.mailbox.Some? && dev.mailbox.value.eoe then 1 else 0 }

  /** The identification word is register 0x0134 when the device says so. */
  function IdentificationWord(dev: Device): (r: nat)
    ensures r < 0x1_0000
  {
    if dev.identificationReg134 then 0x0134 else 0
  }

  function GeneralOf(dev: Device, group: byte, typ: byte, name: byte): (r: General)
    ensures GeneralValid(r)
  {
    General(group, typ, name, CoeDetails(CoeOf(dev.mailbox)), FoeDetails(dev), EoeDetails(dev), GeneralFlags(dev),
            PhysicalPorts(dev.physics), IdentificationWord(dev))
  }

  ghost function GeneralBytes(dev: Device, items: seq<string>): (r: seq<byte>)
    requires GeneralFits(dev, items)
    ensures |r| == 32
  {
    GeneralLayout(GeneralOf(dev, IndexOf(items, GroupText(dev)), IndexOf(items, TypeText(dev)),
        IndexOf(items, NameText(dev))))
  }

  lemma InternThree(items: seq<string>, a: string, b: string, c: string)
    ensures InternAll(items, [a, b, c]) ==
            match Intern(items, a)
            case None => None
            case Some(one) => match Intern(one, b)
                              case None => None
                              case Some(two) => Intern(two, c)
  {
    assert [a, b, c][..2] == [a, b] && [a, b][..1] == [a] && [a][..0] == [];
    assert InternAll(items, []) == Some(items);
    assert InternAll(items, [a]) == Intern(items, a);
  }

  lemma InternKeepsKnown(items: seq<string>, text: string, known: string)
    requires Interned(items) && Intern(items, text).Some? && Known(items, known)
    ensures Interned(Intern(items, text).value) && items <= Intern(items, text).value
    ensures Known(Intern(items, text).value, known)
    ensures IndexOf(Intern(items, text).value, known) == IndexOf(items, known)
  {
    IndexOfStable(items, Intern(items, text).value, known);
  }

  method PhysicsWord(physics: string) returns (word: nat)
    ensures word == PhysicalPorts(physics)
  {
    word := 0;
    var weight := 1;
    var n := if |physics| < 4 then |physics| else 4;
    for i := 0 to n
      invariant weight == match i case 0 => 0x1 case 1 => 0x10 case 2 => 0x100 case 3 => 0x1000 case _ => 0x1_0000
      invariant word == PhysicalPorts(physics[..i])
    {
      word := word + (if physics[i] == 'Y' then 1 else 0) * weight;
      weight := weight * 0x10;
    }
  }

  method AddGeneralTexts(dev: Device, strings: StringTable) returns (r: Result<(nat, nat, nat), Error>)
    requires strings.Valid()
    modifies strings
    ensures strings.Valid()
    ensures r.Ok? <==> InternAll(old(strings.items), GeneralTexts(dev)).Some?
    ensures r.Ok? ==> InternAll(old(strings.items), GeneralTexts(dev)) == Some(strings.items)
    ensures r.Ok? ==> r.value == (IndexOf(strings.items, GroupText(dev)), IndexOf(strings.items, TypeText(dev)),
                                  IndexOf(strings.items, NameText(dev)))
  {
    InternThree(strings.items, GroupText(dev), TypeText(dev), NameText(dev));
    var group :- strings.Add(dev.groupType);
    ghost var one := strings.items;
    var typ :- strings.Add(dev.typeText);
    ghost var two := strings.items;
    InternKeepsKnown(one, TypeText(dev), GroupText(dev));
    var name :- strings.Add(if dev.name.Some? && dev.name.value != "" then dev.name else dev.typeText);
    InternKeepsKnown(two, NameText(dev), GroupText(dev));
    InternKeepsKnown(two, NameText(dev), TypeText(dev));
    return Ok((group, typ, name));
  }

  lemma SameLayout(payload: seq<byte>, g: General)
    requires GeneralValid(g) && |payload| == 32 && forall k: nat | k < 32 :: payload[k] == GeneralByte(g, k)
    ensures payload == GeneralLayout(g)
  {
    forall k: nat | k < 32 ensures payload[k] == GeneralLayout(g)[k] { }
  }

  method PackInto(buf: array<byte>, offset: nat, v: nat)
    requires offset + 2 <= buf.Length && v < 0x1_0000
    modifies buf
    ensures buf[offset] == v % 0x100 && buf[offset + 1] == v / 0x100
    ensures forall k | 0 <= k < buf.Length && k != offset && k != offset + 1 :: buf[k] == old(buf[k])
  {
    buf[offset], buf[offset + 1] := v % 0x100, v / 0x100;
  }

  method FillGeneral(g: General) returns (payload: seq<byte>)
    requires GeneralValid(g)
    ensures payload == GeneralLayout(g)
  {
    var buf := new byte[32](_ => 0);
    buf[0] := g.group;
    buf[2] := g.typ;
    buf[3] := g.name;
    buf[5] := g.coe;
    buf[6] := g.foe;
    buf[7] := g.eoe;
    PackInto(buf, 0x12, g.memory);
    buf[11] := g.flags;
    buf[14] := buf[0];
    PackInto(buf, 0x10, g.ports);
    payload := buf[..];
    SameLayout(payload, g);
  }

  /** build_general: interns the three texts in order and fills the 32 bytes. */
  method BuildGeneral(dev: Device, strings: StringTable) returns (r: Result<seq<byte>, Error>)
    requires strings.Valid()
    modifies strings
    ensures strings.Valid()
    ensures r.Ok? <==>
              var more := InternAll(old(strings.items), GeneralTexts(dev));
              more.Some? && GeneralFits(dev, more.value)
    ensures r.Ok? ==> InternAll(old(strings.items), GeneralTexts(dev)) == Some(strings.items)
    ensures r.Ok? ==> r.value == GeneralBytes(dev, strings.items)
    ensures GeneralTexts(dev) == [Text(dev.groupType), Text(dev.typeText),
                                  Text(if dev.name.Some? && dev.name.value != "" then dev.name else dev.typeText)]
  {
    var indices: (nat, nat, nat) :- AddGeneralTexts(dev, strings);
    if indices.0 >= 0x100 || indices.1 >= 0x100 || indices.2 >= 0x100 {
      return Err(ValueOutOfByte);
    }
    var ports := PhysicsWord(dev.physics);
    var g := GeneralOf(dev, indices.0, indices.1, indices.2);
    var payload := FillGeneral(g.(ports := ports));
    return Ok(payload);
  }

  // ---------- FMMU and SYNCM ----------

  function FmmuValue(name: string): byte {
    if name == "Outputs" then 1 else if name == "Inputs" then 2 else if name == "MBoxState" then 3 else 0xFF
  }

  function FmmuBytes(names: seq<string>): seq<byte> {
    seq(|names|, i requires 0 <= i < |names| => FmmuValue(names[i])) + (if |names| % 2 == 1 then [0xFF] else [])
  }

  method BuildFmmu(names: seq<string>) returns (values: seq<byte>)
    ensures values == FmmuBytes(names)
  {
    values := [];
    for i := 0 to |names|
      invariant |values| == i && forall k | 0 <= k < i :: values[k] == FmmuValue(names[k])
    {
      values := values + [FmmuValue(names[i])];
    }
    while |values| % 2 == 1
      invariant |names| <= |values| <= |names| + |names| % 2
      invariant values[..|names|] == seq(|names|, i requires 0 <= i < |names| => FmmuValue(names[i]))
      invariant |values| > |names| ==> values[|names|] == 0xFF
      decreases |names| + |names| % 2 - |values|
    {
      values := values + [0xFF];
    }
  }

  function SyncManagerType(name: string): byte {
    if name == "MBoxOut" then 1 else if name == "MBoxIn" then 2 else if name == "Outputs" then 3
    else if name == "Inputs" then 4 else 0
  }

  predicate SyncManagerFits(sm: SyncManager) {
    0 <= sm.startAddress < 0x1_0000 && 0 <= sm.size < 0x1_0000 && 0 <= sm.controlByte < 0x100 && 0 <= sm.enable < 0x100
  }

  predicate SyncManagersFit(sms: seq<SyncManager>) { forall i | 0 <= i < |sms| :: SyncManagerFits(sms[i]) }

  /** Eight bytes a sync manager; nothing for one that does not fit. */
  function SyncManagerBytes(sm: SyncManager): (r: seq<byte>)
    ensures SyncManagerFits(sm) ==> |r| == 8
  {
    if SyncManagerFits(sm) then
      U16(sm.startAddress) + U16(sm.size) + [sm.controlByte, 0, sm.enable, SyncManagerType(sm.name)]
    else []
  }

  function SyncManagerBlocks(sms: seq<SyncManager>): seq<seq<byte>> {
    seq(|sms|, i requires 0 <= i < |sms| => SyncManagerBytes(sms[i]))
  }

  function SyncmBytes(sms: seq<SyncManager>): seq<byte> { Flatten(SyncManagerBlocks(sms)) }

  method BuildSyncm(sms: seq<SyncManager>) returns (r: Result<seq<byte>, Error>)
    ensures r.Ok? <==> SyncManagersFit(sms)
    ensures r.Ok? ==> r.value == SyncmBytes(sms)
  {
    hide SyncManagerBytes;
    hide SyncManagerFits;
    ghost var blocks := SyncManagerBlocks(sms);
    var data := [];
    for i := 0 to |sms|
      invariant forall k | 0 <= k < i :: SyncManagerFits(sms[k])
      invariant data == Flatten(blocks[..i])
    {
      if !SyncManagerFits(sms[i]) {
        return Err(FieldOutOfRange);
      }
      data := data + SyncManagerBytes(sms[i]);
      FlattenStep(blocks, i);
    }
    assert blocks[..|sms|] == blocks;
    return Ok(data);
  }

  // ---------- Categories ----------

  datatype Category = Category(kind: nat, payload: seq<byte>)

  function Padded(payload: seq<byte>): (r: seq<byte>)
    ensures |r| % 2 == 0
  {
    if |payload| % 2 == 1 then payload + [0] else payload
  }

  predicate CategoryFits(c: Category) { c.kind < 0x1_0000 && |Padded(c.payload)| / 2 < 0x1_0000 }

  function CategoryBytes(c: Category): (r: seq<byte>)
    ensures CategoryFits(c) ==> |r| == 4 + |Padded(c.payload)|
  {
    if CategoryFits(c) then U16(c.kind) + U16(|Padded(c.payload)| / 2) + Padded(c.payload) else []
  }

  predicate ChainFits(cs: seq<Category>) { forall i | 0 <= i < |cs| :: CategoryFits(cs[i]) }

  function CategoryBlocks(cs: seq<Category>): seq<seq<byte>> {
    seq(|cs|, i requires 0 <= i < |cs| => CategoryBytes(cs[i]))
  }

  function Chain(cs: seq<Category>): seq<byte> { Flatten(CategoryBlocks(cs)) }

  lemma ChainAppend(a: seq<Category>, b: seq<Category>)
    ensures Chain(a + b) == Chain(a) + Chain(b)
    ensures ChainFits(a + b) <==> ChainFits(a) && ChainFits(b)
  {
    hide CategoryBytes;
    hide CategoryFits;
    assert CategoryBlocks(a + b) == CategoryBlocks(a) + CategoryBlocks(b);
    FlattenAppend(CategoryBlocks(a), CategoryBlocks(b));
    if ChainFits(a + b) {
      forall i | 0 <= i < |a| ensures CategoryFits(a[i]) { assert (a + b)[i] == a[i]; }
      forall i | 0 <= i < |b| ensures CategoryFits(b[i]) { assert (a + b)[|a| + i] == b[i]; }
    }
  }

  lemma ChainFront(cs: seq<Category>)
    requires cs != []
    ensures Chain(cs) == CategoryBytes(cs[0]) + Chain(cs[1..])
  {
    hide CategoryBytes;
    FlattenFront(CategoryBlocks(cs));
    assert CategoryBlocks(cs)[1..] == CategoryBlocks(cs[1..]);
  }

  /** A category is left out when its payload is empty. */
  function Present(kind: nat, payload: seq<byte>): seq<Category> {
    if payload == [] then [] else [Category(kind, payload)]
  }

  /** Every text the image names, in the order in which it is interned. */
  function AllTexts(d: Description): seq<string> { GeneralTexts(d.device) + SourceTexts(PdoSources(d)) }

  ghost function RxRecords(d: Description,
      items: seq<string>): seq<PdoRecord> { RecordsOf(PdoSources(d), RxPdo, 2, items) }

  ghost function TxRecords(d: Description,
      items: seq<string>): seq<PdoRecord> { RecordsOf(PdoSources(d), TxPdo, 3, items) }

  /** The parts of the description fit their packed fields. */
  ghost predicate PartsFit(d: Description, items: seq<string>) {
    && Interned(items) && |items| < 0x100
    && GeneralFits(d.device, items)
    && SyncManagersFit(d.device.sms)
    && AllFit(RxRecords(d, items)) && AllFit(TxRecords(d, items))
  }

  /** The payloads of an image. */
  datatype Payloads = Payloads(strings: seq<byte>, general: seq<byte>, fmmu: seq<byte>, syncm: seq<byte>,
      rx: seq<byte>, tx: seq<byte>)

  function CategoryList(p: Payloads): seq<Category> {
    [Category(CAT_STRINGS, p.strings), Category(CAT_GENERAL, p.general)]
    + Present(CAT_FMMU, p.fmmu) + Present(CAT_SYNCM, p.syncm) + Present(CAT_RXPDO, p.rx) + Present(CAT_TXPDO, p.tx)
  }

  ghost function PayloadsOf(d: Description, items: seq<string>): Payloads
    requires PartsFit(d, items)
  {
    Payloads(StringsPayload(items), GeneralBytes(d.device, items), FmmuBytes(d.device.fmmus), SyncmBytes(d.device.sms),
             PdosBytes(RxRecords(d, items)), PdosBytes(TxRecords(d, items)))
  }

  ghost function Categories(d: Description, items: seq<string>): seq<Category>
    requires PartsFit(d, items)
  {
    CategoryList(PayloadsOf(d, items))
  }

  // ---------- The configuration area ----------

  function ByteSize(d: Description): int {
    match d.device.eeprom
    case None => 2048
    case Some(e) => match e.byteSize { case None => 2048 case Some(size) => size }
  }

  function ConfigData(d: Description): seq<byte> {
    match d.device.eeprom case None => [] case Some(e) => e.configData
  }

  function BootStrap(d: Description): seq<byte> {
    match d.device.eeprom case None => [] case Some(e) => e.bootStrap
  }

  function SizeWord(byteSize: int): int {
    var kibit := byteSize * 8 / 1024 - 1;
    if kibit > 0 then kibit else 0
  }

  function Blank(byteSize: nat): (r: seq<byte>)
    ensures |r| == byteSize
  {
    seq(byteSize, i => if i < 0x80 then 0 else 0xFF)
  }

  function AsBits(buf: seq<byte>): seq<bv8> { seq(|buf|, i requires 0 <= i < |buf| => buf[i] as bv8) }

  function ChecksumWord(buf: seq<byte>): int
    requires |buf| >= 14
  {
    SiiChecksum.Checksum(AsBits(buf[..14])) as int
  }

  function WithIdentity(buf: seq<byte>, d: Description): (r: seq<byte>)
    requires |buf| >= 0x80
    ensures |r| == |buf|
  {
    PutU32(PutU32(PutU32(PutU32(buf, 0x10, d.vendorId), 0x14, d.productCode), 0x18, d.revisionNo), 0x1C, 0)
  }

  function WithMailboxes(buf: seq<byte>, sms: seq<SyncManager>): (r: seq<byte>)
    requires |buf| >= 0x80
    ensures |r| == |buf|
  {
    if |sms| < 2 then buf
    else PutU16(PutU16(PutU16(PutU16(buf, 0x30, sms[0].startAddress), 0x32, sms[0].size), 0x34, sms[1].startAddress),
        0x36, sms[1].size)
  }

  function WithTail(buf: seq<byte>, d: Description): (r: seq<byte>)
    requires |buf| >= 0x80
    ensures |r| == |buf|
  {
    PutU16(PutU16(PutU16(buf, 0x38, MailboxProtocol(d.device.mailbox)), 0x7C, SizeWord(ByteSize(d))), 0x7E, 1)
  }

  /** The buffer before the categories are copied in. */
  function ConfigurationArea(d: Description): (r: seq<byte>)
    requires ByteSize(d) >= 0x80
    ensures |r| >= 0x80
  {
    var buf := SliceAssign(Blank(ByteSize(d)), 0, ConfigData(d));
    var buf := SliceAssign(WithIdentity(buf, d), 0x28, BootStrap(d));
    var buf := WithTail(WithMailboxes(buf, d.device.sms), d);
    PutU16(buf, 0x0E, ChecksumWord(buf))
  }

  // ---------- build_image ----------

  ghost function Table(d: Description): Option<seq<string>> { InternAll([], AllTexts(d)) }

  /** What follows the configuration area: the category chain and the end marker. */
  ghost function Tail(d: Description, items: seq<string>): seq<byte>
    requires PartsFit(d, items)
  {
    Chain(Categories(d, items)) + U16(CAT_END)
  }

  /** Exactly the descriptions an image can be built for. */
  ghost predicate Buildable(d: Description) {
    && ByteSize(d) >= 0x80
    && Table(d).Some?
    && PartsFit(d, Table(d).value)
    && ChainFits(Categories(d, Table(d).value))
    && 0x80 + |Tail(d, Table(d).value)| <= |ConfigurationArea(d)|
  }

  ghost function Image(d: Description): seq<byte>
    requires Buildable(d)
  {
    Patch(ConfigurationArea(d), 0x80, Tail(d, Table(d).value))
  }

  // ---------- The generator ----------

  method BlankBuffer(byteSize: nat) returns (buf: array<byte>)
    requires byteSize >= 0x80
    ensures fresh(buf) && buf[..] == Blank(byteSize)
  {
    buf := new byte[byteSize](_ => 0xFF);
    for i := 0 to 0x80
      invariant forall k | 0 <= k < byteSize :: buf[k] == if k < i then 0 else 0xFF
    {
      buf[i] := 0;
    }
  }

  method SiiCrcOf(buf: seq<byte>) returns (crc: byte)
    requires |buf| >= 14
    ensures crc == ChecksumWord(buf)
  {
    var bits := AsBits(buf);
    assert bits[..14] == AsBits(buf[..14]);
    var c := SiiChecksum.SiiCrc(bits);
    return c as int;
  }

  method BuildConfigurationArea(d: Description) returns (buf: seq<byte>)
    requires ByteSize(d) >= 0x80
    ensures buf == ConfigurationArea(d)
  {
    var blank := BlankBuffer(ByteSize(d));
    buf := blank[..];
    buf := SliceAssign(buf, 0, ConfigData(d));
    buf := PutU32(buf, 0x10, d.vendorId);
    buf := PutU32(buf, 0x14, d.productCode);
    buf := PutU32(buf, 0x18, d.revisionNo);
    buf := PutU32(buf, 0x1C, 0);
    buf := SliceAssign(buf, 0x28, BootStrap(d));
    var sms := d.device.sms;
    if |sms| >= 2 {
      buf := PutU16(buf, 0x30, sms[0].startAddress);
      buf := PutU16(buf, 0x32, sms[0].size);
      buf := PutU16(buf, 0x34, sms[1].startAddress);
      buf := PutU16(buf, 0x36, sms[1].size);
    }
    buf := PutU16(buf, 0x38, MailboxProtocol(d.device.mailbox));
    buf := PutU16(buf, 0x7C, SizeWord(ByteSize(d)));
    buf := PutU16(buf, 0x7E, 1);
    var crc := SiiCrcOf(buf);
    buf := PutU16(buf, 0x0E, crc);
  }

  /** category(kind, payload), appended unless the payload is empty. */
  method AppendCategory(categories: seq<byte>, kind: nat, payload: seq<byte>, ghost before: seq<Category>)
    returns (r: Result<seq<byte>, Error>)
    requires kind < 0x1_0000 && ChainFits(before) && categories == Chain(before)
    ensures r.Ok? <==> ChainFits(before + Present(kind, payload))
    ensures r.Ok? ==> r.value == Chain(before + Present(kind, payload))
  {
    ChainAppend(before, Present(kind, payload));
    if payload == [] {
      return Ok(categories);
    }
    OneCategory(Category(kind, payload));
    if |Padded(payload)| / 2 >= 0x1_0000 {
      return Err(FieldOutOfRange);
    }
    return Ok(categories + CategoryBytes(Category(kind, payload)));
  }

  lemma OneCategory(c: Category)
    ensures Chain([c]) == CategoryBytes(c) && (ChainFits([c]) <==> CategoryFits(c))
  {
    assert CategoryBlocks([c]) == [] + [CategoryBytes(c)];
    FlattenLast([], CategoryBytes(c));
    assert ChainFits([c]) ==> CategoryFits([c][0]);
  }

  lemma {:induction false} InternAllLength(items: seq<string>, texts: seq<string>)
    requires InternAll(items, texts).Some?
    ensures |items| <= |InternAll(items, texts).value| <= |items| + |texts|
    decreases |texts|
  {
    if texts != [] { InternAllLength(items, texts[..|texts| - 1]); }
  }

  lemma IndexAtMostLength(items: seq<string>, text: string)
    ensures IndexOf(items, text) <= |items|
  {
  }

  lemma SmallTableFits(dev: Device, items: seq<string>)
    requires |items| < 0x100
    ensures GeneralFits(dev, items)
  {
    IndexAtMostLength(items, GroupText(dev));
    IndexAtMostLength(items, TypeText(dev));
    IndexAtMostLength(items, NameText(dev));
  }

  /** The first pass: a throw-away build_general and add_pdo_strings put every text in the table. */
  method InternTexts(d: Description, sources: seq<Source>, strings: StringTable) returns (ok: bool)
    requires strings.Valid() && strings.items == [] && sources == PdoSources(d)
    modifies strings
    ensures strings.Valid()
    ensures ok <==> Table(d).Some?
    ensures ok ==> Table(d) == Some(strings.items)
  {
    InternAllAppend([], GeneralTexts(d.device), SourceTexts(sources));
    if InternAll([], GeneralTexts(d.device)).Some? {
      InternAllLength([], GeneralTexts(d.device));
      SmallTableFits(d.device, InternAll([], GeneralTexts(d.device)).value);
    }
    var general := BuildGeneral(d.device, strings);
    if general.Err? { return false; }
    ok := AddPdoStrings(sources, strings);
  }

  /** Interning is closed before the table is printed: every text of the image is in it. */
  lemma TableIsClosed(d: Description)
    requires Table(d).Some?
    ensures Interned(Table(d).value)
    ensures forall t | t in GeneralTexts(d.device) :: Known(Table(d).value, t)
    ensures KnownSources(Table(d).value, PdoSources(d))
    ensures InternAll(Table(d).value, GeneralTexts(d.device)) == Table(d)
  {
    var items, g := Table(d).value, GeneralTexts(d.device);
    InternAllGrows([], AllTexts(d));
    forall t | t in g ensures Known(items, t) { assert t in AllTexts(d); }
    forall t | t in SourceTexts(PdoSources(d)) ensures Known(items, t) { assert t in AllTexts(d); }
    SourceTextsKnown(items, PdoSources(d));
    InternKnown(items, g);
  }

  lemma StringsCategoryFits(items: seq<string>)
    requires |items| < 0x100 && Interned(items)
    ensures CategoryFits(Category(CAT_STRINGS, StringsPayload(items)))
  {
    FlattenBound(TextBlocks(items), 256);
  }

  lemma GeneralCategoryFits(payload: seq<byte>)
    requires |payload| == 32
    ensures CategoryFits(Category(CAT_GENERAL, payload))
  {
  }

  /** The categories that do not depend on the string table any more. */
  method AppendDeviceCategories(d: Description, start: seq<byte>,
      ghost before: seq<Category>) returns (r: Result<seq<byte>, Error>)
    requires ChainFits(before) && start == Chain(before)
    ensures r.Ok? ==> SyncManagersFit(d.device.sms)
    ensures SyncManagersFit(d.device.sms) ==>
              var cs := before + Present(CAT_FMMU, FmmuBytes(d.device.fmmus)) +
                  Present(CAT_SYNCM, SyncmBytes(d.device.sms));
              && (r.Ok? <==> ChainFits(cs)) && (r.Ok? ==> r.value == Chain(cs))
  {
    var fmmu := BuildFmmu(d.device.fmmus);
    ghost var one := before + Present(CAT_FMMU, fmmu);
    var first := AppendCategory(start, CAT_FMMU, fmmu, before);
    if first.Err? {
      if SyncManagersFit(d.device.sms) && ChainFits(one + Present(CAT_SYNCM, SyncmBytes(d.device.sms))) {
        ChainAppend(one, Present(CAT_SYNCM, SyncmBytes(d.device.sms)));
      }
      return first;
    }
    var syncm :- BuildSyncm(d.device.sms);
    r := AppendCategory(first.value, CAT_SYNCM, syncm, one);
  }

  method AppendPdoCategories(d: Description, sources: seq<Source>, strings: StringTable, start: seq<byte>,
      ghost before: seq<Category>)
    returns (r: Result<seq<byte>, Error>)
    requires ChainFits(before) && start == Chain(before)
    requires strings.Valid() && KnownSources(strings.items, sources) && sources == PdoSources(d)
    modifies strings
    ensures strings.Valid() && strings.items == old(strings.items)
    ensures r.Ok? ==> AllFit(RxRecords(d, strings.items)) && AllFit(TxRecords(d, strings.items))
    ensures AllFit(RxRecords(d, strings.items)) && AllFit(TxRecords(d, strings.items)) ==>
              var cs := before + Present(CAT_RXPDO, PdosBytes(RxRecords(d, strings.items)))
                        + Present(CAT_TXPDO, PdosBytes(TxRecords(d, strings.items)));
              && (r.Ok? <==> ChainFits(cs)) && (r.Ok? ==> r.value == Chain(cs))
  {
    ghost var items := strings.items;
    var rx := BuildPdoCategory(sources, RxPdo, 2, strings);
    if rx.Err? { return rx; }
    ghost var one := before + Present(CAT_RXPDO, rx.value);
    var first := AppendCategory(start, CAT_RXPDO, rx.value, before);
    if first.Err? {
      if AllFit(TxRecords(d, items)) && ChainFits(one + Present(CAT_TXPDO, PdosBytes(TxRecords(d, items)))) {
        ChainAppend(one, Present(CAT_TXPDO, PdosBytes(TxRecords(d, items))));
      }
      return first;
    }
    var tx := BuildPdoCategory(sources, TxPdo, 3, strings);
    if tx.Err? { return tx; }
    r := AppendCategory(first.value, CAT_TXPDO, tx.value, one);
  }

  ghost function HeadCategories(d: Description, items: seq<string>): seq<Category>
    requires |items| < 0x100 && GeneralFits(d.device, items)
  {
    [Category(CAT_STRINGS, StringsPayload(items)), Category(CAT_GENERAL, GeneralBytes(d.device, items))]
  }

  /** STRINGS, printed from the closed table, and GENERAL from the second build_general. */
  method BuildHead(d: Description, strings: StringTable) returns (r: Result<seq<byte>, Error>)
    requires strings.Valid() && Table(d) == Some(strings.items)
    modifies strings
    ensures strings.Valid() && (r.Ok? ==> strings.items == old(strings.items))
    ensures r.Ok? <==> |old(strings.items)| < 0x100
    ensures r.Ok? ==> GeneralFits(d.device, old(strings.items))
    ensures r.Ok? ==>
        ChainFits(HeadCategories(d, old(strings.items))) && r.value == Chain(HeadCategories(d, old(strings.items)))
  {
    hide Table;
    hide StringTable.Valid;
    hide StringsPayload;
    hide CategoryBytes;
    hide CategoryFits;
    hide Padded;
    hide GeneralLayout;
    ghost var items := strings.items;
    TableIsClosed(d);
    var payload :- strings.Payload();
    SmallTableFits(d.device, items);
    var built := BuildGeneral(d.device, strings);
    if built.Err? { return built; }
    ghost var c0, c1 := Category(CAT_STRINGS, payload), Category(CAT_GENERAL, built.value);
    StringsCategoryFits(items);
    OneCategory(c0);
    var first := AppendCategory([], CAT_STRINGS, payload, []);
    assert [] + Present(CAT_STRINGS, payload) == [c0];
    if first.Err? { return first; }
    assert [c0] + Present(CAT_GENERAL, built.value) == [c0, c1];
    GeneralCategoryFits(built.value);
    r := AppendCategory(first.value, CAT_GENERAL, built.value, [c0]);
  }

  lemma CategoriesSplit(d: Description, items: seq<string>)
    requires PartsFit(d, items)
    ensures var head := HeadCategories(d, items) + Present(CAT_FMMU, FmmuBytes(d.device.fmmus)) +
        Present(CAT_SYNCM, SyncmBytes(d.device.sms));
            var rest := Present(CAT_RXPDO, PdosBytes(RxRecords(d, items))) +
                Present(CAT_TXPDO, PdosBytes(TxRecords(d, items)));
            && Categories(d, items) == head + rest
            && Categories(d, items) == head + Present(CAT_RXPDO, PdosBytes(RxRecords(d, items))) +
                Present(CAT_TXPDO, PdosBytes(TxRecords(d, items)))
            && (ChainFits(Categories(d, items)) ==> ChainFits(head))
  {
    hide Present;
    hide RxRecords;
    hide TxRecords;
    hide PdosBytes;
    hide FmmuBytes;
    hide SyncmBytes;
    hide Chain;
    hide ChainFits;
    hide AllFit;
    hide StringsPayload;
    var head := HeadCategories(d, items) + Present(CAT_FMMU, FmmuBytes(d.device.fmmus)) +
        Present(CAT_SYNCM, SyncmBytes(d.device.sms));
    var rest := Present(CAT_RXPDO, PdosBytes(RxRecords(d, items))) + Present(CAT_TXPDO, PdosBytes(TxRecords(d, items)));
    ChainAppend(head, rest);
  }

  /** The second pass, with the closed table. */
  method BuildCategories(d: Description, sources: seq<Source>, strings: StringTable) returns (r: Result<seq<byte>,
      Error>)
    requires strings.Valid() && Table(d) == Some(strings.items) && sources == PdoSources(d)
    modifies strings
    ensures r.Ok? <==> PartsFit(d, old(strings.items)) && ChainFits(Categories(d, old(strings.items)))
    ensures r.Ok? ==> r.value == Tail(d, old(strings.items))
  {
    hide Table;
    hide StringTable.Valid;
    hide Chain;
    hide ChainFits;
    hide KnownSources;
    hide Categories;
    hide RxRecords;
    hide TxRecords;
    hide AllFit;
    hide HeadCategories;
    ghost var items := strings.items;
    TableIsClosed(d);
    var start :- BuildHead(d, strings);
    ghost var head := HeadCategories(d, items);
    var more := AppendDeviceCategories(d, start, head);
    if PartsFit(d, items) { CategoriesSplit(d, items); }
    if more.Err? { return more; }
    head := head + Present(CAT_FMMU, FmmuBytes(d.device.fmmus)) + Present(CAT_SYNCM, SyncmBytes(d.device.sms));
    var all := AppendPdoCategories(d, sources, strings, more.value, head);
    if all.Err? { return all; }
    return Ok(all.value + U16(CAT_END));
  }

  /** build_image: it succeeds exactly on the descriptions that are buildable, with this image. */
  method BuildImage(d: Description) returns (r: Result<seq<byte>, Error>)
    ensures r.Ok? <==> Buildable(d)
    ensures r.Ok? ==> r.value == Image(d)
  {
    if ByteSize(d) < 0x80 {
      return Err(BufferTooShort);
    }
    var buf := BuildConfigurationArea(d);
    var modules := FindDefaultModules(d);
    var sources := [Source(d.device.lists, 0, 0)] + modules;
    var strings := new StringTable();
    var interned := InternTexts(d, sources, strings);
    if !interned {
      return Err(StringTooLong);
    }
    var categories :- BuildCategories(d, sources, strings);
    var end := 0x80 + |categories|;
    if end > |buf| {
      return Err(ImageTooSmall);
    }
    return Ok(Patch(buf, 0x80, categories));
  }
}
