/** The generator and the reader together: what an image says is what the description said. */
module SiiRoundTrip {
  import opened Wrappers
  import opened SiiBytes
  import opened Flattening
  import opened SiiStrings
  import opened SiiPdos
  import opened EsiDevice
  import opened SiiImage
  import opened SiiReader
  import opened SiiFrame

  // ---------- The sections of an image ----------

  /** The payload of the category at o, as its size word delimits it. */
  function PayloadAt(data: seq<byte>, o: nat): Option<seq<byte>> {
    if o + 4 > |data| || o + 4 + 2 * ReadU16(data, o + 2) > |data| then None
    else Some(data[o + 4..o + 4 + 2 * ReadU16(data, o + 2)])
  }

  /** The payload of the first category of a kind. */
  function Section(data: seq<byte>, kind: nat): Option<seq<byte>> {
    match Find(data, kind, 0x80)
    case None => None
    case Some(o) => PayloadAt(data, o)
  }

  /** The payload of the first category of a kind in a list. */
  function FirstPayload(cs: seq<Category>, kind: nat): Option<seq<byte>> {
    if cs == [] then None
    else if cs[0].kind == kind then Some(Padded(cs[0].payload))
    else FirstPayload(cs[1..], kind)
  }

  lemma PayloadOfCategory(data: seq<byte>, o: nat, c: Category)
    requires CategoryFits(c) && At(data, o, CategoryBytes(c))
    ensures PayloadAt(data, o) == Some(Padded(c.payload))
  {
    HeaderWords(data, o, c);
  }

  lemma {:induction false} PayloadOfFirst(data: seq<byte>, cs: seq<Category>, kind: nat, a: nat)
    requires ChainFits(cs) && At(data, a, Chain(cs))
    ensures match FirstOffset(cs, kind, a)
            case None => FirstPayload(cs, kind) == None
            case Some(o) => PayloadAt(data, o) == FirstPayload(cs, kind)
    decreases |cs|
  {
    hide At;
    hide CategoryBytes;
    hide Chain;
    hide Padded;
    hide PayloadAt;
    if cs != [] {
      var c, rest, next := cs[0], cs[1..], a + |CategoryBytes(cs[0])|;
      ChainSplit(data, cs, a);
      if c.kind == kind {
        PayloadOfCategory(data, a, c);
      } else {
        PayloadOfFirst(data, rest, kind, next);
      }
    }
  }

  /** The image carries the categories of d, printed with this table, from byte 0x80 on. */
  ghost predicate Carries(image: seq<byte>, d: Description, items: seq<string>) {
    && PartsFit(d, items)
    && ChainFits(Categories(d, items))
    && At(image, 0x80, Tail(d, items))
  }

  lemma SectionOfChain(data: seq<byte>, cs: seq<Category>, kind: nat)
    requires ChainFits(cs) && forall i | 0 <= i < |cs| :: cs[i].kind != CAT_END
    requires At(data, 0x80, Chain(cs) + U16(CAT_END))
    ensures Section(data, kind) == FirstPayload(cs, kind)
  {
    FindIsExact(data, cs, kind, 0x80);
    AtSplit(data, 0x80, Chain(cs), U16(CAT_END));
    PayloadOfFirst(data, cs, kind, 0x80);
  }

  lemma ImageCarries(d: Description)
    requires Buildable(d)
    ensures Carries(Image(d), d, Table(d).value)
  {
  }

  // ---------- Which section is which ----------

  lemma FirstPayloadSkips(a: seq<Category>, b: seq<Category>, kind: nat)
    requires forall i | 0 <= i < |a| :: a[i].kind != kind
    ensures FirstPayload(a + b, kind) == FirstPayload(b, kind)
    decreases |a|
  {
    if a == [] {
      assert a + b == b;
    } else {
      assert (a + b)[1..] == a[1..] + b;
      FirstPayloadSkips(a[1..], b, kind);
    }
  }

  lemma FirstPayloadPresent(kind: nat, payload: seq<byte>, rest: seq<Category>, wanted: nat)
    requires forall i | 0 <= i < |rest| :: rest[i].kind != kind
    ensures FirstPayload(Present(kind, payload) + rest, wanted) ==
            if wanted != kind then FirstPayload(rest, wanted)
            else if payload == [] then None else Some(Padded(payload))
  {
    if payload == [] {
      assert Present(kind, payload) + rest == rest;
      if wanted == kind {
        FirstPayloadSkips(rest, [], wanted);
        assert rest + [] == rest;
      }
    } else {
      assert (Present(kind, payload) + rest)[1..] == rest;
    }
  }

  /** Fmmu, SyncManager, RxPDO and TxPDO categories, each left out when empty. */
  lemma OptionalSections(fmmu: seq<byte>, syncm: seq<byte>, rx: seq<byte>, tx: seq<byte>, kind: nat)
    ensures FirstPayload(Present(CAT_FMMU, fmmu) +
        (Present(CAT_SYNCM, syncm) + (Present(CAT_RXPDO, rx) + (Present(CAT_TXPDO, tx) + []))), kind) ==
            if kind == CAT_FMMU && fmmu != [] then Some(Padded(fmmu))
            else if kind == CAT_SYNCM && syncm != [] then Some(Padded(syncm))
            else if kind == CAT_RXPDO && rx != [] then Some(Padded(rx))
            else if kind == CAT_TXPDO && tx != [] then Some(Padded(tx))
            else None
  {
    var c6 := Present(CAT_TXPDO, tx) + [];
    var c5 := Present(CAT_RXPDO, rx) + c6;
    var c4 := Present(CAT_SYNCM, syncm) + c5;
    FirstPayloadPresent(CAT_TXPDO, tx, [], kind);
    FirstPayloadPresent(CAT_RXPDO, rx, c6, kind);
    FirstPayloadPresent(CAT_SYNCM, syncm, c5, kind);
    FirstPayloadPresent(CAT_FMMU, fmmu, c4, kind);
  }

  lemma ListKinds(p: Payloads)
    ensures forall i | 0 <= i < |CategoryList(p)| :: CategoryList(p)[i].kind != CAT_END
  {
  }

  lemma ListSections(image: seq<byte>, p: Payloads, kind: nat)
    requires ChainFits(CategoryList(p)) && At(image, 0x80, Chain(CategoryList(p)) + U16(CAT_END))
    ensures Section(image, kind) ==
            if kind == CAT_STRINGS then Some(Padded(p.strings))
            else if kind == CAT_GENERAL then Some(Padded(p.general))
            else if kind == CAT_FMMU && p.fmmu != [] then Some(Padded(p.fmmu))
            else if kind == CAT_SYNCM && p.syncm != [] then Some(Padded(p.syncm))
            else if kind == CAT_RXPDO && p.rx != [] then Some(Padded(p.rx))
            else if kind == CAT_TXPDO && p.tx != [] then Some(Padded(p.tx))
            else None
  {
    var c1, c2 := Category(CAT_STRINGS, p.strings), Category(CAT_GENERAL, p.general);
    var rest := Present(CAT_FMMU, p.fmmu) +
        (Present(CAT_SYNCM, p.syncm) + (Present(CAT_RXPDO, p.rx) + (Present(CAT_TXPDO, p.tx) + [])));
    assert CategoryList(p) == [c1, c2] + rest;
    hide Section;
    hide Padded;
    hide Present;
    hide CategoryList;
    hide At;
    hide Chain;
    ListKinds(p);
    SectionOfChain(image, CategoryList(p), kind);
    HeadSections(c1, c2, rest, kind);
    OptionalSections(p.fmmu, p.syncm, p.rx, p.tx, kind);
  }

  /** Every section of an image is exactly what was printed for it; an absent one was empty, and
      there are no others. */
  lemma Sections(image: seq<byte>, d: Description, items: seq<string>, kind: nat)
    requires Carries(image, d, items)
    ensures Section(image, kind) ==
            if kind == CAT_STRINGS then Some(Padded(StringsPayload(items)))
            else if kind == CAT_GENERAL then Some(GeneralBytes(d.device, items))
            else if kind == CAT_FMMU && d.device.fmmus != [] then Some(FmmuBytes(d.device.fmmus))
            else if kind == CAT_SYNCM && d.device.sms != [] then Some(SyncmBytes(d.device.sms))
            else if kind == CAT_RXPDO && RxRecords(d, items) != [] then Some(PdosBytes(RxRecords(d, items)))
            else if kind == CAT_TXPDO && TxRecords(d, items) != [] then Some(PdosBytes(TxRecords(d, items)))
            else None
  {
    var p := PayloadsOf(d, items);
    hide At;
    hide Chain;
    hide CategoryList;
    hide Padded;
    hide Section;
    ListSections(image, p, kind);
    PdoPayloadShape(RxRecords(d, items));
    PdoPayloadShape(TxRecords(d, items));
    SyncmPayloadShape(d.device.sms);
    FmmuPayloadShape(d.device.fmmus);
    EvenUnpadded(p.general);
  }

  lemma EvenUnpadded(payload: seq<byte>)
    requires |payload| % 2 == 0
    ensures Padded(payload) == payload
  {
  }

  /** A PDO payload is empty only without PDOs, and is never padded. */
  lemma PdoPayloadShape(ps: seq<PdoRecord>)
    requires AllFit(ps)
    ensures PdosBytes(ps) == [] <==> ps == []
    ensures Padded(PdosBytes(ps)) == PdosBytes(ps)
  {
    PdosBytesLength(ps);
  }

  lemma SyncmPayloadShape(sms: seq<SyncManager>)
    requires SyncManagersFit(sms)
    ensures SyncmBytes(sms) == [] <==> sms == []
    ensures Padded(SyncmBytes(sms)) == SyncmBytes(sms)
  {
    FlattenLength(SyncManagerBlocks(sms), 8);
  }

  lemma FmmuPayloadShape(names: seq<string>)
    ensures FmmuBytes(names) == [] <==> names == []
    ensures Padded(FmmuBytes(names)) == FmmuBytes(names)
  {
  }

  lemma HeadSections(c1: Category, c2: Category, rest: seq<Category>, kind: nat)
    ensures FirstPayload([c1, c2] + rest, kind) ==
            if c1.kind == kind then Some(Padded(c1.payload))
            else if c2.kind == kind then Some(Padded(c2.payload))
            else FirstPayload(rest, kind)
  {
    assert ([c1, c2] + rest)[1..] == [c2] + rest && ([c2] + rest)[1..] == rest;
  }

  // ---------- The string table ----------

  function Latin1Texts(items: seq<string>): seq<string> {
    seq(|items|, i requires 0 <= i < |items| => Latin1Text(items[i]))
  }

  lemma OneText(data: seq<byte>, ba: nat, s: string)
    requires |s| < 0x100 && At(data, ba, TextBlock(s))
    ensures |TextBlock(s)| == 1 + |s|
    ensures ba + 1 + |s| <= |data| && data[ba] == |s| && DecodeLatin1(data[ba + 1..ba + 1 + |s|]) == Latin1Text(s)
  {
    AtSplit(data, ba, [|s|], EncodeLatin1(s));
    assert data[ba] == data[ba..ba + 1][0];
    DecodeEncoded(s);
  }

  lemma {:induction false} TextsRoundTrip(data: seq<byte>, ba: nat, items: seq<string>)
    requires forall i | 0 <= i < |items| :: |items[i]| < 0x100
    requires At(data, ba, Flatten(TextBlocks(items)))
    ensures TextsFrom(data, ba, |items|) == Ok(Latin1Texts(items))
    decreases |items|
  {
    hide At;
    hide TextBlock;
    hide Latin1Text;
    if items != [] {
      var s, rest := items[0], items[1..];
      FlattenFront(TextBlocks(items));
      assert TextBlocks(items)[1..] == TextBlocks(rest);
      AtSplit(data, ba, TextBlock(s), Flatten(TextBlocks(rest)));
      OneText(data, ba, s);
      TextsRoundTrip(data, ba + 1 + |s|, rest);
      assert Latin1Texts(items) == [Latin1Text(s)] + Latin1Texts(rest);
    }
  }

  lemma StringsRoundTrip(data: seq<byte>, start: nat, items: seq<string>)
    requires |items| < 0x100 && Interned(items)
    requires start + 4 <= |data| && At(data, start + 4, Padded(StringsPayload(items)))
    ensures Strings(data, start) == Ok([""] + Latin1Texts(items))
  {
    PaddedStarts(data, start + 4, StringsPayload(items));
    AtSplit(data, start + 4, [|items|], Flatten(TextBlocks(items)));
    assert data[start + 4] == data[start + 4..start + 5][0];
    TextsRoundTrip(data, start + 5, items);
  }

  lemma PaddedStarts(data: seq<byte>, at: nat, payload: seq<byte>)
    requires At(data, at, Padded(payload))
    ensures At(data, at, payload)
  {
    var pad := Padded(payload)[|payload|..];
    assert Padded(payload) == payload + pad;
    AtSplit(data, at, payload, pad);
  }

  /** The parsed list, read at the index of a known text, gives the text back. */
  lemma LookupIndex(items: seq<string>, text: string)
    requires Interned(items) && Known(items, text)
    ensures Lookup([""] + Latin1Texts(items), IndexOf(items, text)) == Latin1Text(text)
    ensures IndexOf(items, text) <= |items|
  {
  }

  // ---------- End to end ----------

  lemma StringsSection(image: seq<byte>, items: seq<string>)
    requires |items| < 0x100 && Interned(items)
    requires Section(image, CAT_STRINGS) == Some(Padded(StringsPayload(items)))
    ensures var s := Find(image, CAT_STRINGS, 0x80);
            s.Some? && Strings(image, s.value) == Ok([""] + Latin1Texts(items))
  {
    var s := Find(image, CAT_STRINGS, 0x80).value;
    assert At(image, s + 4, Padded(StringsPayload(items)));
    StringsRoundTrip(image, s, items);
  }

  lemma ParsedStrings(image: seq<byte>, d: Description, items: seq<string>)
    requires Carries(image, d, items)
    ensures var s := Find(image, CAT_STRINGS, 0x80);
            s.Some? && Strings(image, s.value) == Ok([""] + Latin1Texts(items))
  {
    Sections(image, d, items, CAT_STRINGS);
    StringsSection(image, items);
  }

  lemma SectionByte(image: seq<byte>, kind: nat, k: nat)
    requires Section(image, kind).Some? && k < |Section(image, kind).value|
    ensures Find(image, kind, 0x80).Some? && Find(image, kind, 0x80).value + 4 + k < |image|
    ensures image[Find(image, kind, 0x80).value + 4 + k] == Section(image, kind).value[k]
  {
  }

  lemma IndexBytes(image: seq<byte>, g: SiiImage.General)
    requires GeneralValid(g) && Section(image, CAT_GENERAL) == Some(GeneralLayout(g))
    ensures var o := Find(image, CAT_GENERAL, 0x80);
            && o.Some? && o.value + 8 <= |image|
            && image[o.value + 4] == g.group && image[o.value + 5] == 0
            && image[o.value + 6] == g.typ && image[o.value + 7] == g.name
  {
    SectionByte(image, CAT_GENERAL, 0);
    SectionByte(image, CAT_GENERAL, 1);
    SectionByte(image, CAT_GENERAL, 2);
    SectionByte(image, CAT_GENERAL, 3);
  }

  lemma TextsReadBack(image: seq<byte>, d: Description, items: seq<string>)
    requires Carries(image, d, items) && forall t | t in GeneralTexts(d.device) :: Known(items, t)
    ensures Shown(image) == Ok(Some(GeneralView(Latin1Text(GroupText(d.device)), "", Latin1Text(TypeText(d.device)),
                                                Latin1Text(NameText(d.device)))))
  {
    hide Strings;
    hide Find;
    hide Section;
    hide IndexOf;
    hide Latin1Text;
    ParsedStrings(image, d, items);
    Sections(image, d, items, CAT_GENERAL);
    IndexBytes(image, GeneralOf(d.device, IndexOf(items, GroupText(d.device)), IndexOf(items, TypeText(d.device)),
                                IndexOf(items, NameText(d.device))));
    var texts := GeneralTexts(d.device);
    assert texts[0] in texts && texts[1] in texts && texts[2] in texts;
    LookupIndex(items, GroupText(d.device));
    LookupIndex(items, TypeText(d.device));
    LookupIndex(items, NameText(d.device));
  }

  /** For every description an image can be built for, the reader finds STRINGS and GENERAL and shows
      the group, type and name texts of the device (in latin-1), whatever else is in the image. */
  lemma TextsShown(d: Description)
    requires Buildable(d)
    ensures Shown(Image(d)) == Ok(Some(GeneralView(Latin1Text(GroupText(d.device)), "", Latin1Text(TypeText(d.device)),
                                                   Latin1Text(NameText(d.device)))))
  {
    hide Carries;
    hide Shown;
    hide Image;
    ImageCarries(d);
    TableIsClosed(d);
    TextsReadBack(Image(d), d, Table(d).value);
  }

  /** What is shown of a text in a description: nothing of a missing one, otherwise what stripping leaves, with a
      question mark for each character that is not latin-1. */
  ghost predicate ShowsText(shown: string, raw: Option<string>) {
    match raw
    case None => shown == ""
    case Some(s) => exists r :: StrippedTo(s, r) && InLatin1(shown, r)
  }

  predicate InLatin1(shown: string, r: string) {
    |shown| == |r| && forall i | 0 <= i < |r| :: shown[i] == if r[i] as int < 0x100 then r[i] else '?'
  }

  lemma TextShows(raw: Option<string>)
    ensures ShowsText(Latin1Text(Text(raw)), raw)
  {
    hide StrippedTo;
    match raw
    case None =>
    case Some(s) =>
      StripMeaning(s);
      assert InLatin1(Latin1Text(Strip(s)), Strip(s));
  }

  /** In terms of the description's own fields: the reader shows the group, no image, the type, and as the name the
      name if there is one that is not empty, otherwise the type. */
  lemma TextsEndToEnd(d: Description)
    requires Buildable(d)
    ensures exists view: GeneralView ::
              && Shown(Image(d)) == Ok(Some(view))
              && ShowsText(view.group, d.device.groupType) && view.image == ""
              && ShowsText(view.order, d.device.typeText)
              && ShowsText(view.name, if d.device.name.Some? && d.device.name.value != "" then d.device.name
                                      else d.device.typeText)
  {
    TextsShown(d);
    hide Buildable;
    hide Shown;
    hide Image;
    hide ShowsText;
    TextShows(d.device.groupType);
    TextShows(d.device.typeText);
    TextShows(d.device.name);
    var view := GeneralView(Latin1Text(GroupText(d.device)), "", Latin1Text(TypeText(d.device)),
                            Latin1Text(NameText(d.device)));
    hide Latin1Text;
    hide Text;
    assert Shown(Image(d)) == Ok(Some(view));
  }

  // ---------- PDOs, with their names ----------

  datatype NamedEntry = NamedEntry(index: int, subIndex: int, name: string, bitLen: int)

  datatype NamedPdo = NamedPdo(index: int, sm: int, name: string, entries: seq<NamedEntry>)

  function NameEntry(e: EntryRecord, strings: seq<string>): NamedEntry {
    NamedEntry(e.index, e.subIndex, if e.nameIdx < 0 then "N/A" else Lookup(strings, e.nameIdx), e.bitLen)
  }

  function NamePdo(p: PdoRecord, strings: seq<string>): NamedPdo {
    NamedPdo(p.index, p.sm, if p.nameIdx < 0 then "N/A" else Lookup(strings, p.nameIdx),
             seq(|p.entries|, i requires 0 <= i < |p.entries| => NameEntry(p.entries[i], strings)))
  }

  function NamePdos(ps: seq<PdoRecord>, strings: seq<string>): seq<NamedPdo> {
    seq(|ps|, i requires 0 <= i < |ps| => NamePdo(ps[i], strings))
  }

  /** The PDOs of an image: the section of one direction, decoded, with the names the string section gives. */
  function ReadPdos(image: seq<byte>, kind: nat): Option<seq<NamedPdo>> {
    match Find(image, 10, 0x80)
    case None => None
    case Some(s) =>
      match Strings(image, s)
      case Err(_) => None
      case Ok(strings) =>
        match Section(image, kind)
        case None => Some([])
        case Some(payload) =>
          match DecodePdos(payload)
          case None => None
          case Some(ps) => Some(NamePdos(ps, strings))
  }

  function DescribedEntry(entry: Entry, indexOffset: int): NamedEntry {
    NamedEntry(entry.index + (if entry.dependOnSlot then indexOffset else 0), entry.subIndex,
               Latin1Text(Text(entry.name)), entry.bitLen)
  }

  function DescribedPdo(pdo: Pdo, source: Source, smDefault: int): NamedPdo {
    NamedPdo(pdo.index + (if pdo.dependOnSlot then source.pdoOffset else 0),
             match pdo.sm { case None => smDefault case Some(sm) => sm },
             Latin1Text(Text(pdo.name)),
             seq(|pdo.entries|, i requires 0 <= i < |pdo.entries| => DescribedEntry(pdo.entries[i],
                 source.indexOffset)))
  }

  function DescribedList(pdos: seq<Pdo>, source: Source, smDefault: int): seq<NamedPdo> {
    seq(|pdos|, i requires 0 <= i < |pdos| => DescribedPdo(pdos[i], source, smDefault))
  }

  /** The PDOs of one direction as the description states them, without any table. */
  function DescribedPdos(sources: seq<Source>, tag: Tag, smDefault: int): seq<NamedPdo> {
    Flatten(seq(|sources|,
        i requires 0 <= i < |sources| => DescribedList(Tagged(sources[i].lists, tag), sources[i], smDefault)))
  }

  lemma NamedAsDescribed(pdo: Pdo, source: Source, smDefault: int, items: seq<string>)
    requires Interned(items) && KnownPdo(items, pdo)
    ensures NamePdo(PdoOf(pdo, source, smDefault, items), [""] + Latin1Texts(items)) ==
        DescribedPdo(pdo, source, smDefault)
  {
    var strings := [""] + Latin1Texts(items);
    var p := PdoOf(pdo, source, smDefault, items);
    LookupIndex(items, Text(pdo.name));
    forall i | 0 <= i < |pdo.entries|
      ensures NamePdo(p, strings).entries[i] == DescribedPdo(pdo, source, smDefault).entries[i]
    {
      LookupIndex(items, Text(pdo.entries[i].name));
    }
    assert NamePdo(p, strings).entries == DescribedPdo(pdo, source, smDefault).entries;
  }

  lemma ListNamedAsDescribed(pdos: seq<Pdo>, source: Source, smDefault: int, items: seq<string>)
    requires Interned(items) && KnownPdos(items, pdos)
    ensures NamePdos(PdosOf(pdos, source, smDefault, items), [""] + Latin1Texts(items)) ==
        DescribedList(pdos, source, smDefault)
  {
    forall i | 0 <= i < |pdos|
      ensures NamePdo(PdoOf(pdos[i], source, smDefault, items), [""] + Latin1Texts(items)) ==
          DescribedPdo(pdos[i], source, smDefault)
    {
      NamedAsDescribed(pdos[i], source, smDefault, items);
    }
  }

  lemma {:induction false} NamePdosFlatten(blocks: seq<seq<PdoRecord>>, strings: seq<string>)
    ensures NamePdos(Flatten(blocks), strings) ==
            Flatten(seq(|blocks|, i requires 0 <= i < |blocks| => NamePdos(blocks[i], strings)))
    decreases |blocks|
  {
    if blocks != [] {
      var front, last := blocks[..|blocks| - 1], blocks[|blocks| - 1];
      var named := seq(|blocks|, i requires 0 <= i < |blocks| => NamePdos(blocks[i], strings));
      NamePdosFlatten(front, strings);
      assert named[..|blocks| - 1] == seq(|front|, i requires 0 <= i < |front| => NamePdos(front[i], strings));
      assert NamePdos(Flatten(front) + last, strings) == NamePdos(Flatten(front), strings) + NamePdos(last, strings);
    }
  }

  lemma AllNamedAsDescribed(sources: seq<Source>, tag: Tag, smDefault: int, items: seq<string>)
    requires Interned(items) && KnownSources(items, sources)
    ensures NamePdos(RecordsOf(sources, tag, smDefault, items), [""] + Latin1Texts(items)) ==
        DescribedPdos(sources, tag, smDefault)
  {
    var strings := [""] + Latin1Texts(items);
    var blocks := SourceRecords(sources, tag, smDefault, items);
    NamePdosFlatten(blocks, strings);
    var named := seq(|blocks|, i requires 0 <= i < |blocks| => NamePdos(blocks[i], strings));
    var described := seq(|sources|,
        i requires 0 <= i < |sources| => DescribedList(Tagged(sources[i].lists, tag), sources[i], smDefault));
    forall i | 0 <= i < |sources| ensures named[i] == described[i] {
      ListNamedAsDescribed(Tagged(sources[i].lists, tag), sources[i], smDefault, items);
    }
    assert named == described;
  }

  lemma PdosReadBack(image: seq<byte>, d: Description, items: seq<string>, tag: Tag)
    requires Carries(image, d, items) && KnownSources(items, PdoSources(d))
    ensures ReadPdos(image, if tag.RxPdo? then CAT_RXPDO else CAT_TXPDO) ==
            Some(DescribedPdos(PdoSources(d), tag, if tag.RxPdo? then 2 else 3))
  {
    var kind, smDefault := if tag.RxPdo? then CAT_RXPDO else CAT_TXPDO, if tag.RxPdo? then 2 else 3;
    var ps := RecordsOf(PdoSources(d), tag, smDefault, items);
    hide Find;
    hide Strings;
    hide Section;
    hide DescribedPdos;
    hide RecordsOf;
    ParsedStrings(image, d, items);
    AllNamedAsDescribed(PdoSources(d), tag, smDefault, items);
    Sections(image, d, items, kind);
    assert ps == if tag.RxPdo? then RxRecords(d, items) else TxRecords(d, items);
    DecodePdosBytes(ps);
  }

  /** Reading an image back gives the PDOs of all sources of its description, in both directions. */
  lemma PdosRead(d: Description)
    requires Buildable(d)
    ensures ReadPdos(Image(d), CAT_RXPDO) == Some(DescribedPdos(PdoSources(d), RxPdo, 2))
    ensures ReadPdos(Image(d), CAT_TXPDO) == Some(DescribedPdos(PdoSources(d), TxPdo, 3))
  {
    ImageCarries(d);
    TableIsClosed(d);
    PdosReadBack(Image(d), d, Table(d).value, RxPdo);
    PdosReadBack(Image(d), d, Table(d).value, TxPdo);
  }

  /** A PDO read back is that of the description, with the offsets of its slot where it depends on the slot. */
  ghost predicate ReadsAs(p: NamedPdo, pdo: Pdo, indexOffset: int, pdoOffset: int, smDefault: int) {
    && p.index == pdo.index + (if pdo.dependOnSlot then pdoOffset else 0)
    && p.sm == (if pdo.sm.Some? then pdo.sm.value else smDefault)
    && ShowsText(p.name, pdo.name)
    && |p.entries| == |pdo.entries|
    && forall e | 0 <= e < |pdo.entries| ::
         && p.entries[e].index == pdo.entries[e].index + (if pdo.entries[e].dependOnSlot then indexOffset else 0)
         && p.entries[e].subIndex == pdo.entries[e].subIndex && p.entries[e].bitLen == pdo.entries[e].bitLen
         && ShowsText(p.entries[e].name, pdo.entries[e].name)
  }

  ghost predicate ListReadsAs(ps: seq<NamedPdo>, pdos: seq<Pdo>, indexOffset: int, pdoOffset: int, smDefault: int) {
    |ps| == |pdos| && forall j | 0 <= j < |ps| :: ReadsAs(ps[j], pdos[j], indexOffset, pdoOffset, smDefault)
  }

  lemma DescribedReadsAs(pdo: Pdo, source: Source, smDefault: int)
    ensures ReadsAs(DescribedPdo(pdo, source, smDefault), pdo, source.indexOffset, source.pdoOffset, smDefault)
  {
    hide ShowsText;
    hide Latin1Text;
    hide Text;
    TextShows(pdo.name);
    forall e | 0 <= e < |pdo.entries| ensures ShowsText(Latin1Text(Text(pdo.entries[e].name)), pdo.entries[e].name) {
      TextShows(pdo.entries[e].name);
    }
  }

  lemma DescribedListReadsAs(pdos: seq<Pdo>, source: Source, smDefault: int)
    ensures ListReadsAs(DescribedList(pdos, source, smDefault), pdos, source.indexOffset, source.pdoOffset, smDefault)
  {
    hide ReadsAs;
    forall j | 0 <= j < |pdos|
      ensures ReadsAs(DescribedPdo(pdos[j], source, smDefault), pdos[j], source.indexOffset, source.pdoOffset,
                      smDefault)
    {
      DescribedReadsAs(pdos[j], source, smDefault);
    }
  }

  /** The PDOs of one direction: the blocks of the device and of the chosen slots, one after the other. */
  ghost predicate BlocksBySlot(
    d: Description, rx: bool, smDefault: int, blocks: seq<seq<NamedPdo>>, numbers: seq<nat>, found: seq<nat>)
  {
    && Chosen(d, numbers, found)
    && |blocks| == 1 + |numbers| && |found| == |numbers|
    && ListReadsAs(blocks[0], if rx then d.device.lists.rx else d.device.lists.tx, 0, 0, smDefault)
    && forall i | 0 <= i < |numbers| ::
         && found[i] < |d.modules|
         && ListReadsAs(blocks[i + 1], if rx then d.modules[found[i]].lists.rx else d.modules[found[i]].lists.tx,
                        numbers[i] * IndexIncrement(d), numbers[i] * PdoIncrement(d), smDefault)
  }

  lemma DescribedBySlot(d: Description, tag: Tag, smDefault: int)
    ensures exists blocks, numbers, found ::
              && BlocksBySlot(d, tag.RxPdo?, smDefault, blocks, numbers, found)
              && DescribedPdos(PdoSources(d), tag, smDefault) == Flatten(blocks)
  {
    hide Chosen;
    hide ListReadsAs;
    hide PdoSources;
    hide DescribedList;
    hide Flatten;
    var sources := PdoSources(d);
    var numbers, found := SourcesBySlot(d);
    var blocks :=
      seq(|sources|,
        i requires 0 <= i < |sources| => DescribedList(Tagged(sources[i].lists, tag), sources[i], smDefault));
    forall i | 0 <= i < |sources|
      ensures ListReadsAs(blocks[i], Tagged(sources[i].lists, tag), sources[i].indexOffset, sources[i].pdoOffset,
                          smDefault)
    {
      DescribedListReadsAs(Tagged(sources[i].lists, tag), sources[i], smDefault);
    }
    assert BlocksBySlot(d, tag.RxPdo?, smDefault, blocks, numbers, found);
    assert DescribedPdos(sources, tag, smDefault) == Flatten(blocks);
  }

  /** In terms of the description's own fields: reading the image back gives the PDOs of the device and then, slot after
      slot, those of the module that each slot's default names, the last declared with that identifier; a PDO that
      depends on its slot k has k PDO increments added to its index, and such an entry k index increments. */
  lemma PdosEndToEnd(d: Description)
    requires Buildable(d)
    ensures exists blocks, numbers, found ::
              BlocksBySlot(d, true, 2, blocks, numbers, found) && ReadPdos(Image(d), 51) == Some(Flatten(blocks))
    ensures exists blocks, numbers, found ::
              BlocksBySlot(d, false, 3, blocks, numbers, found) && ReadPdos(Image(d), 50) == Some(Flatten(blocks))
  {
    PdosRead(d);
    hide Buildable;
    hide Image;
    hide ReadPdos;
    hide BlocksBySlot;
    hide PdoSources;
    hide DescribedPdos;
    hide Flatten;
    DescribedBySlot(d, RxPdo, 2);
    DescribedBySlot(d, TxPdo, 3);
  }

  // ---------- Sync managers ----------

  datatype SyncManagerRecord = SyncManagerRecord(startAddress: int, size: int, controlByte: int, enable: int,
      kind: byte)

  function RecordOf(sm: SyncManager): SyncManagerRecord {
    SyncManagerRecord(sm.startAddress, sm.size, sm.controlByte, sm.enable, SyncManagerType(sm.name))
  }

  function RecordsOfAll(sms: seq<SyncManager>): seq<SyncManagerRecord> {
    seq(|sms|, i requires 0 <= i < |sms| => RecordOf(sms[i]))
  }

  /** Records of eight bytes (ETG.1000.6, Table 24), up to the end of the payload. */
  function DecodeSyncm(data: seq<byte>): Option<seq<SyncManagerRecord>>
    decreases |data|
  {
    if data == [] then Some([])
    else if |data| < 8 then None
    else
      match DecodeSyncm(data[8..])
      case None => None
      case Some(rest) => Some([SyncManagerRecord(ReadU16(data, 0), ReadU16(data, 2), data[4], data[6], data[7])] + rest)
  }

  lemma DecodeOneSyncm(sm: SyncManager, tail: seq<byte>)
    requires SyncManagerFits(sm) && DecodeSyncm(tail).Some?
    ensures DecodeSyncm(SyncManagerBytes(sm) + tail) == Some([RecordOf(sm)] + DecodeSyncm(tail).value)
  {
    var data := SyncManagerBytes(sm) + tail;
    assert data[8..] == tail;
    assert At(data, 0, U16(sm.startAddress)) && At(data, 2, U16(sm.size));
    ReadWritten16(data, 0, sm.startAddress);
    ReadWritten16(data, 2, sm.size);
  }

  lemma NoSyncm()
    ensures SyncmBytes([]) == [] && DecodeSyncm([]) == Some(RecordsOfAll([]))
  {
    assert SyncManagerBlocks([]) == [] && RecordsOfAll([]) == [];
  }

  lemma SyncmFront(sms: seq<SyncManager>)
    requires sms != []
    ensures SyncmBytes(sms) == SyncManagerBytes(sms[0]) + SyncmBytes(sms[1..])
  {
    hide SyncManagerBytes;
    FlattenFront(SyncManagerBlocks(sms));
    assert SyncManagerBlocks(sms)[1..] == SyncManagerBlocks(sms[1..]);
  }

  lemma {:induction false} DecodeSyncmBytes(sms: seq<SyncManager>)
    requires SyncManagersFit(sms)
    ensures DecodeSyncm(SyncmBytes(sms)) == Some(RecordsOfAll(sms))
    decreases |sms|
  {
    hide SyncManagerBytes;
    hide SyncManagerFits;
    hide SyncmBytes;
    NoSyncm();
    if sms != [] {
      hide DecodeSyncm;
      SyncmFront(sms);
      DecodeSyncmBytes(sms[1..]);
      DecodeOneSyncm(sms[0], SyncmBytes(sms[1..]));
      assert RecordsOfAll(sms) == [RecordOf(sms[0])] + RecordsOfAll(sms[1..]);
    }
  }

  /** The sync managers of an image; none where the section is missing. */
  function ReadSyncm(image: seq<byte>): Option<seq<SyncManagerRecord>> {
    match Section(image, 41)
    case None => Some([])
    case Some(payload) => DecodeSyncm(payload)
  }

  lemma SyncmReadBack(image: seq<byte>, d: Description, items: seq<string>)
    requires Carries(image, d, items)
    ensures ReadSyncm(image) == Some(RecordsOfAll(d.device.sms))
  {
    hide Section;
    Sections(image, d, items, CAT_SYNCM);
    DecodeSyncmBytes(d.device.sms);
    hide Carries;
    hide DecodeSyncm;
  }

  lemma SyncManagersRead(d: Description)
    requires Buildable(d)
    ensures ReadSyncm(Image(d)) == Some(RecordsOfAll(d.device.sms))
  {
    ImageCarries(d);
    hide Carries;
    hide Image;
    hide ReadSyncm;
    SyncmReadBack(Image(d), d, Table(d).value);
  }

  /** The type byte of a sync manager of this name. */
  predicate KindOf(kind: byte, name: string) {
    && (kind == 1 <==> name == "MBoxOut") && (kind == 2 <==> name == "MBoxIn")
    && (kind == 3 <==> name == "Outputs") && (kind == 4 <==> name == "Inputs")
    && kind <= 4
  }

  /** A sync manager read back has the fields of the one described. */
  predicate ReadsAsManager(read: SyncManagerRecord, sm: SyncManager) {
    && read.startAddress == sm.startAddress && read.size == sm.size
    && read.controlByte == sm.controlByte && read.enable == sm.enable && KindOf(read.kind, sm.name)
  }

  lemma RecordsMeaning(sms: seq<SyncManager>)
    ensures forall i | 0 <= i < |sms| :: ReadsAsManager(RecordsOfAll(sms)[i], sms[i])
  {
  }

  /** For every description an image can be built for, reading the image back gives every sync manager in order,
      with its address, size, control byte, enable byte and type. */
  lemma SyncManagersEndToEnd(d: Description)
    requires Buildable(d)
    ensures var sms, read := d.device.sms, ReadSyncm(Image(d));
            read.Some? && |read.value| == |sms| && forall i | 0 <= i < |sms| :: ReadsAsManager(read.value[i], sms[i])
  {
    SyncManagersRead(d);
    hide Buildable;
    hide Image;
    hide ReadSyncm;
    hide ReadsAsManager;
    RecordsMeaning(d.device.sms);
  }

  // ---------- FMMU ----------

  /** The byte of an FMMU of this name. */
  predicate FmmuKind(kind: byte, name: string) {
    && (kind == 1 <==> name == "Outputs") && (kind == 2 <==> name == "Inputs") && (kind == 3 <==> name == "MBoxState")
    && (kind <= 3 || kind == 0xFF) && kind != 0
  }

  lemma FmmuBytesMeaning(names: seq<string>)
    ensures |FmmuBytes(names)| == |names| + |names| % 2
    ensures forall i | 0 <= i < |names| :: FmmuKind(FmmuBytes(names)[i], names[i])
    ensures |names| % 2 == 1 ==> FmmuBytes(names)[|names|] == 0xFF
  {
  }

  /** For every description an image can be built for, the FMMU section, category 40, has one byte for each FMMU, in
      order, and 0xFF after an odd number; there is none without FMMUs. */
  lemma FmmusEndToEnd(d: Description)
    requires Buildable(d)
    ensures var names, read := d.device.fmmus, Section(Image(d), 40);
            if names == [] then read.None?
            else
              && read.Some? && |read.value| == |names| + |names| % 2
              && (forall i | 0 <= i < |names| :: FmmuKind(read.value[i], names[i]))
              && (|names| % 2 == 1 ==> read.value[|names|] == 0xFF)
  {
    ImageCarries(d);
    Sections(Image(d), d, Table(d).value, CAT_FMMU);
    hide Buildable;
    hide Image;
    hide Section;
    hide Carries;
    FmmuBytesMeaning(d.device.fmmus);
    hide FmmuBytes;
    hide FmmuKind;
  }

  // ---------- Category numbers ----------

  ghost predicate HasSection(d: Description, kind: nat, items: seq<string>) {
    || kind == 10 || kind == 30
    || (kind == 40 && d.device.fmmus != []) || (kind == 41 && d.device.sms != [])
    || (kind == 50 && TxRecords(d, items) != []) || (kind == 51 && RxRecords(d, items) != [])
  }

  lemma SectionOfNumber(image: seq<byte>, d: Description, items: seq<string>, kind: nat)
    requires Carries(image, d, items)
    ensures Section(image, kind).Some? <==> HasSection(d, kind, items)
  {
    hide Section;
    Sections(image, d, items, kind);
  }

  lemma EndMarker(image: seq<byte>, d: Description, items: seq<string>)
    requires Carries(image, d, items)
    ensures var end := 0x80 + |Chain(Categories(d, items))|;
            end + 2 <= |image| && ReadU16(image, end) == 0xFFFF
  {
    hide Chain;
    AtSplit(image, 0x80, Chain(Categories(d, items)), U16(CAT_END));
    ReadWritten16(image, 0x80 + |Chain(Categories(d, items))|, 0xFFFF);
  }

  /** The numbers of the categories (ETG.1000.6, Table 19): strings 10, general 30, FMMU 40, sync managers 41, TxPDO 50
      and RxPDO 51. A section of any other number is not found, and 0xFFFF follows the last category. */
  lemma SectionNumbers(d: Description)
    requires Buildable(d)
    ensures forall kind: nat :: Section(Image(d), kind).Some? <==> HasSection(d, kind, Table(d).value)
    ensures var end := 0x80 + |Chain(Categories(d, Table(d).value))|;
            end + 2 <= |Image(d)| && ReadU16(Image(d), end) == 0xFFFF
  {
    ImageCarries(d);
    EndMarker(Image(d), d, Table(d).value);
    hide Image;
    hide Carries;
    hide Section;
    hide HasSection;
    hide Chain;
    forall kind: nat ensures Section(Image(d), kind).Some? <==> HasSection(d, kind, Table(d).value) {
      SectionOfNumber(Image(d), d, Table(d).value, kind);
    }
  }

  // ---------- GENERAL ----------

  /** What the fields of Table 21 other than the texts tell of a device. */
  datatype GeneralInfo = GeneralInfo(
    coe: Option<Coe>, foe: bool, eoe: bool, dataLinkLayer: bool, identification: bool, ports: seq<bool>)

  predicate BitOf(v: nat, weight: nat)
    requires weight > 0
  {
    v / weight % 2 == 1
  }

  function DecodeCoe(b: nat): Option<Coe> {
    if BitOf(b, 1) then Some(Coe(BitOf(b, 0x02), BitOf(b, 0x04), BitOf(b, 0x08), BitOf(b, 0x20))) else None
  }

  function DecodePorts(word: nat): seq<bool> {
    [word % 0x10 == 1, word / 0x10 % 0x10 == 1, word / 0x100 % 0x10 == 1, word / 0x1000 % 0x10 == 1]
  }

  function DecodeGeneral(p: seq<byte>): GeneralInfo
    requires |p| == 32
  {
    GeneralInfo(DecodeCoe(p[5]), p[6] == 1, p[7] == 1, BitOf(p[11], 0x04), BitOf(p[11], 0x10)
        && ReadU16(p, 0x12) == 0x0134,
                DecodePorts(ReadU16(p, 0x10)))
  }

  function DescribedGeneral(dev: Device): GeneralInfo {
    var m := dev.mailbox;
    GeneralInfo(if m.Some? then m.value.coe else None, m.Some? && m.value.foe, m.Some? && m.value.eoe,
                m.Some? && m.value.dataLinkLayer,
                dev.identificationReg134, seq(4, i requires 0 <= i => i < |dev.physics| && dev.physics[i] == 'Y'))
  }

  lemma CoeDecoded(coe: Option<Coe>)
    ensures DecodeCoe(CoeDetails(coe)) == coe
  {
    CoeBits(coe);
    hide CoeDetails;
  }

  lemma PortsDecoded(physics: string)
    ensures DecodePorts(PhysicalPorts(physics)) == seq(4, i requires 0 <= i => i < |physics| && physics[i] == 'Y')
  {
    PortNibbles(physics, 0);
    PortNibbles(physics, 1);
    PortNibbles(physics, 2);
    PortNibbles(physics, 3);
    hide PhysicalPorts;
  }

  lemma WordInLayout(g: SiiImage.General)
    requires GeneralValid(g)
    ensures ReadU16(GeneralLayout(g), 0x10) == g.ports && ReadU16(GeneralLayout(g), 0x12) == g.memory
    ensures GeneralLayout(g)[5] == g.coe && GeneralLayout(g)[6] == g.foe && GeneralLayout(g)[7] == g.eoe
        && GeneralLayout(g)[11] == g.flags
  {
  }

  lemma GeneralDecoded(dev: Device, group: byte, typ: byte, name: byte)
    ensures DecodeGeneral(GeneralLayout(GeneralOf(dev, group, typ, name))) == DescribedGeneral(dev)
  {
    var g := GeneralOf(dev, group, typ, name);
    WordInLayout(g);
    hide GeneralLayout;
    CoeDecoded(CoeOf(dev.mailbox));
    PortsDecoded(dev.physics);
    hide CoeDetails;
    hide DecodeCoe;
    hide PhysicalPorts;
    hide DecodePorts;
  }

  lemma GeneralReadBack(image: seq<byte>, d: Description, items: seq<string>)
    requires Carries(image, d, items)
    ensures var p := Section(image, CAT_GENERAL);
            p.Some? && |p.value| == 32 && DecodeGeneral(p.value) == DescribedGeneral(d.device)
  {
    hide Section;
    hide IndexOf;
    hide DecodeGeneral;
    hide DescribedGeneral;
    hide GeneralLayout;
    Sections(image, d, items, CAT_GENERAL);
    GeneralDecoded(d.device, IndexOf(items, GroupText(d.device)), IndexOf(items, TypeText(d.device)),
        IndexOf(items, NameText(d.device)));
  }

  /** For every description an image can be built for, the located GENERAL section says of the device which CoE
      attributes, FoE, EoE, data link layer and identification register it has, and which of its first four ports are
      of type Y. */
  lemma GeneralEndToEnd(d: Description)
    requires Buildable(d)
    ensures var p := Section(Image(d), 30);
            p.Some? && |p.value| == 32 && DecodeGeneral(p.value) == DescribedGeneral(d.device)
  {
    ImageCarries(d);
    hide Carries;
    hide Image;
    hide Section;
    hide DecodeGeneral;
    GeneralReadBack(Image(d), d, Table(d).value);
  }
}
