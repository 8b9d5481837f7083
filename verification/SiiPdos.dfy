/** The RXPDO and TXPDO payloads (ETG.1000.6, Tables 25 and 26): the generator's loops, and a decoder
    that recovers every PDO and entry from the bytes. */
module SiiPdos {
  import opened Wrappers
  import opened SiiBytes
  import opened Flattening
  import opened SiiStrings
  import opened EsiDevice

  // ---------- The texts that PDOs intern ----------

  function EntryTexts(entries: seq<Entry>): seq<string> {
    seq(|entries|, i requires 0 <= i < |entries| => Text(entries[i].name))
  }

  function PdoTexts(pdo: Pdo): seq<string> { [Text(pdo.name)] + EntryTexts(pdo.entries) }

  function PdoTextBlocks(pdos: seq<Pdo>): seq<seq<string>> {
    seq(|pdos|, i requires 0 <= i < |pdos| => PdoTexts(pdos[i]))
  }

  function ListTexts(pdos: seq<Pdo>): seq<string> { Flatten(PdoTextBlocks(pdos)) }

  function SourceTextBlocks(sources: seq<Source>): seq<seq<string>> {
    seq(|sources|, i requires 0 <= i < |sources| => ListTexts(sources[i].lists.rx + sources[i].lists.tx))
  }

  /** In the order of add_pdo_strings: per source its RxPDOs, then its TxPDOs. */
  function SourceTexts(sources: seq<Source>): seq<string> { Flatten(SourceTextBlocks(sources)) }

  /** Once a prefix of the texts cannot be interned, all of them cannot. */
  lemma InternPrefix(items: seq<string>, texts: seq<string>, k: nat)
    requires k <= |texts| && InternAll(items, texts[..k]).None?
    ensures InternAll(items, texts).None?
  {
    assert texts == texts[..k] + texts[k..];
    InternAllAppend(items, texts[..k], texts[k..]);
  }

  lemma InternStep(items: seq<string>, texts: seq<string>, k: nat)
    requires k < |texts| && InternAll(items, texts[..k]).Some?
    ensures InternAll(items, texts[..k + 1]) == Intern(InternAll(items, texts[..k]).value, texts[k])
  {
    assert texts[..k + 1][..k] == texts[..k];
  }

  lemma InternNothing(items: seq<string>, texts: seq<string>)
    ensures InternAll(items, texts[..0]) == Some(items)
  {
  }

  /** The name of a PDO and the names of its entries. */
  method AddPdo(pdo: Pdo, strings: StringTable) returns (ok: bool)
    requires strings.Valid()
    modifies strings
    ensures strings.Valid()
    ensures ok <==> InternAll(old(strings.items), PdoTexts(pdo)).Some?
    ensures ok ==> InternAll(old(strings.items), PdoTexts(pdo)) == Some(strings.items)
  {
    hide StringTable.Valid;
    hide Intern;
    hide InternAll;
    hide Text;
    ghost var texts, was := PdoTexts(pdo), strings.items;
    var r := strings.Add(pdo.name);
    InternNothing(was, texts);
    InternStep(was, texts, 0);
    if r.Err? {
      InternPrefix(was, texts, 1);
      return false;
    }
    for i := 0 to |pdo.entries|
      invariant strings.Valid()
      invariant InternAll(was, texts[..i + 1]) == Some(strings.items)
    {
      InternStep(was, texts, i + 1);
      r := strings.Add(pdo.entries[i].name);
      if r.Err? {
        InternPrefix(was, texts, i + 2);
        return false;
      }
    }
    assert texts[..|pdo.entries| + 1] == texts;
    return true;
  }

  /** Interning block by block. */
  lemma InternBlockStep(items: seq<string>, blocks: seq<seq<string>>, k: nat)
    requires k < |blocks| && InternAll(items, Flatten(blocks[..k])).Some?
    ensures InternAll(items, Flatten(blocks[..k + 1])) ==
        InternAll(InternAll(items, Flatten(blocks[..k])).value, blocks[k])
    ensures InternAll(items, Flatten(blocks[..k + 1])).None? ==> InternAll(items, Flatten(blocks)).None?
  {
    FlattenStep(blocks, k);
    InternAllAppend(items, Flatten(blocks[..k]), blocks[k]);
    FlattenSplit(blocks, k + 1);
    InternAllAppend(items, Flatten(blocks[..k + 1]), Flatten(blocks[k + 1..]));
  }

  method AddPdoList(pdos: seq<Pdo>, strings: StringTable) returns (ok: bool)
    requires strings.Valid()
    modifies strings
    ensures strings.Valid()
    ensures ok <==> InternAll(old(strings.items), ListTexts(pdos)).Some?
    ensures ok ==> InternAll(old(strings.items), ListTexts(pdos)) == Some(strings.items)
  {
    ghost var was, blocks := strings.items, PdoTextBlocks(pdos);
    for p := 0 to |pdos|
      invariant strings.Valid()
      invariant InternAll(was, Flatten(blocks[..p])) == Some(strings.items)
    {
      InternBlockStep(was, blocks, p);
      ok := AddPdo(pdos[p], strings);
      if !ok { return; }
    }
    assert blocks[..|pdos|] == blocks;
    return true;
  }

  method AddPdoStrings(sources: seq<Source>, strings: StringTable) returns (ok: bool)
    requires strings.Valid()
    modifies strings
    ensures strings.Valid()
    ensures ok <==> InternAll(old(strings.items), SourceTexts(sources)).Some?
    ensures ok ==> InternAll(old(strings.items), SourceTexts(sources)) == Some(strings.items)
  {
    ghost var was, blocks := strings.items, SourceTextBlocks(sources);
    for s := 0 to |sources|
      invariant strings.Valid()
      invariant InternAll(was, Flatten(blocks[..s])) == Some(strings.items)
    {
      InternBlockStep(was, blocks, s);
      ok := AddPdoList(sources[s].lists.rx + sources[s].lists.tx, strings);
      if !ok { return; }
    }
    assert blocks[..|sources|] == blocks;
    return true;
  }

  // ---------- What a PDO category says ----------

  datatype Tag = RxPdo | TxPdo

  datatype EntryRecord = EntryRecord(index: int, subIndex: int, nameIdx: int, bitLen: int)

  datatype PdoRecord = PdoRecord(index: int, sm: int, nameIdx: int, entries: seq<EntryRecord>)

  function Tagged(lists: PdoLists, tag: Tag): seq<Pdo> { if tag.RxPdo? then lists.rx else lists.tx }

  ghost function EntryOf(entry: Entry, indexOffset: int, items: seq<string>): EntryRecord {
    EntryRecord(entry.index + (if entry.dependOnSlot then indexOffset else 0), entry.subIndex,
                IndexOf(items, Text(entry.name)), entry.bitLen)
  }

  ghost function EntriesOf(entries: seq<Entry>, indexOffset: int, items: seq<string>): seq<EntryRecord> {
    seq(|entries|, i requires 0 <= i < |entries| => EntryOf(entries[i], indexOffset, items))
  }

  ghost function PdoOf(pdo: Pdo, source: Source, smDefault: int, items: seq<string>): PdoRecord {
    PdoRecord(pdo.index + (if pdo.dependOnSlot then source.pdoOffset else 0),
              match pdo.sm { case None => smDefault case Some(sm) => sm },
              IndexOf(items, Text(pdo.name)), EntriesOf(pdo.entries, source.indexOffset, items))
  }

  ghost function PdosOf(pdos: seq<Pdo>, source: Source, smDefault: int, items: seq<string>): seq<PdoRecord> {
    seq(|pdos|, i requires 0 <= i < |pdos| => PdoOf(pdos[i], source, smDefault, items))
  }

  ghost function SourceRecords(sources: seq<Source>, tag: Tag, smDefault: int,
      items: seq<string>): seq<seq<PdoRecord>> {
    seq(|sources|, i requires 0 <= i < |sources| => PdosOf(Tagged(sources[i].lists, tag), sources[i], smDefault, items))
  }

  /** All PDOs of one direction, source by source, with their slot offsets and string indices. */
  ghost function RecordsOf(sources: seq<Source>, tag: Tag, smDefault: int, items: seq<string>): seq<PdoRecord> {
    Flatten(SourceRecords(sources, tag, smDefault, items))
  }

  /** The fields fit the widths struct.pack gives them. */
  predicate EntryFits(e: EntryRecord) {
    0 <= e.index < 0x1_0000 && 0 <= e.subIndex < 0x100 && 0 <= e.nameIdx < 0x100 && 0 <= e.bitLen < 0x100
  }

  predicate HeaderFits(index: int, n: int, sm: int, nameIdx: int) {
    0 <= index < 0x1_0000 && 0 <= n < 0x100 && 0 <= sm < 0x100 && 0 <= nameIdx < 0x100
  }

  predicate PdoFits(p: PdoRecord) {
    HeaderFits(p.index, |p.entries|, p.sm, p.nameIdx) && forall i | 0 <= i < |p.entries| :: EntryFits(p.entries[i])
  }

  predicate AllFit(ps: seq<PdoRecord>) { forall i | 0 <= i < |ps| :: PdoFits(ps[i]) }

  /** Eight bytes an entry; nothing for one that does not fit. */
  function EntryBytes(e: EntryRecord): (r: seq<byte>)
    ensures EntryFits(e) ==> |r| == 8
  {
    if EntryFits(e) then U16(e.index) + [e.subIndex, e.nameIdx, 0, e.bitLen] + U16(0) else []
  }

  function EntryBlocks(es: seq<EntryRecord>): seq<seq<byte>> {
    seq(|es|, i requires 0 <= i < |es| => EntryBytes(es[i]))
  }

  function HeaderBytes(index: int, n: int, sm: int, nameIdx: int): (r: seq<byte>)
    requires HeaderFits(index, n, sm, nameIdx)
    ensures |r| == 8
  {
    U16(index) + [n, sm, 0, nameIdx] + U16(0)
  }

  /** A header and its entries; nothing for a PDO that does not fit. */
  function PdoBytes(p: PdoRecord): seq<byte> {
    if PdoFits(p) then HeaderBytes(p.index, |p.entries|, p.sm, p.nameIdx) + Flatten(EntryBlocks(p.entries)) else []
  }

  function PdoBlocks(ps: seq<PdoRecord>): seq<seq<byte>> {
    seq(|ps|, i requires 0 <= i < |ps| => PdoBytes(ps[i]))
  }

  function PdosBytes(ps: seq<PdoRecord>): seq<byte> { Flatten(PdoBlocks(ps)) }

  // ---------- The generator's loops ----------

  ghost predicate KnownEntries(items: seq<string>, entries: seq<Entry>) {
    forall i | 0 <= i < |entries| :: Known(items, Text(entries[i].name))
  }

  ghost predicate KnownPdo(items: seq<string>, pdo: Pdo) {
    Known(items, Text(pdo.name)) && KnownEntries(items, pdo.entries)
  }

  ghost predicate KnownPdos(items: seq<string>, pdos: seq<Pdo>) {
    forall i | 0 <= i < |pdos| :: KnownPdo(items, pdos[i])
  }

  ghost predicate KnownSources(items: seq<string>, sources: seq<Source>) {
    forall i | 0 <= i < |sources| :: KnownPdos(items, sources[i].lists.rx) && KnownPdos(items, sources[i].lists.tx)
  }

  lemma {:induction false} InFlatten<T>(ss: seq<seq<T>>, k: nat, x: T)
    requires k < |ss| && x in ss[k]
    ensures x in Flatten(ss)
    decreases |ss|
  {
    if k < |ss| - 1 { InFlatten(ss[..|ss| - 1], k, x); }
  }

  lemma ListTextsKnown(items: seq<string>, pdos: seq<Pdo>)
    requires forall t | t in ListTexts(pdos) :: Known(items, t)
    ensures KnownPdos(items, pdos)
  {
    var blocks := PdoTextBlocks(pdos);
    forall p | 0 <= p < |pdos| ensures KnownPdo(items, pdos[p]) {
      forall k | 0 <= k < |blocks[p]| ensures Known(items, blocks[p][k]) { InFlatten(blocks, p, blocks[p][k]); }
      assert blocks[p][0] == Text(pdos[p].name);
      forall i | 0 <= i < |pdos[p].entries| ensures Known(items, Text(pdos[p].entries[i].name)) {
        assert blocks[p][i + 1] == Text(pdos[p].entries[i].name);
      }
    }
  }

  lemma KnownPdosSplit(items: seq<string>, a: seq<Pdo>, b: seq<Pdo>)
    requires KnownPdos(items, a + b)
    ensures KnownPdos(items, a) && KnownPdos(items, b)
  {
    forall i | 0 <= i < |a| ensures KnownPdo(items, a[i]) { assert (a + b)[i] == a[i]; }
    forall i | 0 <= i < |b| ensures KnownPdo(items, b[i]) { assert (a + b)[|a| + i] == b[i]; }
  }

  lemma SourceTextsKnown(items: seq<string>, sources: seq<Source>)
    requires forall t | t in SourceTexts(sources) :: Known(items, t)
    ensures KnownSources(items, sources)
  {
    var blocks := SourceTextBlocks(sources);
    forall s | 0 <= s < |sources|
      ensures KnownPdos(items, sources[s].lists.rx) && KnownPdos(items, sources[s].lists.tx)
    {
      var pdos := sources[s].lists.rx + sources[s].lists.tx;
      forall t | t in ListTexts(pdos) ensures Known(items, t) { InFlatten(blocks, s, t); }
      ListTextsKnown(items, pdos);
      KnownPdosSplit(items, sources[s].lists.rx, sources[s].lists.tx);
    }
  }

  method BuildEntries(entries: seq<Entry>, indexOffset: int, strings: StringTable) returns (r: Result<seq<byte>, Error>)
    requires strings.Valid()
    modifies strings
    ensures strings.Valid()
    ensures old(KnownEntries(strings.items, entries)) ==>
              var es := EntriesOf(entries, indexOffset, old(strings.items));
              && strings.items == old(strings.items)
              && (r.Ok? <==> forall i | 0 <= i < |es| :: EntryFits(es[i]))
              && (r.Ok? ==> r.value == Flatten(EntryBlocks(es)))
  {
    hide StringTable.Valid;
    hide EntryBytes;
    hide Intern;
    hide Text;
    ghost var known, was := KnownEntries(strings.items, entries), strings.items;
    ghost var es := EntriesOf(entries, indexOffset, was);
    ghost var blocks := EntryBlocks(es);
    var data := [];
    for i := 0 to |entries|
      invariant strings.Valid()
      invariant known ==> strings.items == was
      invariant known ==> forall k | 0 <= k < i :: EntryFits(es[k])
      invariant known ==> data == Flatten(blocks[..i])
    {
      var entry := entries[i];
      var index := if entry.dependOnSlot then entry.index + indexOffset else entry.index;
      var nameIdx :- strings.Add(entry.name);
      var e := EntryRecord(index, entry.subIndex, nameIdx, entry.bitLen);
      assert known ==> e == es[i];
      if !EntryFits(e) {
        return Err(FieldOutOfRange);
      }
      assert known ==> EntryFits(es[i]) && EntryBytes(e) == blocks[i];
      data := data + EntryBytes(e);
      FlattenStep(blocks, i);
    }
    assert blocks[..|entries|] == blocks;
    return Ok(data);
  }

  /** The bytes of one PDO. With all its texts in the table it adds none, and packing succeeds
      exactly when every field fits. */
  method BuildPdo(pdo: Pdo, source: Source, smDefault: int, strings: StringTable) returns (r: Result<seq<byte>, Error>)
    requires strings.Valid()
    modifies strings
    ensures strings.Valid()
    ensures old(KnownPdo(strings.items, pdo)) ==>
              && strings.items == old(strings.items)
              && (r.Ok? <==> PdoFits(PdoOf(pdo, source, smDefault, strings.items)))
              && (r.Ok? ==> r.value == PdoBytes(PdoOf(pdo, source, smDefault, strings.items)))
  {
    ghost var known, was := KnownPdo(strings.items, pdo), strings.items;
    ghost var record := PdoOf(pdo, source, smDefault, was);
    var nameIdx :- strings.Add(pdo.name);
    assert known ==> strings.items == was && nameIdx == record.nameIdx;
    var index := if pdo.dependOnSlot then pdo.index + source.pdoOffset else pdo.index;
    var sm := match pdo.sm { case None => smDefault case Some(sm) => sm };
    if !HeaderFits(index, |pdo.entries|, sm, nameIdx) {
      return Err(FieldOutOfRange);
    }
    var header := HeaderBytes(index, |pdo.entries|, sm, nameIdx);
    var entries := BuildEntries(pdo.entries, source.indexOffset, strings);
    if entries.Err? {
      return Err(entries.error);
    }
    return Ok(header + entries.value);
  }

  method BuildPdoList(pdos: seq<Pdo>, source: Source, smDefault: int,
      strings: StringTable) returns (r: Result<seq<byte>, Error>)
    requires strings.Valid()
    modifies strings
    ensures strings.Valid()
    ensures old(KnownPdos(strings.items, pdos)) ==>
              && strings.items == old(strings.items)
              && (r.Ok? <==> AllFit(PdosOf(pdos, source, smDefault, strings.items)))
              && (r.Ok? ==> r.value == PdosBytes(PdosOf(pdos, source, smDefault, strings.items)))
  {
    hide StringTable.Valid;
    hide PdoFits;
    hide PdoBytes;
    hide KnownPdo;
    hide PdoOf;
    ghost var known, was := KnownPdos(strings.items, pdos), strings.items;
    ghost var records := PdosOf(pdos, source, smDefault, strings.items);
    ghost var blocks := PdoBlocks(records);
    var data := [];
    for p := 0 to |pdos|
      invariant strings.Valid()
      invariant known ==> strings.items == was
      invariant known ==> forall k | 0 <= k < p :: PdoFits(records[k])
      invariant known ==> data == Flatten(blocks[..p])
    {
      assert records[p] == PdoOf(pdos[p], source, smDefault, was);
      var bytes :- BuildPdo(pdos[p], source, smDefault, strings);
      assert known ==> PdoFits(records[p]) && bytes == blocks[p];
      data := data + bytes;
      FlattenStep(blocks, p);
    }
    assert blocks[..|pdos|] == blocks;
    return Ok(data);
  }

  lemma PdosBytesAppend(a: seq<PdoRecord>, b: seq<PdoRecord>)
    ensures PdosBytes(a + b) == PdosBytes(a) + PdosBytes(b)
  {
    assert PdoBlocks(a + b) == PdoBlocks(a) + PdoBlocks(b);
    FlattenAppend(PdoBlocks(a), PdoBlocks(b));
  }

  lemma AllFitAppend(a: seq<PdoRecord>, b: seq<PdoRecord>)
    ensures AllFit(a + b) <==> AllFit(a) && AllFit(b)
  {
    if AllFit(a + b) {
      forall i | 0 <= i < |a| ensures PdoFits(a[i]) { assert (a + b)[i] == a[i]; }
      forall i | 0 <= i < |b| ensures PdoFits(b[i]) { assert (a + b)[|a| + i] == b[i]; }
    }
  }

  /** build_pdo_category, once every PDO text is in the table: nothing is interned any more, and the
      bytes are those of the records, read with the table as it is. */
  method BuildPdoCategory(sources: seq<Source>, tag: Tag, smDefault: int, strings: StringTable)
    returns (r: Result<seq<byte>, Error>)
    requires strings.Valid()
    modifies strings
    ensures strings.Valid()
    ensures old(KnownSources(strings.items, sources)) ==>
              && strings.items == old(strings.items)
              && (r.Ok? <==> AllFit(RecordsOf(sources, tag, smDefault, strings.items)))
              && (r.Ok? ==> r.value == PdosBytes(RecordsOf(sources, tag, smDefault, strings.items)))
  {
    ghost var known, was := KnownSources(strings.items, sources), strings.items;
    ghost var blocks := SourceRecords(sources, tag, smDefault, was);
    var data := [];
    for s := 0 to |sources|
      invariant strings.Valid()
      invariant known ==> strings.items == was
      invariant known ==> AllFit(Flatten(blocks[..s]))
      invariant known ==> data == PdosBytes(Flatten(blocks[..s]))
    {
      FlattenStep(blocks, s);
      AllFitAppend(Flatten(blocks[..s]), blocks[s]);
      PdosBytesAppend(Flatten(blocks[..s]), blocks[s]);
      FlattenSplit(blocks, s + 1);
      AllFitAppend(Flatten(blocks[..s + 1]), Flatten(blocks[s + 1..]));
      var bytes :- BuildPdoList(Tagged(sources[s].lists, tag), sources[s], smDefault, strings);
      data := data + bytes;
    }
    assert blocks[..|sources|] == blocks;
    return Ok(data);
  }

  // ---------- Decoding ----------

  function DecodeEntry(data: seq<byte>): EntryRecord
    requires |data| >= 8
  {
    EntryRecord(ReadU16(data, 0), data[2], data[3], data[5])
  }

  function DecodeEntries(data: seq<byte>, n: nat): seq<EntryRecord>
    requires |data| >= 8 * n
  {
    if n == 0 then [] else [DecodeEntry(data)] + DecodeEntries(data[8..], n - 1)
  }

  /** Reads headers, each with the number of entry records it announces, up to the end of the payload. */
  function DecodePdos(data: seq<byte>): Option<seq<PdoRecord>>
    decreases |data|
  {
    if data == [] then Some([])
    else if |data| < 8 then None
    else
      var n := data[2] as nat;
      if |data| < 8 + 8 * n then None
      else
        match DecodePdos(data[8 + 8 * n..])
        case None => None
        case Some(rest) =>
          Some([PdoRecord(ReadU16(data, 0), data[3], data[5], DecodeEntries(data[8..], n))] + rest)
  }

  lemma DecodeEntryBytes(e: EntryRecord, tail: seq<byte>)
    requires EntryFits(e)
    ensures |EntryBytes(e)| == 8 && DecodeEntry(EntryBytes(e) + tail) == e
  {
    var data := EntryBytes(e) + tail;
    assert At(data, 0, U16(e.index));
    ReadWritten16(data, 0, e.index);
  }

  lemma EntryBlocksLength(es: seq<EntryRecord>)
    requires forall i | 0 <= i < |es| :: EntryFits(es[i])
    ensures |Flatten(EntryBlocks(es))| == 8 * |es|
  {
    FlattenLength(EntryBlocks(es), 8);
  }

  lemma {:induction false} DecodeEntriesBytes(es: seq<EntryRecord>, tail: seq<byte>)
    requires forall i | 0 <= i < |es| :: EntryFits(es[i])
    ensures |Flatten(EntryBlocks(es))| == 8 * |es| && DecodeEntries(Flatten(EntryBlocks(es)) + tail, |es|) == es
    decreases |es|
  {
    EntryBlocksLength(es);
    if es != [] {
      var first, others := EntryBytes(es[0]), Flatten(EntryBlocks(es[1..]));
      FlattenFront(EntryBlocks(es));
      assert EntryBlocks(es)[1..] == EntryBlocks(es[1..]);
      Associative(first, others, tail);
      DecodeEntryBytes(es[0], others + tail);
      DecodeEntriesBytes(es[1..], tail);
      assert (first + (others + tail))[8..] == others + tail;
    }
  }

  lemma DecodeFirstPdo(p: PdoRecord, tail: seq<byte>)
    requires PdoFits(p) && DecodePdos(tail).Some?
    ensures DecodePdos(PdoBytes(p) + tail) == Some([p] + DecodePdos(tail).value)
  {
    var n, header, body := |p.entries|, HeaderBytes(p.index, |p.entries|, p.sm, p.nameIdx),
        Flatten(EntryBlocks(p.entries));
    var data := PdoBytes(p) + tail;
    Associative(header, body, tail);
    assert data == header + (body + tail);
    HeaderFields(p.index, n, p.sm, p.nameIdx, body + tail);
    DecodeEntriesBytes(p.entries, tail);
    assert data[8..] == body + tail;
    assert data[8 + 8 * n..] == tail;
  }

  lemma HeaderFields(index: int, n: int, sm: int, nameIdx: int, rest: seq<byte>)
    requires HeaderFits(index, n, sm, nameIdx)
    ensures var data := HeaderBytes(index, n, sm, nameIdx) + rest;
            ReadU16(data, 0) == index && data[2] == n && data[3] == sm && data[5] == nameIdx
  {
    var data := HeaderBytes(index, n, sm, nameIdx) + rest;
    assert At(data, 0, U16(index));
    ReadWritten16(data, 0, index);
  }

  lemma PdosFront(ps: seq<PdoRecord>)
    requires ps != []
    ensures PdosBytes(ps) == PdoBytes(ps[0]) + PdosBytes(ps[1..])
  {
    hide PdoBytes;
    FlattenFront(PdoBlocks(ps));
    assert PdoBlocks(ps)[1..] == PdoBlocks(ps[1..]);
  }

  lemma NoPdos()
    ensures PdosBytes([]) == []
  {
    assert PdoBlocks([]) == [];
  }

  lemma PdoLength(p: PdoRecord)
    requires PdoFits(p)
    ensures |PdoBytes(p)| == 8 + 8 * |p.entries|
  {
    EntryBlocksLength(p.entries);
  }

  /** A PDO payload is uniquely decodable: the records come back, for any number of PDOs and entries. */
  lemma {:induction false} DecodePdosBytes(ps: seq<PdoRecord>)
    requires AllFit(ps)
    ensures DecodePdos(PdosBytes(ps)) == Some(ps)
    decreases |ps|
  {
    hide PdosBytes;
    hide PdoBytes;
    hide PdoFits;
    NoPdos();
    if ps != [] {
      PdosFront(ps);
      DecodePdosBytes(ps[1..]);
      DecodeFirstPdo(ps[0], PdosBytes(ps[1..]));
      assert ps == [ps[0]] + ps[1..];
    }
  }

  function EntryCount(ps: seq<PdoRecord>): nat {
    if ps == [] then 0 else |ps[0].entries| + EntryCount(ps[1..])
  }

  /** Eight bytes a PDO and eight an entry: a PDO payload never needs the padding byte. */
  lemma {:induction false} PdosBytesLength(ps: seq<PdoRecord>)
    requires AllFit(ps)
    ensures |PdosBytes(ps)| == 8 * (|ps| + EntryCount(ps))
    decreases |ps|
  {
    hide PdosBytes;
    hide PdoBytes;
    hide PdoFits;
    NoPdos();
    if ps != [] {
      PdosFront(ps);
      PdoLength(ps[0]);
      PdosBytesLength(ps[1..]);
    }
  }
}
