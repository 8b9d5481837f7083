/** Descriptions that an image can be built for, so that the results about images are about something. */
module SiiWitnesses {
  import opened Wrappers
  import opened SiiBytes
  import opened Flattening
  import opened SiiStrings
  import opened SiiPdos
  import opened EsiDevice
  import opened SiiImage
  import opened SiiRoundTrip

  lemma FlattenTwo<T>(a: seq<T>, b: seq<T>)
    ensures Flatten([a, b]) == a + b
  {
    var two := [a, b];
    assert two[..1] == [a] && [a][..0] == [];
    assert Flatten([a]) == Flatten<T>([]) + a;
  }

  lemma FlattenOne<T>(a: seq<T>)
    ensures Flatten([a]) == a
  {
    assert [a][..0] == [];
  }

  // ---------- A device with nothing in it ----------

  const EMPTY_DEVICE := Description(0, 0, 0,
      Device(None, None, None, None, false, "", [], [], PdoLists([], []), None, None), [])

  lemma EmptyParts(d: Description)
    requires d == EMPTY_DEVICE
    ensures Table(d) == Some([]) && RxRecords(d, []) == [] && TxRecords(d, []) == [] && PartsFit(d, [])
  {
    var texts := AllTexts(d);
    assert PdoSources(d) == [Source(PdoLists([], []), 0, 0)];
    FlattenOne<PdoRecord>([]);
    FlattenOne<string>([]);
    assert PdoTextBlocks([]) == [];
    assert SourceTextBlocks(PdoSources(d)) == [[]];
    assert SourceRecords(PdoSources(d), RxPdo, 2, []) == [[]] && SourceRecords(PdoSources(d), TxPdo, 3, []) == [[]];
    assert forall t | t in texts :: Known([], t);
    InternKnown([], texts);
  }

  lemma EmptyPayloads()
    ensures StringsPayload([]) == [0] && SyncmBytes([]) == [] && PdosBytes([]) == [] && FmmuBytes([]) == []
  {
    assert SyncManagerBlocks([]) == [] && PdoBlocks([]) == [] && TextBlocks([]) == [];
  }

  lemma TwoCategories(a: seq<byte>, b: seq<byte>)
    requires |a| == 1 && |b| == 32
    ensures var cs := [Category(CAT_STRINGS, a), Category(CAT_GENERAL, b)]; ChainFits(cs) && |Chain(cs)| == 42
  {
    var c1, c2 := Category(CAT_STRINGS, a), Category(CAT_GENERAL, b);
    assert CategoryFits(c1) && |CategoryBytes(c1)| == 6 && CategoryFits(c2) && |CategoryBytes(c2)| == 36;
    hide CategoryBytes;
    hide CategoryFits;
    hide Padded;
    hide Chain;
    OneCategory(c1);
    OneCategory(c2);
    ChainAppend([c1], [c2]);
    assert [c1] + [c2] == [c1, c2];
  }

  lemma EmptySizes(d: Description)
    requires d == EMPTY_DEVICE && PartsFit(d, []) && RxRecords(d, []) == [] && TxRecords(d, []) == []
    ensures ChainFits(Categories(d, [])) && |Tail(d, [])| == 44
  {
    hide PartsFit;
    hide Chain;
    hide StringsPayload;
    hide SyncmBytes;
    hide PdosBytes;
    hide FmmuBytes;
    hide RxRecords;
    hide TxRecords;
    hide GeneralBytes;
    hide CategoryFits;
    EmptyPayloads();
    TwoCategories([0], GeneralBytes(d.device, []));
    assert PayloadsOf(d, []) == Payloads([0], GeneralBytes(d.device, []), [], [], [], []);
    assert Categories(d, []) == [Category(CAT_STRINGS, [0]), Category(CAT_GENERAL, GeneralBytes(d.device, []))];
  }

  /** Even a description without a single text, sync manager or PDO has an image. */
  lemma EmptyDeviceBuildable()
    ensures Buildable(EMPTY_DEVICE)
  {
    EmptyParts(EMPTY_DEVICE);
    EmptySizes(EMPTY_DEVICE);
  }

  // ---------- A device with one of each ----------

  const SMALL_RX := Pdo(0x1600, false, None, Some("P"), [Entry(0x7000, true, 1, 8, None)])

  const SMALL_TX := Pdo(0x1A00, true, Some(3), None, [])

  const SMALL_SM := SyncManager("Outputs", 0x1000, 8, 0x64, 1)

  /** A receive PDO with a name and an entry, an empty slot and one whose default module has a transmit PDO that
      depends on the slot, and a sync manager. */
  const SMALL_DEVICE := Description(
    0, 0, 0,
    Device(None, None, None, None, false, "", [], [SMALL_SM], PdoLists([SMALL_RX], []),
        Some(Slots(0x10, 1, [None, Some(5)])), None),
    [Module(Some(5), PdoLists([], [SMALL_TX]))])

  lemma SmallSources(d: Description)
    requires d == SMALL_DEVICE
    ensures PdoSources(d) == [Source(PdoLists([SMALL_RX], []), 0, 0), Source(PdoLists([], [SMALL_TX]), 0x10, 1)]
  {
    var slots := d.device.slots.value;
    assert ModuleById(d.modules, 5) == Some(d.modules[0]);
    assert SlotSource(d.modules, slots, 0) == None;
    assert SlotSource(d.modules, slots, 1) == Some(Source(d.modules[0].lists, 0x10, 1));
    assert SlotSources(d.modules, slots, 0) == [] && SlotSources(d.modules, slots, 1) == [];
    assert SlotSources(d.modules, slots, 2) == [Source(d.modules[0].lists, 0x10, 1)];
  }

  lemma SmallTexts()
    ensures ListTexts([SMALL_RX]) == ["P", ""] && ListTexts([SMALL_TX]) == [""]
  {
    assert Strip("P") == "P";
    assert PdoTexts(SMALL_RX) == ["P", ""] && PdoTexts(SMALL_TX) == [""];
    assert PdoTextBlocks([SMALL_RX]) == [PdoTexts(SMALL_RX)] && PdoTextBlocks([SMALL_TX]) == [PdoTexts(SMALL_TX)];
    FlattenOne(PdoTexts(SMALL_RX));
    FlattenOne(PdoTexts(SMALL_TX));
  }

  lemma InternFirst(text: string)
    requires 0 < |text| <= 255
    ensures InternAll([], [text]) == Some([text])
  {
    var none: seq<string> := [];
    assert [text][..0] == none;
    assert InternAll(none, none) == Some(none);
    assert none + [text] == [text];
  }

  /** Empty texts around one other leave a table of that one. */
  lemma InternOnly(a: seq<string>, text: string, b: seq<string>)
    requires 0 < |text| <= 255 && (forall t | t in a :: t == "") && (forall t | t in b :: t == "")
    ensures InternAll([], a + ([text] + b)) == Some([text])
  {
    InternKnown([], a);
    InternFirst(text);
    InternKnown([text], b);
    hide InternAll;
    InternAllAppend([], a, [text] + b);
    InternAllAppend([], [text], b);
  }

  lemma SmallSourceTexts(d: Description)
    requires d == SMALL_DEVICE
    ensures SourceTexts(PdoSources(d)) == ["P", ""] + [""]
  {
    SmallSources(d);
    SmallTexts();
    hide ListTexts;
    hide PdoSources;
    var sources := PdoSources(d);
    assert [SMALL_RX] + [] == [SMALL_RX] && [] + [SMALL_TX] == [SMALL_TX];
    assert SourceTextBlocks(sources) == [["P", ""], [""]];
    FlattenTwo(["P", ""], [""]);
  }

  lemma SmallTable(d: Description)
    requires d == SMALL_DEVICE
    ensures Table(d) == Some(["P"])
  {
    hide SourceTexts;
    hide PdoSources;
    hide InternAll;
    SmallSourceTexts(d);
    assert GeneralTexts(d.device) == ["", "", ""];
    assert AllTexts(d) == ["", "", ""] + (["P"] + ["", ""]);
    InternOnly(["", "", ""], "P", ["", ""]);
  }

  lemma SmallRecords(d: Description)
    requires d == SMALL_DEVICE
    ensures RxRecords(d, ["P"]) == [PdoRecord(0x1600, 2, 1, [EntryRecord(0x7000, 1, 0, 8)])]
    ensures TxRecords(d, ["P"]) == [PdoRecord(0x1A01, 3, 0, [])]
  {
    SmallSources(d);
    var items := ["P"];
    var sources := PdoSources(d);
    assert Strip("P") == "P";
    assert IndexOf(items, "P") == 1 && IndexOf(items, "") == 0;
    var rx, tx := PdoRecord(0x1600, 2, 1, [EntryRecord(0x7000, 1, 0, 8)]), PdoRecord(0x1A01, 3, 0, []);
    assert EntriesOf(SMALL_RX.entries, 0, items) == rx.entries && EntriesOf(SMALL_TX.entries, 0, items) == tx.entries;
    assert PdoOf(SMALL_RX, sources[0], 2, items) == rx && PdoOf(SMALL_TX, sources[1], 3, items) == tx;
    assert PdosOf([SMALL_RX], sources[0], 2, items) == [rx] && PdosOf([], sources[1], 2, items) == [];
    assert PdosOf([SMALL_TX], sources[1], 3, items) == [tx] && PdosOf([], sources[0], 3, items) == [];
    assert SourceRecords(sources, RxPdo, 2, items) == [[rx], []]
        && SourceRecords(sources, TxPdo, 3, items) == [[], [tx]];
    FlattenTwo([rx], []);
    FlattenTwo([], [tx]);
  }

  lemma SmallParts(d: Description)
    requires d == SMALL_DEVICE
    ensures PartsFit(d, ["P"])
  {
    SmallRecords(d);
    hide RxRecords;
    hide TxRecords;
    SmallTableFits(d.device, ["P"]);
    hide GeneralFits;
  }

  lemma SmallPayloads(d: Description)
    requires d == SMALL_DEVICE && PartsFit(d, ["P"])
    ensures var p := PayloadsOf(d, ["P"]);
            |p.strings| == 3 && |p.general| == 32 && p.fmmu == [] && |p.syncm| == 8 && |p.rx| == 16 && |p.tx| == 8
  {
    SmallRecords(d);
    hide RxRecords;
    hide TxRecords;
    hide GeneralBytes;
    SmallStrings();
    hide StringsPayload;
    OneSyncm(d.device.sms);
    hide SyncmBytes;
    PdosBytesLength(RxRecords(d, ["P"]));
    PdosBytesLength(TxRecords(d, ["P"]));
    hide PdosBytes;
  }

  lemma SmallStrings()
    ensures |StringsPayload(["P"])| == 3
  {
    assert TextBlocks(["P"]) == [TextBlock("P")];
    FlattenOne(TextBlock("P"));
  }

  lemma OneSyncm(sms: seq<SyncManager>)
    requires SyncManagersFit(sms)
    ensures |SyncmBytes(sms)| == 8 * |sms|
  {
    FlattenLength(SyncManagerBlocks(sms), 8);
  }

  lemma PresentOne(kind: nat, payload: seq<byte>, n: nat)
    requires kind < 0x1_0000 && payload != [] && |payload| % 2 == 0 && |payload| <= n <= 0x100
    ensures ChainFits(Present(kind, payload)) && |Chain(Present(kind, payload))| == 4 + |payload|
  {
    OneCategory(Category(kind, payload));
  }

  lemma SmallChain(p: Payloads)
    requires |p.strings| == 3 && |p.general| == 32 && p.fmmu == [] && |p.syncm| == 8 && |p.rx| == 16 && |p.tx| == 8
    ensures ChainFits(CategoryList(p)) && |Chain(CategoryList(p))| == 88
  {
    var s, g := Category(CAT_STRINGS, p.strings), Category(CAT_GENERAL, p.general);
    OneCategory(s);
    OneCategory(g);
    assert CategoryFits(s) && |CategoryBytes(s)| == 8 && CategoryFits(g) && |CategoryBytes(g)| == 36;
    PresentOne(CAT_SYNCM, p.syncm, 16);
    PresentOne(CAT_RXPDO, p.rx, 16);
    PresentOne(CAT_TXPDO, p.tx, 16);
    var a, b, c, e := [s] + [g], Present(CAT_SYNCM, p.syncm), Present(CAT_RXPDO, p.rx), Present(CAT_TXPDO, p.tx);
    assert CategoryList(p) == a + b + c + e;
    hide Chain;
    hide ChainFits;
    hide Present;
    hide CategoryList;
    hide CategoryBytes;
    ChainAppend([s], [g]);
    ChainAppend(a, b);
    ChainAppend(a + b, c);
    ChainAppend(a + b + c, e);
  }

  /** An image can be built for it, so that the results above are about PDOs, slots and sync managers too: the reader
      gets a named PDO with its entry, and the module's PDO. */
  lemma SmallDeviceBuildable()
    ensures Buildable(SMALL_DEVICE)
    ensures |DescribedPdos(PdoSources(SMALL_DEVICE), RxPdo, 2)| == 1
    ensures |DescribedPdos(PdoSources(SMALL_DEVICE), TxPdo, 3)| == 1
  {
    var d := SMALL_DEVICE;
    SmallTable(d);
    SmallParts(d);
    SmallPayloads(d);
    SmallChain(PayloadsOf(d, ["P"]));
    assert |Tail(d, ["P"])| == 90 by { hide Chain; hide PayloadsOf; }
    SmallDescribed(d);
    hide PartsFit;
    hide Chain;
    hide PayloadsOf;
    hide ChainFits;
    hide DescribedPdos;
  }

  lemma SmallDescribed(d: Description)
    requires d == SMALL_DEVICE
    ensures |DescribedPdos(PdoSources(d), RxPdo, 2)| == |DescribedPdos(PdoSources(d), TxPdo, 3)| == 1
  {
    SmallSources(d);
    var sources := PdoSources(d);
    var rx, tx := DescribedList([SMALL_RX], sources[0], 2), DescribedList([SMALL_TX], sources[1], 3);
    FlattenTwo(rx, []);
    FlattenTwo([], tx);
    assert DescribedList([], sources[1], 2) == [] && DescribedList([], sources[0], 3) == [];
    var rxs := seq(|sources|,
        i requires 0 <= i < |sources| => DescribedList(Tagged(sources[i].lists, RxPdo), sources[i], 2));
    var txs := seq(|sources|,
        i requires 0 <= i < |sources| => DescribedList(Tagged(sources[i].lists, TxPdo), sources[i], 3));
    assert rxs == [rx, []] && txs == [[], tx];
    assert DescribedPdos(sources, RxPdo, 2) == Flatten(rxs) && DescribedPdos(sources, TxPdo, 3) == Flatten(txs);
  }
}
