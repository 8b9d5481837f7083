/** An ESI description after XML parsing: the elements and attributes the image generator reads. */
module EsiDevice {
  import opened Wrappers
  import opened SiiBytes

  datatype Entry = Entry(index: int, dependOnSlot: bool, subIndex: int, bitLen: int, name: Option<string>)

  /** sm is None where the Sm attribute is missing. */
  datatype Pdo = Pdo(index: int, dependOnSlot: bool, sm: Option<int>, name: Option<string>, entries: seq<Entry>)

  /** The PDOs of a device or of a module. */
  datatype PdoLists = PdoLists(rx: seq<Pdo>, tx: seq<Pdo>)

  /** A source of PDOs with the offsets its slot adds. */
  datatype Source = Source(lists: PdoLists, indexOffset: int, pdoOffset: int)

  datatype SyncManager = SyncManager(name: string, startAddress: int, size: int, controlByte: int, enable: int)

  datatype Coe = Coe(sdoInfo: bool, pdoAssign: bool, pdoConfig: bool, completeAccess: bool)

  datatype Mailbox = Mailbox(coe: Option<Coe>, foe: bool, eoe: bool, soe: bool, voe: bool, dataLinkLayer: bool)

  datatype Eeprom = Eeprom(byteSize: Option<int>, configData: seq<byte>, bootStrap: seq<byte>)

  /** A slot names its module only through a ModuleIdent element marked Default="1". */
  datatype Slots = Slots(indexIncrement: int, pdoIncrement: int, defaults: seq<Option<int>>)

  datatype Module = Module(ident: Option<int>, lists: PdoLists)

  datatype Device = Device(
    groupType: Option<string>, typeText: Option<string>, name: Option<string>,
    mailbox: Option<Mailbox>, identificationReg134: bool, physics: string,
    fmmus: seq<string>, sms: seq<SyncManager>, lists: PdoLists,
    slots: Option<Slots>, eeprom: Option<Eeprom>)

  datatype Description = Description(vendorId: int, productCode: int, revisionNo: int, device: Device,
      modules: seq<Module>)

  /** The module with the given identifier; of several, the last one declared. */
  function ModuleById(modules: seq<Module>, ident: int): Option<Module> {
    if modules == [] then None
    else if modules[|modules| - 1].ident == Some(ident) then Some(modules[|modules| - 1])
    else ModuleById(modules[..|modules| - 1], ident)
  }

  function SlotSource(modules: seq<Module>, slots: Slots, slot: nat): Option<Source>
    requires slot < |slots.defaults|
  {
    match slots.defaults[slot]
    case None => None
    case Some(ident) =>
      match ModuleById(modules, ident)
      case None => None
      case Some(m) => Some(Source(m.lists, slot * slots.indexIncrement, slot * slots.pdoIncrement))
  }

  function SlotSources(modules: seq<Module>, slots: Slots, n: nat): seq<Source>
    requires n <= |slots.defaults|
  {
    if n == 0 then []
    else
      SlotSources(modules, slots, n - 1) +
      match SlotSource(modules, slots, n - 1)
      case None => []
      case Some(s) => [s]
  }

  /** The device itself, then the default module of each slot in slot order. */
  function PdoSources(d: Description): (r: seq<Source>)
    ensures |r| >= 1 && r[0] == Source(d.device.lists, 0, 0)
  {
    [Source(d.device.lists, 0, 0)] +
    match d.device.slots
    case None => []
    case Some(slots) => SlotSources(d.modules, slots, |slots.defaults|)
  }

  method FindDefaultModules(d: Description) returns (sources: seq<Source>)
    ensures [Source(d.device.lists, 0, 0)] + sources == PdoSources(d)
    ensures exists numbers, found :: Chosen(d, numbers, found) && ChosenSources(d, numbers, found, sources)
  {
    ghost var numbers, found := SourcesBySlot(d);
    assert ChosenSources(d, numbers, found, PdoSources(d)[1..]);
    sources := [];
    if d.device.slots.None? { return; }
    var slots := d.device.slots.value;
    for slot := 0 to |slots.defaults|
      invariant sources == SlotSources(d.modules, slots, slot)
    {
      var m := match slots.defaults[slot] case None => None case Some(ident) => ModuleById(d.modules, ident);
      if m.Some? {
        sources := sources + [Source(m.value.lists, slot * slots.indexIncrement, slot * slots.pdoIncrement)];
      }
    }
  }

  // ---------- What the sources are ----------

  /** Module m is the last one declared with this identifier. */
  ghost predicate LastDeclared(modules: seq<Module>, ident: int, m: nat) {
    && m < |modules| && modules[m].ident == Some(ident)
    && forall j | m < j < |modules| :: modules[j].ident != Some(ident)
  }

  lemma {:induction false} ModuleByIdIsLast(modules: seq<Module>, ident: int)
    ensures ModuleById(modules, ident).None? ==> forall m | 0 <= m < |modules| :: modules[m].ident != Some(ident)
    ensures ModuleById(modules, ident).Some? ==>
              exists m: nat :: LastDeclared(modules, ident, m) && modules[m] == ModuleById(modules, ident).value
    decreases |modules|
  {
    if modules != [] {
      var front, last := modules[..|modules| - 1], |modules| - 1;
      if modules[last].ident == Some(ident) {
        assert LastDeclared(modules, ident, last);
      } else {
        ModuleByIdIsLast(front, ident);
        if ModuleById(front, ident).Some? {
          var m: nat :| LastDeclared(front, ident, m) && front[m] == ModuleById(front, ident).value;
          forall j | m < j < |modules| ensures modules[j].ident != Some(ident) {
            if j < last { assert front[j] == modules[j]; }
          }
          assert LastDeclared(modules, ident, m);
        } else {
          forall m | 0 <= m < |modules| ensures modules[m].ident != Some(ident) {
            if m < last { assert front[m] == modules[m]; }
          }
        }
      }
    }
  }

  /** The default of a slot names module m. */
  ghost predicate SlotNames(modules: seq<Module>, default: Option<int>, m: nat) {
    default.Some? && LastDeclared(modules, default.value, m)
  }

  /** Among the first n slots, in slot order, exactly those whose default names a module, and the modules they name. */
  ghost predicate ChosenSlots(modules: seq<Module>, slots: Slots, n: nat, numbers: seq<nat>, found: seq<nat>)
    requires n <= |slots.defaults|
  {
    && |numbers| == |found|
    && (forall i | 0 <= i < |numbers| ::
          numbers[i] < n && SlotNames(modules, slots.defaults[numbers[i]], found[i]))
    && (forall i, j | 0 <= i < j < |numbers| :: numbers[i] < numbers[j])
    && (forall k, m: nat | 0 <= k < n && SlotNames(modules, slots.defaults[k], m) :: k in numbers)
  }

  /** The sources are the modules found, with the offsets of their slots. */
  ghost predicate SlotOffsets(
    modules: seq<Module>, slots: Slots, numbers: seq<nat>, found: seq<nat>, sources: seq<Source>)
  {
    && |sources| == |numbers| == |found|
    && forall i | 0 <= i < |sources| ::
         && found[i] < |modules|
         && sources[i] ==
            Source(modules[found[i]].lists, numbers[i] * slots.indexIncrement, numbers[i] * slots.pdoIncrement)
  }

  lemma SlotSourceMeaning(modules: seq<Module>, slots: Slots, k: nat)
    requires k < |slots.defaults|
    ensures SlotSource(modules, slots, k).None? ==> forall m: nat :: !SlotNames(modules, slots.defaults[k], m)
    ensures SlotSource(modules, slots, k).Some? ==>
              exists m: nat ::
                && SlotNames(modules, slots.defaults[k], m)
                && SlotSource(modules, slots, k) ==
                   Some(Source(modules[m].lists, k * slots.indexIncrement, k * slots.pdoIncrement))
  {
    if slots.defaults[k].Some? {
      ModuleByIdIsLast(modules, slots.defaults[k].value);
      if SlotSource(modules, slots, k).Some? {
        var m: nat :| LastDeclared(modules, slots.defaults[k].value, m)
                 && modules[m] == ModuleById(modules, slots.defaults[k].value).value;
        assert SlotNames(modules, slots.defaults[k], m);
      }
    }
  }

  lemma {:induction false} ChooseSlots(modules: seq<Module>, slots: Slots, n: nat)
    returns (numbers: seq<nat>, found: seq<nat>)
    requires n <= |slots.defaults|
    ensures ChosenSlots(modules, slots, n, numbers, found)
    ensures SlotOffsets(modules, slots, numbers, found, SlotSources(modules, slots, n))
    decreases n
  {
    if n == 0 {
      return [], [];
    }
    numbers, found := ChooseSlots(modules, slots, n - 1);
    SlotSourceMeaning(modules, slots, n - 1);
    hide SlotSource;
    if SlotSource(modules, slots, n - 1).Some? {
      var m: nat :| SlotNames(modules, slots.defaults[n - 1], m)
               && SlotSource(modules, slots, n - 1) ==
                  Some(Source(modules[m].lists, (n - 1) * slots.indexIncrement, (n - 1) * slots.pdoIncrement));
      ChooseOneMore(modules, slots, n, numbers, found, m);
      AppendOffsets(modules, slots, numbers, found, SlotSources(modules, slots, n - 1), n - 1, m);
      numbers, found := numbers + [n - 1], found + [m];
    }
  }

  lemma ChooseOneMore(modules: seq<Module>, slots: Slots, n: nat, numbers: seq<nat>, found: seq<nat>, m: nat)
    requires 0 < n <= |slots.defaults| && ChosenSlots(modules, slots, n - 1, numbers, found)
    requires SlotNames(modules, slots.defaults[n - 1], m)
    ensures ChosenSlots(modules, slots, n, numbers + [n - 1], found + [m])
  {
    hide SlotNames;
  }

  lemma AppendOffsets(
    modules: seq<Module>, slots: Slots, numbers: seq<nat>, found: seq<nat>, sources: seq<Source>, k: nat, m: nat)
    requires SlotOffsets(modules, slots, numbers, found, sources) && m < |modules|
    ensures SlotOffsets(modules, slots, numbers + [k], found + [m],
                        sources + [Source(modules[m].lists, k * slots.indexIncrement, k * slots.pdoIncrement)])
  {
  }

  /** The modules chosen by the slots of a description; none without slots. */
  ghost predicate Chosen(d: Description, numbers: seq<nat>, found: seq<nat>) {
    match d.device.slots
    case None => numbers == [] && found == []
    case Some(slots) => ChosenSlots(d.modules, slots, |slots.defaults|, numbers, found)
  }

  function IndexIncrement(d: Description): int {
    match d.device.slots case None => 0 case Some(slots) => slots.indexIncrement
  }

  function PdoIncrement(d: Description): int {
    match d.device.slots case None => 0 case Some(slots) => slots.pdoIncrement
  }

  /** The modules chosen by these slots, each with the increments times the number of its slot. */
  ghost predicate ChosenSources(d: Description, numbers: seq<nat>, found: seq<nat>, sources: seq<Source>) {
    && |sources| == |numbers| == |found|
    && forall i | 0 <= i < |numbers| ::
         && found[i] < |d.modules|
         && sources[i] ==
            Source(d.modules[found[i]].lists, numbers[i] * IndexIncrement(d), numbers[i] * PdoIncrement(d))
  }

  /** The device without offsets, and then, slot after slot, the module of each slot whose default names one - the last
      declared with that identifier - with the increments times the slot number; nothing else. */
  lemma SourcesBySlot(d: Description) returns (numbers: seq<nat>, found: seq<nat>)
    ensures Chosen(d, numbers, found)
    ensures |PdoSources(d)| == 1 + |numbers| && |found| == |numbers|
    ensures PdoSources(d)[0] == Source(d.device.lists, 0, 0)
    ensures forall i | 0 <= i < |numbers| ::
              && found[i] < |d.modules|
              && PdoSources(d)[i + 1] ==
                 Source(d.modules[found[i]].lists, numbers[i] * IndexIncrement(d), numbers[i] * PdoIncrement(d))
  {
    if d.device.slots.None? {
      return [], [];
    }
    var slots := d.device.slots.value;
    numbers, found := ChooseSlots(d.modules, slots, |slots.defaults|);
    hide SlotSources;
    hide ChosenSlots;
    assert PdoSources(d)[1..] == SlotSources(d.modules, slots, |slots.defaults|);
  }
}
