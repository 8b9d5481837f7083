/** The nodes that ConfigureAll makes: which device gets which profile, what a default servo sends, and that it reads
    back what it was told. */
module DefaultNodes {
  import opened Wrappers
  import opened SiiBytes
  import opened EcTypes
  import opened BusModel
  import opened ServoCodec
  import opened SlaveNodes
  import opened ControllerModel
  import opened ControllerRuns

  // ---------- Types ----------

  /** The one slave registered by its identifiers. */
  predicate Registered(id: Identity) { id.vendorId == 0x766 && id.productId == 0x2000 }

  /** A letter, in either case. */
  predicate SameLetter(c: char, letter: char) {
    c == letter || (c as int + 32 == letter as int && 'a' <= letter <= 'z')
  }

  /** The word stands somewhere in the name, in any mixture of cases. */
  predicate Says(name: string, word: string) {
    exists i | 0 <= i <= |name| - |word| :: SaysAt(name, word, i)
  }

  predicate SaysAt(name: string, word: string, i: nat)
    requires i + |word| <= |name|
  {
    forall j | 0 <= j < |word| :: SameLetter(name[i + j], word[j])
  }

  predicate Letters(word: string) { forall j | 0 <= j < |word| :: 'a' <= word[j] <= 'z' }

  lemma LoweredAt(name: string, word: string, i: nat)
    requires i + |word| <= |name| && Letters(word)
    ensures word <= ToLower(name)[i..] <==> SaysAt(name, word, i)
  {
    var low := ToLower(name);
    if word <= low[i..] {
      forall j | 0 <= j < |word| ensures SameLetter(name[i + j], word[j]) { assert low[i..][j] == word[j]; }
    }
    if SaysAt(name, word, i) {
      forall j | 0 <= j < |word| ensures low[i..][j] == word[j] { assert SameLetter(name[i + j], word[j]); }
    }
  }

  lemma SaysIff(name: string, word: string)
    requires Letters(word)
    ensures Contains(ToLower(name), word) <==> Says(name, word)
  {
    hide SaysAt;
    hide ToLower;
    assert |ToLower(name)| == |name| by { LowerLength(name); }
    if Contains(ToLower(name), word) {
      var i :| 0 <= i <= |ToLower(name)| && word <= ToLower(name)[i..];
      LoweredAt(name, word, i);
    }
    if Says(name, word) {
      var i: nat :| i <= |name| - |word| && SaysAt(name, word, i);
      LoweredAt(name, word, i);
    }
  }

  lemma LowerLength(name: string)
    ensures |ToLower(name)| == |name|
  {
  }

  predicate NamedServo(name: string) { Says(name, "servo") || Says(name, "motor") || Says(name, "drive") }

  predicate NamedDigital(name: string) { Says(name, "digital") || Says(name, "dio") }

  predicate NamedAnalog(name: string) { Says(name, "analog") || Says(name, "aio") }

  /** A slave is taken for what its identifiers or else the first matching words of its name say. */
  lemma DetectedIff(info: SlaveInfo)
    ensures var name := info.identity.name;
            && (Detect(info).Servo? <==> Registered(info.identity) || NamedServo(name))
            && (Detect(info).DigitalIo? <==> !Registered(info.identity) && !NamedServo(name) && NamedDigital(name))
            && (Detect(info).AnalogIo? <==>
                  !Registered(info.identity) && !NamedServo(name) && !NamedDigital(name) && NamedAnalog(name))
  {
    hide ToLower;
    hide Contains;
    hide Says;
    var name := info.identity.name;
    SaysIff(name, "servo");
    SaysIff(name, "motor");
    SaysIff(name, "drive");
    SaysIff(name, "digital");
    SaysIff(name, "dio");
    SaysIff(name, "analog");
    SaysIff(name, "aio");
  }

  // ---------- Default configurations ----------

  /** The layout of a servo by default: position, velocity and torque, commands and feedback alike. */
  predicate ServoLayout(m: PdoMapping) {
    && m.outputs == [PdoEntry("target_position", 0, 4), PdoEntry("target_velocity", 4, 4),
                     PdoEntry("target_torque", 8, 2)]
    && m.inputs == [PdoEntry("position_actual_value", 0, 4), PdoEntry("velocity_actual_value", 4, 4),
                    PdoEntry("torque_actual_value", 8, 2)]
  }

  /** A servo as ConfigureAll makes it. */
  predicate DefaultServo(n: Node) {
    && n.config.Some? && n.config.value.kind.Servo?
    && ServoLayout(n.config.value.mapping) && LoopBackMapping(n.config.value.mapping)
    && n.config.value.axis == AxisConfig(0.001, 0.001, 0.001, 1)
    && |n.output| == 10 && |n.input| == 10
  }

  /** A node with the sizes of its type: 10 bytes each way for a servo, 1 for digital, 4 for analog, none otherwise. */
  predicate DefaultSizes(n: Node) {
    var size := if Registered(n.info.identity) || NamedServo(n.info.identity.name) then 10
                else if NamedDigital(n.info.identity.name) then 1
                else if NamedAnalog(n.info.identity.name) then 4
                else 0;
    |n.output| == size && |n.input| == size
  }

  lemma AutoServo(n: Node)
    requires n.config.None? && Detect(n.info).Servo?
    ensures DefaultServo(AutoConfigured(n))
  {
    ServoMappingLoopsBack();
    hide Detect;
    hide LoopBackMapping;
    hide Extent;
  }

  lemma AutoSizes(n: Node)
    requires n.config.None?
    ensures DefaultSizes(AutoConfigured(n))
    ensures (Registered(n.info.identity) || NamedServo(n.info.identity.name)) ==> DefaultServo(AutoConfigured(n))
  {
    DetectedIff(n.info);
    hide Says;
    if Detect(n.info).Servo? {
      AutoServo(n);
      hide Detect;
      hide DefaultServo;
    }
    NoEntries();
    hide Detect;
  }

  /** What ConfigureAll makes of a slave: a node with the buffers of its type, and a default servo where its identifiers
      or its name say so. */
  predicate ByDefault(info: SlaveInfo, n: Node) {
    && n.info == info && n.config.Some? && DefaultSizes(n)
    && (Registered(info.identity) || NamedServo(info.identity.name) ==> DefaultServo(n))
  }

  lemma AutoByDefault(n: Node)
    requires n.config.None?
    ensures ByDefault(n.info, AutoConfigured(n))
  {
    AutoSizes(n);
    hide DefaultSizes;
    hide DefaultServo;
    hide Says;
  }

  lemma NoEntries()
    ensures Extent([]) == 0
  {
  }

  // ---------- Over runs ----------

  /** Once configured, with the sizes and the profile of its type. */
  ghost predicate Unremapped(n: Node) {
    n.config.Some? ==>
      && DefaultSizes(n)
      && (Registered(n.info.identity) || NamedServo(n.info.identity.name) ==> DefaultServo(n))
  }

  ghost predicate AllUnremapped(nodes: seq<Node>) { forall i | 0 <= i < |nodes| :: Unremapped(nodes[i]) }

  /** The nodes have the identities the bus told. */
  ghost predicate Identified(nodes: seq<Node>, identities: map<int, Identity>) {
    forall i | 0 <= i < |nodes| && i + 1 in identities :: nodes[i].info.identity == identities[i + 1]
  }

  ghost predicate DefaultsFit(c: Ctl) {
    AllUnremapped(c.nodes) && (Working(c.state) ==> Identified(c.nodes, c.bus.identities))
  }

  lemma SameShape(n: Node, r: Node)
    requires Unremapped(n) && r.info == n.info && r.config == n.config
    requires |r.output| == |n.output| && |r.input| == |n.input|
    ensures Unremapped(r)
  {
    hide Says;
    hide LoopBackMapping;
    hide ServoLayout;
  }

  lemma ConfiguredUnremapped(nodes: seq<Node>)
    requires AllUnremapped(nodes)
    ensures AllUnremapped(AllConfigured(nodes))
    ensures forall i | 0 <= i < |nodes| :: AllConfigured(nodes)[i].info == nodes[i].info
  {
    forall i | 0 <= i < |nodes|
      ensures Unremapped(AllConfigured(nodes)[i]) && AllConfigured(nodes)[i].info == nodes[i].info
    {
      if nodes[i].config.None? { AutoSizes(nodes[i]); }
    }
  }

  lemma NewUnremapped(bus: Bus, n: nat)
    requires n == bus.count
    ensures AllUnremapped(NewNodes(InfosOf(bus, n))) && Identified(NewNodes(InfosOf(bus, n)), bus.identities)
  {
  }

  lemma CycleUnremapped(nodes: seq<Node>, bus: Bus)
    requires AllCovered(nodes) && AllUnremapped(nodes)
    ensures AllCovered(AllEncoded(nodes)) && AllUnremapped(AllUpdated(AllEncoded(nodes), bus))
    ensures forall i | 0 <= i < |nodes| :: AllUpdated(AllEncoded(nodes), bus)[i].info == nodes[i].info
  {
    hide Unremapped;
    hide DecodeInputs;
    hide EncodeOutputs;
    EncodedCovered(nodes);
    forall i | 0 <= i < |nodes|
      ensures Unremapped(AllUpdated(AllEncoded(nodes), bus)[i])
      ensures AllUpdated(AllEncoded(nodes), bus)[i].info == nodes[i].info
    {
      SameShape(nodes[i], AllUpdated(AllEncoded(nodes), bus)[i]);
    }
  }

  lemma ScanDefaults(c: Ctl)
    requires DefaultsFit(c) && c.state.AdapterReady?
    ensures DefaultsFit(DoScan(c).ctl)
  {
    hide Unremapped;
    hide AsExpected;
    hide ShutdownRequests;
    hide InfosOf;
  }

  lemma EnterDefaults(c: Ctl)
    requires DefaultsFit(c) && c.state.Scanned?
    ensures DefaultsFit(DoEnterMaintenance(c).ctl)
  {
    hide Unremapped;
    hide Retry;
    hide AllReach;
    hide ShutdownRequests;
    hide InfosOf;
    hide NewNodes;
    var o := AllReach(RequestStateWithRetry(c.bus, 0, EC_STATE_PRE_OP), EC_STATE_PRE_OP);
    NewUnremapped(o.bus, o.bus.count);
  }

  lemma PrepareDefaults(c: Ctl)
    requires DefaultsFit(c) && c.state.Maintenance?
    ensures DefaultsFit(DoPrepareRun(c).ctl)
  {
    hide Unremapped;
    hide ReachSafeOp;
    hide AllConfigured;
    hide Snapshot;
    ReachSafeOpKeepsSlaves(c.bus);
    ConfiguredUnremapped(c.nodes);
  }

  lemma DispatchDefaults(c: Ctl, action: Action)
    requires DefaultsFit(c)
    ensures DefaultsFit(Dispatch(c, action).ctl)
  {
    hide Unremapped;
    hide ShutdownRequests;
    hide ReachPreOp;
    hide DoScan;
    hide DoEnterMaintenance;
    hide DoPrepareRun;
    hide AllReach;
    hide Snapshot;
    match action
    case ActScanSlaves => if c.state.AdapterReady? { ScanDefaults(c); }
    case ActEnterMaintenance => if c.state.Scanned? { EnterDefaults(c); }
    case ActPrepareRun => if c.state.Maintenance? { PrepareDefaults(c); }
    case ActBackToMaintenance => ReachPreOpKeepsSlaves(c);
    case ActStartOperation => RequestKeepsSlaves(c.bus, EC_STATE_OPERATIONAL);
    case _ =>
  }

  lemma InitializeDefaults(c: Ctl, config: Config)
    requires DefaultsFit(c)
    ensures DefaultsFit(DoInitializeAdapter(c, config).ctl) && DefaultsFit(DoInitialize(c, config).ctl)
  {
    hide Dispatch;
    hide Unremapped;
    var a := DoInitializeAdapter(c, config);
    if c.state.Uninitialized? { DispatchDefaults(c.(config := config), ActInitializeAdapter); }
    DispatchDefaults(a.ctl, ActScanSlaves);
    DispatchDefaults(AndThen(a, Dispatch(a.ctl, ActScanSlaves)).ctl, ActEnterMaintenance);
  }

  lemma DoDefaults(c: Ctl, call: Call)
    requires DefaultsFit(c) && NodesCovered(c) && Proper(call) && !call.SetPdoMapping?
    ensures DefaultsFit(Do(c, call).ctl)
  {
    hide Dispatch;
    hide Unremapped;
    hide Covered;
    hide AllInState;
    hide Snapshot;
    hide DoInitialize;
    hide DoInitializeAdapter;
    match call
    case Initialize(config) => InitializeDefaults(c, config);
    case InitializeAdapter(config) => InitializeDefaults(c, config);
    case Scan => DispatchDefaults(c, ActScanSlaves);
    case EnterMaintenance => DispatchDefaults(c, ActEnterMaintenance);
    case PrepareRun => DispatchDefaults(c, ActPrepareRun);
    case StartOperation => DispatchDefaults(c, ActStartOperation);
    case BackToMaintenance => DispatchDefaults(c, ActBackToMaintenance);
    case Stop => DispatchDefaults(c, ActStop);
    case RequestFault => DispatchDefaults(c, ActRequestFault);
    case RequestEmergencyStop => DispatchDefaults(c, ActRequestEmergencyStop);
    case RunOnce => if c.state.Operational? { CycleUnremapped(c.nodes, ExchangeData(c.bus).bus); }
    case CheckSlaveStates =>
    case SetTarget(i, target) => if i < |c.nodes| { SameShape(c.nodes[i], SlaveNodes.SetTarget(c.nodes[i], target)); }
    case _ =>
  }

  lemma {:induction false} RunDefaults(c: Ctl, calls: seq<Call>)
    requires DefaultsFit(c) && NodesCovered(c) && AllProper(calls)
    requires forall i | 0 <= i < |calls| :: !calls[i].SetPdoMapping?
    ensures DefaultsFit(Runs(c, calls).ctl)
    decreases |calls|
  {
    hide Do;
    hide DefaultsFit;
    if calls != [] {
      RunDefaults(c, calls[..|calls| - 1]);
      DoDefaults(Runs(c, calls[..|calls| - 1]).ctl, calls[|calls| - 1]);
    }
  }

  /** In every run that sets no mapping, when ready to run or operational: the node of each slave that the bus said
      has the registered identifiers, or a servo's name, is a default servo, and every node has the buffers of its
      type. */
  lemma DefaultServosReady(replies: seq<Reply>, snapshots: seq<map<int, nat>>, calls: seq<Call>, slave: int)
    requires AllProper(calls) && forall i | 0 <= i < |calls| :: !calls[i].SetPdoMapping?
    requires var c := Runs(New(replies, snapshots), calls).ctl;
             (c.state.ReadyToRun? || c.state.Operational?) && 1 <= slave <= c.bus.count && slave in c.bus.identities
    ensures var c := Runs(New(replies, snapshots), calls).ctl;
            && |c.nodes| == c.bus.count && c.nodes[slave - 1].info.slaveId == slave
            && DefaultSizes(c.nodes[slave - 1])
            && (Registered(c.bus.identities[slave]) || NamedServo(c.bus.identities[slave].name) ==>
                  DefaultServo(c.nodes[slave - 1]))
  {
    var c := New(replies, snapshots);
    RunDefaults(c, calls);
    NodesFitAlways(c, calls);
    hide Runs;
    hide Covered;
    hide DefaultServo;
    hide DefaultSizes;
    var i := slave - 1;
    assert Unremapped(Runs(c, calls).ctl.nodes[i]);
  }

  // ---------- What a default servo sends and reads ----------

  /** One cycle of a default servo sends ten bytes: position and velocity in four, torque in two. */
  lemma ServoOnWire(n: Node)
    requires DefaultServo(n) && Covered(n)
    ensures var axis, data := n.config.value.axis, Encoded(n).output;
            && OutputEvents(n) == [WriteOutput(n.info.slaveId, data)] && |data| == 10
            && data[0..4] == Int32Bytes(Raw(n.target.position, 0.001, 1))
            && data[4..8] == Int32Bytes(Raw(n.target.velocity, 0.001, 1))
            && data[8..10] == Int16Bytes(Raw(n.target.torque, 0.001, 1))
  {
    hide Raw;
    hide EncodeOutputs;
    var c := n.config.value;
    FindServoEntries(c.mapping);
    EncodedValues(c.axis, n.target, c.mapping, n.output);
    hide LoopBackMapping;
    hide FindEntry;
  }

  /** So what is sent is the target that was last set. */
  lemma TargetOnWire(n: Node, target: Motion)
    requires DefaultServo(n) && Covered(n)
    ensures var r := SlaveNodes.SetTarget(n, target);
            && DefaultServo(r) && Covered(r) && OutputEvents(r) == [WriteOutput(n.info.slaveId, Encoded(r).output)]
            && Encoded(r).output == Int32Bytes(Raw(target.position, 0.001, 1)) +
               Int32Bytes(Raw(target.velocity, 0.001, 1)) + Int16Bytes(Raw(target.torque, 0.001, 1))
  {
    hide Raw;
    hide Encoded;
    hide LoopBackMapping;
    hide ServoLayout;
    var r := SlaveNodes.SetTarget(n, target);
    TargetCovered(n, target);
    ServoOnWire(r);
    hide Covered;
    var data := Encoded(r).output;
    assert data == data[0..4] + data[4..8] + data[8..10];
  }

  lemma FindServoEntries(m: PdoMapping)
    requires ServoLayout(m)
    ensures FindEntry(m.outputs, "target_position") == Some(PdoEntry("target_position", 0, 4))
    ensures FindEntry(m.outputs, "target_velocity") == Some(PdoEntry("target_velocity", 4, 4))
    ensures FindEntry(m.outputs, "target_torque") == Some(PdoEntry("target_torque", 8, 2))
  {
    var o := m.outputs;
    assert o[1..][0] == o[1] && o[1..][1..] == o[2..] && o[2..][0] == o[2];
    assert FindEntry(o, "target_velocity") == FindEntry(o[1..], "target_velocity");
    assert FindEntry(o, "target_torque") == FindEntry(o[1..], "target_torque") == FindEntry(o[2..], "target_torque");
  }

  lemma Thousandths(target: real, limit: int)
    requires limit >= 0 && -(limit as real) <= target <= limit as real
    ensures -(1000 * limit) <= Raw(target, 0.001, 1) <= 1000 * limit
  {
    assert target / 0.001 * 1.0 == target * 1000.0;
    var x := target * 1000.0;
    if x >= 0.0 { assert x.Floor as real <= 1000.0 * limit as real; }
    else { assert (-x).Floor as real <= 1000.0 * limit as real; }
  }

  /** A default servo with its outputs handed back reads every target within a thousandth, for positions and
      velocities up to 2147483 and torques up to 32. */
  lemma DefaultServoLoopBack(n: Node, bus: Bus)
    requires DefaultServo(n) && Covered(n)
    requires -2147483.0 <= n.target.position <= 2147483.0 && -2147483.0 <= n.target.velocity <= 2147483.0
    requires -32.0 <= n.target.torque <= 32.0
    requires n.info.slaveId in bus.inputs && bus.inputs[n.info.slaveId] == Encoded(n).output
    ensures var back := Updated(Encoded(n), bus).actual;
            && -0.001 < back.position - n.target.position < 0.001
            && -0.001 < back.velocity - n.target.velocity < 0.001
            && -0.001 < back.torque - n.target.torque < 0.001
  {
    Thousandths(n.target.position, 2147483);
    Thousandths(n.target.velocity, 2147483);
    Thousandths(n.target.torque, 32);
    hide Raw;
    hide Updated;
    hide Encoded;
    hide LoopBackMapping;
    hide Covered;
    NodeLoopBack(n, bus);
  }
}
