/** Runs of the controller: which states each call can lead to, what stays quiet in a fault, and what
    the nodes look like in each state. */
module ControllerRuns {
  import opened EcTypes
  import opened BusModel
  import opened ServoCodec
  import opened SlaveNodes
  import opened ControllerModel

  // ---------- States ----------

  predicate Stopped(state: ControllerState) { state.Fault? || state.EmergencyStop? }

  /** The states a lifecycle call needs, and those it ends in on success and on failure. */
  function Needs(call: Call): set<ControllerState> {
    match call
    case Initialize(_) => {Uninitialized}
    case InitializeAdapter(_) => {Uninitialized}
    case Scan => {AdapterReady}
    case EnterMaintenance => {Scanned}
    case PrepareRun => {Maintenance}
    case StartOperation => {ReadyToRun}
    case BackToMaintenance => {ReadyToRun, Operational}
    case _ => {}
  }

  function OnSuccess(call: Call): ControllerState {
    match call
    case InitializeAdapter(_) => AdapterReady
    case Scan => Scanned
    case PrepareRun => ReadyToRun
    case StartOperation => Operational
    case _ => Maintenance
  }

  function OnFailure(call: Call): ControllerState {
    match call
    case PrepareRun => Fault
    case StartOperation => Fault
    case BackToMaintenance => Fault
    case _ => Uninitialized
  }

  /** A lifecycle call outside its states changes nothing and touches no bus; inside, its result
      determines the next state. */
  lemma Outcome(c: Ctl, call: Call)
    requires AllCovered(c.nodes) && Proper(call) && Needs(call) != {}
    ensures var s := Do(c, call);
            if c.state in Needs(call) then s.ctl.state == if s.ok then OnSuccess(call) else OnFailure(call)
            else s == Step(c, false, [])
  {
    hide AllReach;
    hide ReachSafeOp;
    hide ReachPreOp;
    hide ScanSlaves;
    hide AsExpected;
    hide InfosOf;
    hide AllConfigured;
    hide ShutdownRequests;
    hide Snapshot;
    hide NewNodes;
  }

  lemma RequestsAlwaysWin(c: Ctl, call: Call)
    requires AllCovered(c.nodes) && Proper(call)
    ensures call.RequestFault? ==> Do(c, call).ctl.state == Fault
    ensures call.RequestEmergencyStop? ==> Do(c, call).ctl.state == EmergencyStop
    ensures call.Stop? ==> Do(c, call).ctl.state == Uninitialized
    ensures call.RunOnce? ==> Do(c, call).ctl.state == c.state
    ensures call.CheckSlaveStates? ==> Do(c, call).ctl.state in {c.state, Fault}
  {
    hide Snapshot;
    hide ShutdownRequests;
    hide AllUpdated;
    hide CheckAll;
  }

  /** Exactly what leaves EmergencyStop: Stop, and a fault request. */
  lemma EmergencyStopLeftIff(c: Ctl, call: Call)
    requires AllCovered(c.nodes) && Proper(call) && c.state.EmergencyStop?
    ensures !Do(c, call).ctl.state.EmergencyStop? <==> call.Stop? || call.RequestFault?
  {
    hide Snapshot;
    hide ShutdownRequests;
  }

  // ---------- Runs ----------

  /** The results and the controller states after each call, and all events. */
  datatype Run = Run(ctl: Ctl, oks: seq<bool>, states: seq<ControllerState>, events: seq<Event>)

  ghost predicate AllProper(calls: seq<Call>) { forall i | 0 <= i < |calls| :: Proper(calls[i]) }

  ghost predicate NodesCovered(c: Ctl) { AllCovered(c.nodes) }

  lemma DoCovered(c: Ctl, call: Call)
    requires NodesCovered(c) && Proper(call)
    ensures NodesCovered(Do(c, call).ctl)
  {
    hide Retry;
    hide RequestState;
    hide CheckAll;
    hide AsExpected;
    hide ShutdownRequests;
    hide Snapshot;
    hide WithMapping;
    hide Updated;
    hide Encoded;
    hide Covered;
    hide EncodeOutputs;
    hide NewNodes;
    hide AllConfigured;
    ConfiguredCovered(c.nodes);
    match call
    case SetPdoMapping(i, mapping) =>
      if i < |c.nodes| { MappingCovered(c.nodes[i], mapping); }
    case SetTarget(i, target) =>
      if i < |c.nodes| { TargetCovered(c.nodes[i], target); }
    case _ =>
  }

  lemma ConfiguredCovered(nodes: seq<Node>)
    requires AllCovered(nodes)
    ensures AllCovered(AllConfigured(nodes))
    ensures forall i | 0 <= i < |nodes| ::
        AllConfigured(nodes)[i].config.Some? && AllConfigured(nodes)[i].info == nodes[i].info
  {
    forall i | 0 <= i < |nodes|
      ensures Covered(AllConfigured(nodes)[i]) && AllConfigured(nodes)[i].config.Some?
          && AllConfigured(nodes)[i].info == nodes[i].info
    {
      AutoCovered(nodes[i]);
    }
  }

  lemma MappingCovered(n: Node, mapping: PdoMapping)
    requires Covered(n) && WellFormed(mapping)
    ensures var r := SlaveNodes.SetPdoMapping(n, mapping);
            Covered(r) && r.info == n.info && (r.config.Some? <==> n.config.Some?)
  {
  }

  lemma TargetCovered(n: Node, target: Motion)
    requires Covered(n)
    ensures var r := SlaveNodes.SetTarget(n, target);
            Covered(r) && r.info == n.info && r.config == n.config
  {
  }

  ghost function Runs(c: Ctl, calls: seq<Call>): (r: Run)
    requires NodesCovered(c) && AllProper(calls)
    ensures NodesCovered(r.ctl) && |r.oks| == |r.states| == |calls|
    decreases |calls|
  {
    if calls == [] then Run(c, [], [], [])
    else
      var before := Runs(c, calls[..|calls| - 1]);
      var s := Do(before.ctl, calls[|calls| - 1]);
      DoCovered(before.ctl, calls[|calls| - 1]);
      Run(s.ctl, before.oks + [s.ok], before.states + [s.ctl.state], before.events + s.events)
  }

  lemma RunOneMore(c: Ctl, past: seq<Call>, last: Call)
    requires NodesCovered(c) && AllProper(past) && Proper(last)
    ensures var before := Runs(c, past);
            && Runs(c, past + [last]).ctl == Do(before.ctl, last).ctl
            && Runs(c, past + [last]).events == before.events + Do(before.ctl, last).events
  {
    var all := past + [last];
    assert all[..|all| - 1] == past;
    hide Do;
  }

  lemma NoRun(c: Ctl)
    requires NodesCovered(c)
    ensures Runs(c, []) == Run(c, [], [], [])
  {
  }

  lemma DoesStop(c: Ctl)
    requires NodesCovered(c)
    ensures Do(c, Stop) == DoStop(c)
  {
    hide DoStop;
  }

  // ---------- A stopped controller is quiet ----------

  predicate Quiet(e: Event) { e == Entered(Fault) || e == Entered(EmergencyStop) }

  /** Equal but for the last reading and the snapshots. */
  predicate SameBus(a: Bus, b: Bus) { a == b.(states := a.states, snapshots := a.snapshots) }

  lemma {:induction false} SnapshotKeepsBus(bus: Bus, n: nat)
    ensures SameBus(bus, Snapshot(bus, n))
    decreases n
  {
    if n > 0 { SnapshotKeepsBus(bus, n - 1); }
  }

  lemma StoppedStep(c: Ctl, call: Call)
    requires NodesCovered(c) && Proper(call) && Stopped(c.state) && !call.Stop?
    ensures var s := Do(c, call);
            Stopped(s.ctl.state) && SameBus(c.bus, s.ctl.bus) && (forall e | e in s.events :: Quiet(e))
  {
    hide Snapshot;
    hide DoInit;
    hide DoAction;
    hide CheckAll;
    SnapshotKeepsBus(c.bus, 2 * c.bus.count);
  }

  /** From Fault or EmergencyStop, every run without Stop stays in these two states and does nothing
      on the bus: no AL request, no exchange, no configuration. */
  lemma {:induction false} StoppedIsQuiet(c: Ctl, calls: seq<Call>)
    requires NodesCovered(c) && AllProper(calls) && Stopped(c.state)
    requires forall i | 0 <= i < |calls| :: !calls[i].Stop?
    ensures var r := Runs(c, calls);
            && Stopped(r.ctl.state)
            && (forall s | s in r.states :: Stopped(s))
            && (forall e | e in r.events :: Quiet(e))
            && SameBus(c.bus, r.ctl.bus)
    decreases |calls|
  {
    hide Do;
    if calls != [] {
      var before := calls[..|calls| - 1];
      StoppedIsQuiet(c, before);
      StoppedStep(Runs(c, before).ctl, calls[|calls| - 1]);
    }
  }

  /** A run stays in EmergencyStop throughout exactly if it neither stops nor requests a fault. */
  lemma {:induction false} EmergencyStopKeptIff(c: Ctl, calls: seq<Call>)
    requires NodesCovered(c) && AllProper(calls) && c.state.EmergencyStop?
    ensures (forall s | s in Runs(c, calls).states :: s.EmergencyStop?) <==>
              forall call | call in calls :: !call.Stop? && !call.RequestFault?
    ensures (forall s | s in Runs(c, calls).states :: s.EmergencyStop?) ==> Runs(c, calls).ctl.state.EmergencyStop?
    decreases |calls|
  {
    hide Do;
    if calls != [] {
      var front, last := calls[..|calls| - 1], calls[|calls| - 1];
      EmergencyStopKeptIff(c, front);
      var before := Runs(c, front);
      assert Runs(c, calls).states == before.states + [Do(before.ctl, last).ctl.state];
      if before.ctl.state.EmergencyStop? { EmergencyStopLeftIff(before.ctl, last); }
      assert calls == front + [last];
    }
  }

  // ---------- The nodes in each state ----------

  predicate Working(state: ControllerState) { state.Maintenance? || state.ReadyToRun? || state.Operational? }

  /** From Maintenance on the nodes are exactly slaves 1 to n, in order; when ready to run or operational
      they are all configured; uninitialized there are none; configured buffers always cover their mappings. */
  ghost predicate NodesFit(c: Ctl) {
    && NodesCovered(c)
    && (c.state.Uninitialized? ==> c.nodes == [])
    && (Working(c.state) ==> |c.nodes| == |c.infos| == c.bus.count && Numbered(c.nodes))
    && (c.state.ReadyToRun? || c.state.Operational? ==> NoneUnconfigured(c.nodes))
  }

  predicate Numbered(nodes: seq<Node>) { forall i | 0 <= i < |nodes| :: nodes[i].info.slaveId == i + 1 }

  predicate NoneUnconfigured(nodes: seq<Node>) { forall i | 0 <= i < |nodes| :: nodes[i].config.Some? }

  predicate SameSlaves(a: Bus, b: Bus) {
    a.count == b.count && a.identities == b.identities && a.useDc == b.useDc && a.closed == b.closed
  }

  lemma {:induction false} RetryKeepsSlaves(bus: Bus, slave: int, state: nat, rounds: nat)
    ensures SameSlaves(bus, Retry(bus, slave, state, rounds).bus)
    decreases rounds
  {
    hide RetryRound;
    if rounds > 0 {
      var one := RetryRound(bus, slave, state);
      RoundKeepsSlaves(bus, slave, state);
      if !one.value { RetryKeepsSlaves(one.bus, slave, state, rounds - 1); }
    }
  }

  lemma RoundKeepsSlaves(bus: Bus, slave: int, state: nat)
    ensures SameSlaves(bus, RetryRound(bus, slave, state).bus)
  {
    hide StateOf;
    hide HasErrorBit;
    hide Acknowledge;
  }

  lemma ReachPreOpKeepsSlaves(c: Ctl)
    ensures SameSlaves(c.bus, ReachPreOp(c.state, c.bus).bus)
  {
    hide Retry;
    hide AllInState;
    var safe := if c.state.Operational? then RequestState(c.bus, 0, EC_STATE_SAFE_OP) else Skip(c.bus);
    RetryKeepsSlaves(safe.bus, 0, EC_STATE_PRE_OP, MAX_RETRIES + 1);
  }

  lemma RequestKeepsSlaves(bus: Bus, state: nat)
    ensures SameSlaves(bus, AllReach(RequestState(bus, 0, state), state).bus)
  {
    hide AllInState;
    hide StateOf;
  }

  lemma ReachSafeOpKeepsSlaves(bus: Bus)
    ensures SameSlaves(bus, ReachSafeOp(bus).bus)
  {
    hide AllReach;
    var mapped := ConfigureProcessData(bus);
    RequestKeepsSlaves(mapped.bus, EC_STATE_SAFE_OP);
  }

  lemma EnterFits(c: Ctl)
    requires NodesFit(c) && c.state.Scanned?
    ensures NodesFit(DoEnterMaintenance(c).ctl)
  {
    hide Retry;
    hide CheckAll;
    hide ShutdownRequests;
    hide Covered;
  }

  lemma PrepareFits(c: Ctl)
    requires NodesFit(c) && c.state.Maintenance?
    ensures NodesFit(DoPrepareRun(c).ctl)
  {
    hide ReachSafeOp;
    hide Covered;
    hide AutoConfigured;
    ReachSafeOpKeepsSlaves(c.bus);
    ConfiguredCovered(c.nodes);
  }

  lemma DispatchFits(c: Ctl, action: Action)
    requires NodesFit(c)
    ensures NodesFit(Dispatch(c, action).ctl)
  {
    hide Covered;
    hide ShutdownRequests;
    hide ReachPreOp;
    hide DoEnterMaintenance;
    hide DoPrepareRun;
    hide AllInState;
    hide Snapshot;
    match action
    case ActEnterMaintenance => if c.state.Scanned? { EnterFits(c); }
    case ActPrepareRun => if c.state.Maintenance? { PrepareFits(c); }
    case ActBackToMaintenance => ReachPreOpKeepsSlaves(c);
    case _ =>
  }

  lemma NodesFitStep(c: Ctl, call: Call)
    requires NodesFit(c) && Proper(call)
    ensures NodesFit(Do(c, call).ctl)
  {
    hide Dispatch;
    hide Covered;
    hide SlaveNodes.SetTarget;
    hide SlaveNodes.SetPdoMapping;
    hide AllInState;
    hide Snapshot;
    match call
    case Initialize(config) =>
      var a := DoInitializeAdapter(c, config);
      if c.state.Uninitialized? { DispatchFits(c.(config := config), ActInitializeAdapter); }
      DispatchFits(a.ctl, ActScanSlaves);
      DispatchFits(AndThen(a, Dispatch(a.ctl, ActScanSlaves)).ctl, ActEnterMaintenance);
    case InitializeAdapter(config) =>
      if c.state.Uninitialized? { DispatchFits(c.(config := config), ActInitializeAdapter); }
    case Scan => DispatchFits(c, ActScanSlaves);
    case EnterMaintenance => DispatchFits(c, ActEnterMaintenance);
    case PrepareRun => DispatchFits(c, ActPrepareRun);
    case StartOperation => DispatchFits(c, ActStartOperation);
    case BackToMaintenance => DispatchFits(c, ActBackToMaintenance);
    case Stop => DispatchFits(c, ActStop);
    case RequestFault => DispatchFits(c, ActRequestFault);
    case RequestEmergencyStop => DispatchFits(c, ActRequestEmergencyStop);
    case RunOnce => if c.state.Operational? { CycleFits(c); }
    case CheckSlaveStates =>
    case SetTarget(i, target) => if i < |c.nodes| { TargetCovered(c.nodes[i], target); }
    case SetPdoMapping(i, mapping) => if i < |c.nodes| { MappingCovered(c.nodes[i], mapping); }
  }

  lemma CycleFits(c: Ctl)
    requires NodesFit(c) && c.state.Operational?
    ensures NodesFit(DoRunOnce(c).ctl)
  {
    hide Covered;
    hide EncodeOutputs;
    hide DecodeInputs;
  }

  /** Over every run. */
  lemma {:induction false} NodesFitAlways(c: Ctl, calls: seq<Call>)
    requires NodesFit(c) && AllProper(calls)
    ensures NodesFit(Runs(c, calls).ctl)
    decreases |calls|
  {
    hide Do;
    assert NodesCovered(c);
    hide NodesFit;
    if calls != [] {
      NodesFitAlways(c, calls[..|calls| - 1]);
      NodesFitStep(Runs(c, calls[..|calls| - 1]).ctl, calls[|calls| - 1]);
    }
  }

  // ---------- The events of a cycle ----------

  lemma {:induction false} OutputsOnly(nodes: seq<Node>)
    requires AllCovered(nodes)
    ensures forall e | e in AllOutputs(nodes) :: e.WriteOutput?
    decreases |nodes|
  {
    hide Covered;
    hide Encoded;
    if nodes != [] { OutputsOnly(nodes[..|nodes| - 1]); }
  }

  lemma {:induction false} InputsOnly(nodes: seq<Node>)
    ensures forall e | e in AllInputs(nodes) :: e.ReadInput?
    decreases |nodes|
  {
    if nodes != [] { InputsOnly(nodes[..|nodes| - 1]); }
  }
}
