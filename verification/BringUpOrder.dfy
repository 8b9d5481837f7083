/** Before OPERATIONAL is ever requested, the whole bring-up has happened, in order, since the last
    entry to Maintenance. */
module BringUpOrder {
  import opened EcTypes
  import opened BusModel
  import opened SlaveNodes
  import opened ControllerModel
  import opened ControllerRuns

  /** The milestones, in order. */
  predicate Milestone(i: nat, e: Event) {
    match i
    case 0 => e == Entered(Maintenance)
    case 1 => e == NodesConfigured
    case 2 => e == ConfigMap
    case 3 => e == WriteState(0, EC_STATE_SAFE_OP)
    case 4 => e.ReadState? && AllInState(e.count, e.states, EC_STATE_SAFE_OP)
    case 5 => e.ConfigDc?
    case _ => false
  }

  const ALL_MILESTONES := 6

  predicate OpRequest(e: Event) { e.WriteState? && e.state == EC_STATE_OPERATIONAL }

  /** Milestones passed so far. An AL write or a configuration call out of order starts over. */
  function Advance(passed: nat, e: Event): nat {
    if Milestone(0, e) then 1
    else if passed > 0 && Milestone(passed, e) then passed + 1
    else if e.WriteState? || e.NodesConfigured? || e.ConfigMap? || e.ConfigDc? then 0
    else passed
  }

  function Passed(passed: nat, events: seq<Event>): nat {
    if events == [] then passed else Advance(Passed(passed, events[..|events| - 1]), events[|events| - 1])
  }

  /** OPERATIONAL is only requested with all milestones passed. */
  predicate Legal(passed: nat, events: seq<Event>) {
    events == []
    || (Legal(passed, events[..|events| - 1])
        && (OpRequest(events[|events| - 1]) ==> Passed(passed, events[..|events| - 1]) == ALL_MILESTONES))
  }

  lemma {:induction false} Append(passed: nat, a: seq<Event>, b: seq<Event>)
    ensures Passed(passed, a + b) == Passed(Passed(passed, a), b)
    ensures Legal(passed, a) && Legal(Passed(passed, a), b) ==> Legal(passed, a + b)
    decreases |b|
  {
    hide Advance;
    hide OpRequest;
    if b == [] {
      assert a + b == a;
    } else {
      assert (a + b)[..|a + b| - 1] == a + b[..|b| - 1];
      Append(passed, a, b[..|b| - 1]);
    }
  }

  // ---------- What the count means ----------

  /** These positions hold the first milestones; since the first of them no AL state was written
      except at the fourth, and Maintenance was not entered again. */
  ghost predicate Marks(events: seq<Event>, marks: seq<nat>) {
    && (forall i | 0 <= i < |marks| :: marks[i] < |events| && Milestone(i, events[marks[i]]))
    && (forall i | 0 < i < |marks| :: marks[i - 1] < marks[i])
    && (forall k | 0 <= k < |events| && |marks| > 0 && marks[0] < k ::
          (events[k].WriteState? ==> |marks| > 3 && k == marks[3]) && events[k] != Entered(Maintenance))
  }

  lemma {:induction false} FindMarks(events: seq<Event>) returns (marks: seq<nat>)
    ensures |marks| == Passed(0, events) && Marks(events, marks)
    decreases |events|
  {
    if events == [] {
      return [];
    }
    var n, last := |events| - 1, events[|events| - 1];
    var before := FindMarks(events[..n]);
    var passed := Passed(0, events);
    if Milestone(0, last) {
      marks := [n];
    } else if passed == |before| + 1 {
      marks := before + [n];
      ExtendMarks(events, before);
    } else if passed == 0 {
      marks := [];
    } else {
      marks := before;
      KeepMarks(events, before);
    }
  }

  lemma ExtendMarks(events: seq<Event>, before: seq<nat>)
    requires events != [] && before != [] && Marks(events[..|events| - 1], before)
    requires Milestone(|before|, events[|events| - 1])
    ensures Marks(events, before + [|events| - 1])
  {
    var n, marks := |events| - 1, before + [|events| - 1];
    forall i | 0 <= i < |marks| ensures marks[i] < |events| && Milestone(i, events[marks[i]]) {
      if i < |before| { assert events[..n][before[i]] == events[before[i]]; }
    }
    forall k | 0 <= k < |events| && marks[0] < k
      ensures (events[k].WriteState? ==> |marks| > 3 && k == marks[3]) && events[k] != Entered(Maintenance)
    {
      if k < n { assert events[..n][k] == events[k]; }
    }
  }

  lemma KeepMarks(events: seq<Event>, before: seq<nat>)
    requires events != [] && Marks(events[..|events| - 1], before)
    requires !events[|events| - 1].WriteState? && events[|events| - 1] != Entered(Maintenance)
    ensures Marks(events, before)
  {
    var n := |events| - 1;
    forall i | 0 <= i < |before| ensures before[i] < |events| && Milestone(i, events[before[i]]) {
      assert events[..n][before[i]] == events[before[i]];
    }
    forall k | 0 <= k < |events| && |before| > 0 && before[0] < k
      ensures (events[k].WriteState? ==> |before| > 3 && k == before[3]) && events[k] != Entered(Maintenance)
    {
      if k < n { assert events[..n][k] == events[k]; }
    }
  }

  lemma {:induction false} LegalAt(events: seq<Event>, k: nat)
    requires Legal(0, events) && k < |events| && OpRequest(events[k])
    ensures Passed(0, events[..k]) == ALL_MILESTONES
    decreases |events|
  {
    var front := events[..|events| - 1];
    if k < |front| {
      LegalAt(front, k);
      assert front[..k] == events[..k];
    }
  }

  // ---------- Every step ----------

  ghost predicate Plain(events: seq<Event>) { forall e | e in events :: !OpRequest(e) }

  lemma {:induction false} PlainLegal(passed: nat, events: seq<Event>)
    requires Plain(events)
    ensures Legal(passed, events)
    decreases |events|
  {
    if events != [] { PlainLegal(passed, events[..|events| - 1]); }
  }

  lemma {:induction false} RetryPlain(bus: Bus, slave: int, state: nat, rounds: nat)
    requires state != EC_STATE_OPERATIONAL
    ensures Plain(Retry(bus, slave, state, rounds).events)
    decreases rounds
  {
    if rounds > 0 {
      var one := RetryRound(bus, slave, state);
      RoundPlain(bus, slave, state);
      hide RetryRound;
      if !one.value { RetryPlain(one.bus, slave, state, rounds - 1); }
    }
  }

  lemma RoundPlain(bus: Bus, slave: int, state: nat)
    requires state != EC_STATE_OPERATIONAL
    ensures Plain(RetryRound(bus, slave, state).events)
  {
    hide HasErrorBit;
    hide StateOf;
  }

  lemma RequestPlain(bus: Bus, state: nat)
    requires state != EC_STATE_OPERATIONAL
    ensures Plain(RequestState(bus, 0, state).events)
  {
    hide StateOf;
  }

  lemma ReachPlain(request: Out<bool>, state: nat)
    requires Plain(request.events)
    ensures Plain(AllReach(request, state).events)
  {
    hide AllInState;
  }

  lemma PreOpPlain(c: Ctl)
    ensures Plain(ReachPreOp(c.state, c.bus).events)
  {
    hide Retry;
    hide AllReach;
    hide RequestState;
    hide OpRequest;
    var safe := if c.state.Operational? then RequestState(c.bus, 0, EC_STATE_SAFE_OP) else Skip(c.bus);
    RequestPlain(c.bus, EC_STATE_SAFE_OP);
    RetryPlain(safe.bus, 0, EC_STATE_PRE_OP, MAX_RETRIES + 1);
    ReachPlain(RequestStateWithRetry(safe.bus, 0, EC_STATE_PRE_OP), EC_STATE_PRE_OP);
  }

  lemma ShutdownPlain(c: Ctl, bus: Bus)
    ensures Plain(DoShutdown(c, bus).events)
  {
    hide Retry;
    hide RequestState;
    hide StateOf;
    var a := if c.state.Operational? then RequestState(bus, 0, EC_STATE_SAFE_OP) else Skip(bus);
    RequestPlain(bus, EC_STATE_SAFE_OP);
    var b := if c.state.Operational? || c.state.ReadyToRun? || c.state.Maintenance?
             then RequestStateWithRetry(a.bus, 0, EC_STATE_PRE_OP) else Skip(a.bus);
    RetryPlain(a.bus, 0, EC_STATE_PRE_OP, MAX_RETRIES + 1);
    RequestPlain(b.bus, EC_STATE_INIT);
  }

  /** In Maintenance only its entry has been passed; when ready to run, everything has. */
  predicate Ready(c: Ctl, passed: nat) {
    (c.state.Maintenance? ==> passed == 1) && (c.state.ReadyToRun? ==> passed == ALL_MILESTONES)
  }

  ghost predicate InOrder(passed: nat, s: Step) { Legal(passed, s.events) && Ready(s.ctl, Passed(passed, s.events)) }

  /** Steps that do not request OPERATIONAL and do not end in Maintenance or ready to run. */
  lemma PlainInOrder(passed: nat, s: Step)
    requires Plain(s.events) && !s.ctl.state.Maintenance? && !s.ctl.state.ReadyToRun?
    ensures InOrder(passed, s)
  {
    PlainLegal(passed, s.events);
  }

  lemma IdleInOrder(passed: nat, s: Step)
    requires s.events == [] && Ready(s.ctl, passed)
    ensures InOrder(passed, s)
  {
  }

  /** A step that ends with the entry to Maintenance. */
  lemma EntersMaintenance<T>(passed: nat, o: Out<T>, c: Ctl)
    requires Plain(o.events)
    ensures InOrder(passed, After(o, Enter(c, o.bus, Maintenance)))
  {
    var all := o.events + [Entered(Maintenance)];
    assert all[..|all| - 1] == o.events;
    PlainLegal(passed, all);
  }

  lemma EnterMaintenanceInOrder(c: Ctl, passed: nat)
    requires c.state.Scanned?
    ensures InOrder(passed, DoEnterMaintenance(c))
  {
    hide Retry;
    hide AllReach;
    hide InfosOf;
    hide NewNodes;
    hide DoShutdown;
    hide Plain;
    hide InOrder;
    var request := RequestStateWithRetry(c.bus, 0, EC_STATE_PRE_OP);
    var o := AllReach(request, EC_STATE_PRE_OP);
    RetryPlain(c.bus, 0, EC_STATE_PRE_OP, MAX_RETRIES + 1);
    ReachPlain(request, EC_STATE_PRE_OP);
    ShutdownPlain(c, o.bus);
    var infos := InfosOf(o.bus, o.bus.count);
    EntersMaintenance(passed, o, c.(infos := infos, nodes := NewNodes(infos)));
    if !o.value {
      PlainTogether(o.events, DoShutdown(c, o.bus).events);
      ShutdownState(c, o.bus);
      PlainInOrder(passed, DoEnterMaintenance(c));
    }
  }

  lemma ShutdownState(c: Ctl, bus: Bus)
    ensures DoShutdown(c, bus).ctl.state.Uninitialized?
  {
    hide ShutdownRequests;
  }

  lemma PlainTogether(a: seq<Event>, b: seq<Event>)
    requires Plain(a) && Plain(b)
    ensures Plain(a + b)
  {
  }

  lemma ScanInOrder(c: Ctl, passed: nat)
    requires c.state.AdapterReady?
    ensures InOrder(passed, DoScan(c))
  {
    hide AsExpected;
    hide InfosOf;
    hide DoShutdown;
    hide InOrder;
    var o := ScanSlaves(c.bus);
    ShutdownPlain(c.(infos := o.value), o.bus);
    ShutdownState(c.(infos := o.value), o.bus);
    PlainInOrder(passed, DoScan(c));
  }

  lemma StepOne(passed: nat, e: Event)
    ensures Passed(passed, [e]) == Advance(passed, e)
    ensures Legal(passed, [e]) <==> (OpRequest(e) ==> passed == ALL_MILESTONES)
  {
    assert [e][..0] == [];
  }

  /** From Maintenance to ready to run: one milestone after the other. */
  lemma ReachSafeOpPasses(bus: Bus)
    requires ReachSafeOp(bus).value
    ensures Passed(2, ReachSafeOp(bus).events) == ALL_MILESTONES
  {
    hide Passed;
    hide Advance;
    hide StateOf;
    hide AllInState;
    var mapped := ConfigureProcessData(bus);
    var request := RequestState(mapped.bus, 0, EC_STATE_SAFE_OP);
    var check := CheckAll(request.bus, EC_STATE_SAFE_OP);
    var dc := ConfigureDc(check.bus);
    RequestPasses(mapped.bus);
    CheckPasses(request.bus);
    MapAndClockPass(dc.events[0]);
    hide RequestState;
    hide CheckAll;
    Append(2, mapped.events, request.events + check.events);
    Append(3, request.events, check.events);
    Append(2, mapped.events + (request.events + check.events), dc.events);
  }

  lemma MapAndClockPass(dc: Event)
    requires dc.ConfigDc?
    ensures Passed(2, [ConfigMap]) == 3 && Passed(5, [dc]) == ALL_MILESTONES
  {
    StepOne(2, ConfigMap);
    StepOne(5, dc);
  }

  lemma RequestPasses(bus: Bus)
    ensures Passed(3, RequestState(bus, 0, EC_STATE_SAFE_OP).events) == 4
  {
    var e := RequestState(bus, 0, EC_STATE_SAFE_OP).events;
    assert e == [e[0]] + [e[1]];
    Append(3, [e[0]], [e[1]]);
    StepOne(3, e[0]);
    StepOne(4, e[1]);
    hide StateOf;
    hide Passed;
  }

  lemma CheckPasses(bus: Bus)
    requires CheckAll(bus, EC_STATE_SAFE_OP).value
    ensures Passed(4, CheckAll(bus, EC_STATE_SAFE_OP).events) == 5
  {
    StepOne(4, CheckAll(bus, EC_STATE_SAFE_OP).events[0]);
  }

  lemma SafeOpPlain(bus: Bus)
    ensures Plain(ReachSafeOp(bus).events)
  {
    hide AllReach;
    var mapped := ConfigureProcessData(bus);
    RequestPlain(mapped.bus, EC_STATE_SAFE_OP);
    ReachPlain(RequestState(mapped.bus, 0, EC_STATE_SAFE_OP), EC_STATE_SAFE_OP);
    hide RequestState;
  }

  lemma PrepareInOrder(c: Ctl)
    requires c.state.Maintenance?
    ensures InOrder(1, DoPrepareRun(c))
  {
    hide ReachSafeOp;
    hide AllConfigured;
    hide Snapshot;
    hide Passed;
    hide Legal;
    var safe := ReachSafeOp(c.bus);
    SafeOpPlain(c.bus);
    var first := [NodesConfigured] + safe.events;
    PlainTogether([NodesConfigured], safe.events);
    var s := DoPrepareRun(c);
    PlainTogether(first, [s.events[|s.events| - 1]]);
    if safe.value {
      PreparePasses(c.bus);
      PlainLegal(1, s.events);
    } else {
      PlainInOrder(1, s);
    }
  }

  lemma FirstAndLastPass()
    ensures Passed(1, [NodesConfigured]) == 2 && Passed(ALL_MILESTONES, [Entered(ReadyToRun)]) == ALL_MILESTONES
  {
    StepOne(1, NodesConfigured);
    StepOne(ALL_MILESTONES, Entered(ReadyToRun));
  }

  lemma PreparePasses(bus: Bus)
    requires ReachSafeOp(bus).value
    ensures Passed(1, [NodesConfigured] + ReachSafeOp(bus).events + [Entered(ReadyToRun)]) == ALL_MILESTONES
  {
    hide ReachSafeOp;
    hide Passed;
    hide Advance;
    FirstAndLastPass();
    ReachSafeOpPasses(bus);
    Append(1, [NodesConfigured], ReachSafeOp(bus).events);
    Append(1, [NodesConfigured] + ReachSafeOp(bus).events, [Entered(ReadyToRun)]);
  }

  lemma FirstThenPlain(passed: nat, events: seq<Event>)
    requires events != [] && (OpRequest(events[0]) ==> passed == ALL_MILESTONES) && Plain(events[1..])
    ensures Legal(passed, events)
  {
    var rest := events[1..];
    assert events == [events[0]] + rest;
    StepOne(passed, events[0]);
    hide Legal;
    hide Passed;
    hide OpRequest;
    PlainLegal(Passed(passed, [events[0]]), rest);
    Append(passed, [events[0]], rest);
  }

  lemma StartInOrder(c: Ctl)
    requires c.state.ReadyToRun?
    ensures InOrder(ALL_MILESTONES, DoStartOperation(c))
  {
    hide Legal;
    hide Passed;
    hide StateOf;
    hide AllInState;
    hide Snapshot;
    FirstThenPlain(ALL_MILESTONES, DoStartOperation(c).events);
  }

  lemma BackInOrder(c: Ctl, passed: nat)
    requires c.state.ReadyToRun? || c.state.Operational?
    ensures InOrder(passed, DoBackToMaintenance(c))
  {
    hide ReachPreOp;
    hide Snapshot;
    var o := ReachPreOp(c.state, c.bus);
    PreOpPlain(c);
    if o.value {
      EntersMaintenance(passed, o, c);
    } else {
      PlainTogether(o.events, [Entered(Fault)]);
      PlainInOrder(passed, DoBackToMaintenance(c));
    }
  }

  lemma DispatchInOrder(c: Ctl, action: Action, passed: nat)
    requires Ready(c, passed)
    ensures InOrder(passed, Dispatch(c, action))
  {
    IdleInOrder(passed, Step(c, false, []));
    hide InOrder;
    hide DoScan;
    hide DoEnterMaintenance;
    hide DoPrepareRun;
    hide DoStartOperation;
    hide DoBackToMaintenance;
    hide DoShutdown;
    hide Snapshot;
    match action
    case ActRequestEmergencyStop => PlainInOrder(passed, Dispatch(c, action));
    case ActRequestFault => PlainInOrder(passed, Dispatch(c, action));
    case ActInitializeAdapter => if c.state.Uninitialized? { PlainInOrder(passed, Dispatch(c, action)); }
    case ActScanSlaves => if c.state.AdapterReady? { ScanInOrder(c, passed); }
    case ActEnterMaintenance => if c.state.Scanned? { EnterMaintenanceInOrder(c, passed); }
    case ActPrepareRun => if c.state.Maintenance? { PrepareInOrder(c); }
    case ActStartOperation => if c.state.ReadyToRun? { StartInOrder(c); }
    case ActBackToMaintenance => if c.state.ReadyToRun? || c.state.Operational? { BackInOrder(c, passed); }
    case ActStop =>
      if !c.state.Uninitialized? {
        ShutdownPlain(c, c.bus);
        ShutdownState(c, c.bus);
        PlainInOrder(passed, DoShutdown(c, c.bus));
      }
  }

  lemma AndThenInOrder(passed: nat, a: Step, b: Step)
    requires InOrder(passed, a) && InOrder(Passed(passed, a.events), b)
    ensures InOrder(passed, AndThen(a, b))
  {
    Append(passed, a.events, b.events);
  }

  lemma InitializeInOrder(c: Ctl, config: Config, passed: nat)
    requires Ready(c, passed)
    ensures InOrder(passed, DoInitializeAdapter(c, config)) && InOrder(passed, DoInitialize(c, config))
  {
    hide Dispatch;
    hide Passed;
    hide Legal;
    hide AndThen;
    var a := DoInitializeAdapter(c, config);
    if c.state.Uninitialized? { DispatchInOrder(c.(config := config), ActInitializeAdapter, passed); }
    else { IdleInOrder(passed, a); }
    DispatchInOrder(a.ctl, ActScanSlaves, Passed(passed, a.events));
    AndThenInOrder(passed, a, Dispatch(a.ctl, ActScanSlaves));
    var b := AndThen(a, Dispatch(a.ctl, ActScanSlaves));
    DispatchInOrder(b.ctl, ActEnterMaintenance, Passed(passed, b.events));
    AndThenInOrder(passed, b, Dispatch(b.ctl, ActEnterMaintenance));
  }

  lemma {:induction false} CyclePlain(nodes: seq<Node>)
    requires AllCovered(nodes)
    ensures Plain(AllOutputs(nodes)) && Plain(AllInputs(nodes))
    decreases |nodes|
  {
    hide Encoded;
    hide Covered;
    if nodes != [] { CyclePlain(nodes[..|nodes| - 1]); }
  }

  lemma CycleInOrder(c: Ctl, passed: nat)
    requires Ready(c, passed) && NodesCovered(c)
    ensures InOrder(passed, DoRunOnce(c))
  {
    if c.state.Operational? {
      EncodedCovered(c.nodes);
      CyclePlain(c.nodes);
      CyclePlain(AllEncoded(c.nodes));
      hide AllOutputs;
      hide AllInputs;
      hide AllEncoded;
      hide AllUpdated;
      PlainInOrder(passed, DoRunOnce(c));
    } else {
      IdleInOrder(passed, DoRunOnce(c));
    }
  }

  lemma CheckInOrder(c: Ctl, passed: nat)
    requires Ready(c, passed)
    ensures InOrder(passed, DoCheckSlaveStates(c))
  {
    hide AllInState;
    hide Snapshot;
    var s := DoCheckSlaveStates(c);
    if Watched(c.state) == 0 {
      IdleInOrder(passed, s);
    } else if s.ctl.state.Maintenance? {
      assert s.events == [s.events[0]];
      StepOne(passed, s.events[0]);
    } else {
      PlainInOrder(passed, s);
    }
  }

  lemma StepInOrder(c: Ctl, call: Call, passed: nat)
    requires Ready(c, passed) && NodesCovered(c) && Proper(call)
    ensures InOrder(passed, Do(c, call))
  {
    hide Dispatch;
    hide DoInitialize;
    hide DoInitializeAdapter;
    hide DoRunOnce;
    hide DoCheckSlaveStates;
    hide SlaveNodes.SetTarget;
    hide SlaveNodes.SetPdoMapping;
    hide Covered;
    match call
    case Initialize(config) => InitializeInOrder(c, config, passed);
    case InitializeAdapter(config) => InitializeInOrder(c, config, passed);
    case Scan => DispatchInOrder(c, ActScanSlaves, passed);
    case EnterMaintenance => DispatchInOrder(c, ActEnterMaintenance, passed);
    case PrepareRun => DispatchInOrder(c, ActPrepareRun, passed);
    case StartOperation => DispatchInOrder(c, ActStartOperation, passed);
    case BackToMaintenance => DispatchInOrder(c, ActBackToMaintenance, passed);
    case Stop => DispatchInOrder(c, ActStop, passed);
    case RequestFault => DispatchInOrder(c, ActRequestFault, passed);
    case RequestEmergencyStop => DispatchInOrder(c, ActRequestEmergencyStop, passed);
    case RunOnce => CycleInOrder(c, passed);
    case CheckSlaveStates => CheckInOrder(c, passed);
    case SetTarget(_, _) => IdleInOrder(passed, Do(c, call));
    case SetPdoMapping(_, _) => IdleInOrder(passed, Do(c, call));
  }

  lemma {:induction false} RunInOrder(c: Ctl, calls: seq<Call>)
    requires c.state.Uninitialized? && NodesCovered(c) && AllProper(calls)
    ensures var r := Runs(c, calls); Legal(0, r.events) && Ready(r.ctl, Passed(0, r.events))
    decreases |calls|
  {
    hide Do;
    hide Legal;
    hide Passed;
    if calls == [] {
      PlainLegal(0, []);
    } else {
      var before, call := Runs(c, calls[..|calls| - 1]), calls[|calls| - 1];
      RunInOrder(c, calls[..|calls| - 1]);
      StepInOrder(before.ctl, call, Passed(0, before.events));
      Append(0, before.events, Do(before.ctl, call).events);
    }
  }

  /** Before k: the entry to Maintenance, all nodes configured, the process data mapped, SAFE_OP requested,
      SAFE_OP read on every slave, distributed clocks configured - in this order, with no other AL write
      and no other entry to Maintenance in between. */
  ghost predicate BroughtUp(events: seq<Event>, k: nat, marks: seq<nat>)
    requires k <= |events|
  {
    && |marks| == ALL_MILESTONES
    && (forall i | 0 <= i < |marks| :: marks[i] < k && Milestone(i, events[marks[i]]))
    && (forall i | 0 < i < |marks| :: marks[i - 1] < marks[i])
    && (forall j | marks[0] < j < k :: (events[j].WriteState? ==> j == marks[3]) && events[j] != Entered(Maintenance))
  }

  lemma MarksInWhole(events: seq<Event>, k: nat, marks: seq<nat>)
    requires k <= |events| && Marks(events[..k], marks) && |marks| == ALL_MILESTONES
    ensures BroughtUp(events, k, marks)
  {
    hide Milestone;
    forall i | 0 <= i < |marks| ensures marks[i] < k && Milestone(i, events[marks[i]]) {
      assert events[..k][marks[i]] == events[marks[i]];
    }
    forall j | marks[0] < j < k
      ensures (events[j].WriteState? ==> j == marks[3]) && events[j] != Entered(Maintenance)
    {
      assert events[..k][j] == events[j];
    }
  }

  /** In every run from a fresh controller, each request for OPERATIONAL comes after a whole bring-up. */
  lemma OperationalOnlyAfterBringUp(replies: seq<Reply>, snapshots: seq<map<int, nat>>, calls: seq<Call>, k: nat)
    requires AllProper(calls)
    requires var events := Runs(New(replies, snapshots), calls).events; k < |events| && OpRequest(events[k])
    ensures exists marks :: BroughtUp(Runs(New(replies, snapshots), calls).events, k, marks)
  {
    var events := Runs(New(replies, snapshots), calls).events;
    RunInOrder(New(replies, snapshots), calls);
    LegalAt(events, k);
    var marks := FindMarks(events[..k]);
    hide Runs;
    hide BroughtUp;
    hide Marks;
    MarksInWhole(events, k, marks);
  }
}
