/** Over any life of the controller the adapter is opened and closed strictly in turn. */
module AdapterPairing {
  import opened EcTypes
  import opened Filtering
  import opened BusModel
  import opened SlaveNodes
  import opened ControllerModel
  import opened ControllerRuns

  predicate OnAdapter(e: Event) { e == InitAdapter(true) || e == CloseAdapter }

  /** The successful openings and the closings of a trace. */
  function AdapterCalls(events: seq<Event>): seq<Event> { Filter(OnAdapter, events) }

  /** From closed or not, calls in turn, to closed or not. */
  predicate InTurn(closed: bool, calls: seq<Event>, after: bool) {
    && (forall i | 0 <= i < |calls| :: calls[i] == if (i % 2 == 0) == closed then InitAdapter(true) else CloseAdapter)
    && after == if |calls| % 2 == 0 then closed else !closed
  }

  lemma TurnsCompose(a: bool, x: seq<Event>, b: bool, y: seq<Event>, c: bool)
    requires InTurn(a, x, b) && InTurn(b, y, c)
    ensures InTurn(a, x + y, c)
  {
    forall i | 0 <= i < |x + y| ensures (x + y)[i] == if (i % 2 == 0) == a then InitAdapter(true) else CloseAdapter {
      if i >= |x| { assert (x + y)[i] == y[i - |x|]; }
    }
  }

  /** The events lead from one bus to the other. */
  predicate Moved(before: Bus, events: seq<Event>, after: Bus) {
    InTurn(before.closed, AdapterCalls(events), after.closed)
  }

  lemma MovedCompose(a: Bus, x: seq<Event>, b: Bus, y: seq<Event>, c: Bus)
    requires Moved(a, x, b) && Moved(b, y, c)
    ensures Moved(a, x + y, c)
  {
    FilterAppend(OnAdapter, x, y);
    TurnsCompose(a.closed, AdapterCalls(x), b.closed, AdapterCalls(y), c.closed);
  }

  // ---------- The parts ----------

  /** Requests, checks and configuration calls leave the adapter alone. */
  ghost predicate Silent<T>(bus: Bus, o: Out<T>) {
    o.bus.closed == bus.closed && forall e | e in o.events :: !OnAdapter(e)
  }

  lemma SilentMoves<T>(bus: Bus, o: Out<T>)
    requires Silent(bus, o)
    ensures Moved(bus, o.events, o.bus)
  {
    FilterNone(OnAdapter, o.events);
  }

  lemma SilentThen<T, U>(bus: Bus, a: Out<T>, b: Out<U>)
    requires Silent(bus, a) && Silent(a.bus, b)
    ensures Silent(bus, Then(a, b))
  {
  }

  lemma {:induction false} RetrySilent(bus: Bus, slave: int, state: nat, rounds: nat)
    ensures Silent(bus, Retry(bus, slave, state, rounds))
    decreases rounds
  {
    if rounds > 0 {
      var one := RetryRound(bus, slave, state);
      RoundSilent(bus, slave, state);
      hide RetryRound;
      if !one.value { RetrySilent(one.bus, slave, state, rounds - 1); }
    }
  }

  lemma RoundSilent(bus: Bus, slave: int, state: nat)
    ensures Silent(bus, RetryRound(bus, slave, state))
  {
    hide HasErrorBit;
    hide StateOf;
  }

  lemma ReachSilent(bus: Bus, request: Out<bool>, state: nat)
    requires Silent(bus, request)
    ensures Silent(bus, AllReach(request, state))
  {
    hide AllInState;
  }

  lemma RequestSilent(bus: Bus, state: nat)
    ensures Silent(bus, RequestState(bus, 0, state))
    ensures Silent(bus, AllReach(RequestState(bus, 0, state), state))
  {
    hide AllReach;
    hide StateOf;
    ReachSilent(bus, RequestState(bus, 0, state), state);
  }

  lemma SafeOpSilent(bus: Bus)
    ensures Silent(bus, ReachSafeOp(bus))
  {
    hide AllReach;
    RequestSilent(ConfigureProcessData(bus).bus, EC_STATE_SAFE_OP);
  }

  lemma PreOpSilent(c: Ctl)
    ensures Silent(c.bus, ReachPreOp(c.state, c.bus))
  {
    hide Retry;
    hide AllReach;
    hide RequestState;
    var safe := if c.state.Operational? then RequestState(c.bus, 0, EC_STATE_SAFE_OP) else Skip(c.bus);
    RequestSilent(c.bus, EC_STATE_SAFE_OP);
    RetrySilent(safe.bus, 0, EC_STATE_PRE_OP, MAX_RETRIES + 1);
    ReachSilent(safe.bus, RequestStateWithRetry(safe.bus, 0, EC_STATE_PRE_OP), EC_STATE_PRE_OP);
  }

  lemma ShutdownSilent(state: ControllerState, bus: Bus)
    ensures Silent(bus, ShutdownRequests(state, bus))
  {
    hide Retry;
    hide RequestState;
    var a := if state.Operational? then RequestState(bus, 0, EC_STATE_SAFE_OP) else Skip(bus);
    RequestSilent(bus, EC_STATE_SAFE_OP);
    var b := if state.Operational? || state.ReadyToRun? || state.Maintenance?
             then RequestStateWithRetry(a.bus, 0, EC_STATE_PRE_OP) else Skip(a.bus);
    RetrySilent(a.bus, 0, EC_STATE_PRE_OP, MAX_RETRIES + 1);
    RequestSilent(b.bus, EC_STATE_INIT);
  }

  lemma EnterMoves(c: Ctl, bus: Bus, state: ControllerState)
    ensures Moved(bus, Enter(c, bus, state).events, bus)
  {
    FilterNone(OnAdapter, [Entered(state)]);
  }

  lemma StoppedMoves(c: Ctl, bus: Bus, state: ControllerState)
    ensures var s := EnterStopped(c, bus, state);
            Moved(bus, s.events, s.ctl.bus) && s.ctl.bus.closed == bus.closed && s.ctl.state == state
  {
    SnapshotKeepsBus(bus, 2 * bus.count);
    FilterNone(OnAdapter, [Entered(state)]);
  }

  lemma CloseMoves(bus: Bus)
    ensures Moved(bus, Close(bus).events, Close(bus).bus)
  {
    hide Filter;
    if bus.closed { FilterNone(OnAdapter, []); } else { FilterOne(OnAdapter, CloseAdapter); }
  }

  lemma ShutdownMoves(c: Ctl, bus: Bus)
    ensures var s := DoShutdown(c, bus);
            Moved(bus, s.events, s.ctl.bus) && s.ctl.state.Uninitialized? && s.ctl.bus.closed
  {
    hide Moved;
    hide ShutdownRequests;
    var requests := ShutdownRequests(c.state, bus);
    var close := Close(requests.bus);
    ShutdownSilent(c.state, bus);
    SilentMoves(bus, requests);
    CloseMoves(requests.bus);
    EnterMoves(c.(nodes := []), close.bus, Uninitialized);
    var last := Enter(c.(nodes := []), close.bus, Uninitialized);
    MovedCompose(requests.bus, close.events, close.bus, last.events, close.bus);
    MovedCompose(bus, requests.events, requests.bus, close.events + last.events, close.bus);
  }

  // ---------- Every step, every run ----------

  predicate Open(state: ControllerState) {
    state.AdapterReady? || state.Scanned? || state.Maintenance? || state.ReadyToRun? || state.Operational?
  }

  /** Closed in Uninitialized, open in the five working states. */
  predicate AdapterFits(c: Ctl) {
    (c.state.Uninitialized? ==> c.bus.closed) && (Open(c.state) ==> !c.bus.closed)
  }

  ghost predicate GoodStep(c: Ctl, s: Step) {
    Moved(c.bus, s.events, s.ctl.bus) && AdapterFits(s.ctl)
  }

  lemma AfterGood<T>(c: Ctl, o: Out<T>, s: Step)
    requires Moved(c.bus, o.events, o.bus) && Moved(o.bus, s.events, s.ctl.bus) && AdapterFits(s.ctl)
    ensures GoodStep(c, After(o, s)) && GoodStep(c, After(o, Failed(s)))
  {
    MovedCompose(c.bus, o.events, o.bus, s.events, s.ctl.bus);
  }

  lemma IdleGood(c: Ctl, ok: bool)
    requires AdapterFits(c)
    ensures GoodStep(c, Step(c, ok, []))
  {
  }

  lemma InitGood(c: Ctl)
    requires AdapterFits(c) && c.state.Uninitialized?
    ensures GoodStep(c, DoInit(c))
  {
    var o := BusModel.Initialize(c.bus, c.config.useDc);
    FilterOne(OnAdapter, InitAdapter(o.value));
    assert Moved(c.bus, o.events, o.bus);
    EnterMoves(c, o.bus, AdapterReady);
    if o.value { AfterGood(c, o, Enter(c, o.bus, AdapterReady)); }
  }

  lemma ScanGood(c: Ctl)
    requires AdapterFits(c) && c.state.AdapterReady?
    ensures GoodStep(c, DoScan(c))
  {
    hide AsExpected;
    hide InfosOf;
    hide DoShutdown;
    var o := ScanSlaves(c.bus);
    var scanned := c.(infos := o.value);
    SilentMoves(c.bus, o);
    hide Moved;
    ShutdownMoves(scanned, o.bus);
    EnterMoves(scanned, o.bus, Scanned);
    AfterGood(c, o, if AsExpected(c.config, o.value) then Enter(scanned, o.bus, Scanned)
        else DoShutdown(scanned, o.bus));
  }

  lemma EnterMaintenanceGood(c: Ctl)
    requires AdapterFits(c) && c.state.Scanned?
    ensures GoodStep(c, DoEnterMaintenance(c))
  {
    hide Retry;
    hide AllReach;
    hide InfosOf;
    hide NewNodes;
    hide DoShutdown;
    hide Moved;
    var request := RequestStateWithRetry(c.bus, 0, EC_STATE_PRE_OP);
    var o := AllReach(request, EC_STATE_PRE_OP);
    RetrySilent(c.bus, 0, EC_STATE_PRE_OP, MAX_RETRIES + 1);
    ReachSilent(c.bus, request, EC_STATE_PRE_OP);
    SilentMoves(c.bus, o);
    ShutdownMoves(c, o.bus);
    var infos := InfosOf(o.bus, o.bus.count);
    var entered := c.(infos := infos, nodes := NewNodes(infos));
    EnterMoves(entered, o.bus, Maintenance);
    AfterGood(c, o, if o.value then Enter(entered, o.bus, Maintenance) else DoShutdown(c, o.bus));
  }

  /** A step that keeps the adapter and enters a working state or a fault. */
  lemma WorkGood<T>(c: Ctl, after: Ctl, o: Out<T>, state: ControllerState, ok: bool)
    requires AdapterFits(c) && Open(c.state) && Open(state) && Silent(c.bus, o)
    ensures GoodStep(c, After(o, if ok then Enter(after, o.bus, state) else Failed(EnterFault(after, o.bus))))
  {
    hide Snapshot;
    hide Moved;
    SilentMoves(c.bus, o);
    EnterMoves(after, o.bus, state);
    StoppedMoves(after, o.bus, Fault);
    AfterGood(c, o, if ok then Enter(after, o.bus, state) else EnterFault(after, o.bus));
  }

  lemma PrepareGood(c: Ctl)
    requires AdapterFits(c) && c.state.Maintenance?
    ensures GoodStep(c, DoPrepareRun(c))
  {
    hide ReachSafeOp;
    hide AllConfigured;
    hide Moved;
    SafeOpSilent(c.bus);
    var first := Out(c.bus, true, [NodesConfigured]);
    var o := Then(first, ReachSafeOp(c.bus));
    SilentThen(c.bus, first, ReachSafeOp(c.bus));
    WorkGood(c, c.(nodes := AllConfigured(c.nodes)), o, ReadyToRun, o.value);
  }

  lemma DispatchGood(c: Ctl, action: Action)
    requires AdapterFits(c)
    ensures GoodStep(c, Dispatch(c, action))
  {
    hide AllReach;
    hide RequestState;
    hide ReachPreOp;
    hide DoInit;
    hide DoScan;
    hide DoEnterMaintenance;
    hide DoPrepareRun;
    hide DoShutdown;
    hide EnterStopped;
    IdleGood(c, false);
    hide Moved;
    match action
    case ActRequestEmergencyStop => StoppedMoves(c, c.bus, EmergencyStop);
    case ActRequestFault => StoppedMoves(c, c.bus, Fault);
    case ActInitializeAdapter => if c.state.Uninitialized? { InitGood(c); }
    case ActScanSlaves => if c.state.AdapterReady? { ScanGood(c); }
    case ActEnterMaintenance => if c.state.Scanned? { EnterMaintenanceGood(c); }
    case ActPrepareRun => if c.state.Maintenance? { PrepareGood(c); }
    case ActStartOperation =>
      if c.state.ReadyToRun? {
        RequestSilent(c.bus, EC_STATE_OPERATIONAL);
        var o := AllReach(RequestState(c.bus, 0, EC_STATE_OPERATIONAL), EC_STATE_OPERATIONAL);
        WorkGood(c, c, o, Operational, o.value);
      }
    case ActBackToMaintenance =>
      if c.state.ReadyToRun? || c.state.Operational? {
        PreOpSilent(c);
        WorkGood(c, c, ReachPreOp(c.state, c.bus), Maintenance, ReachPreOp(c.state, c.bus).value);
      }
    case ActStop => ShutdownMoves(c, c.bus);
  }

  lemma AndThenGood(c: Ctl, a: Step, b: Step)
    requires GoodStep(c, a) && GoodStep(a.ctl, b)
    ensures GoodStep(c, AndThen(a, b))
  {
    MovedCompose(c.bus, a.events, a.ctl.bus, b.events, b.ctl.bus);
  }

  lemma InitializeAdapterGood(c: Ctl, config: Config)
    requires AdapterFits(c)
    ensures GoodStep(c, DoInitializeAdapter(c, config))
  {
    hide Dispatch;
    if c.state.Uninitialized? { DispatchGood(c.(config := config), ActInitializeAdapter); } else { IdleGood(c, false); }
  }

  lemma InitializeGood(c: Ctl, config: Config)
    requires AdapterFits(c)
    ensures GoodStep(c, DoInitialize(c, config))
  {
    hide Dispatch;
    hide AndThen;
    hide GoodStep;
    hide DoInitializeAdapter;
    var a := DoInitializeAdapter(c, config);
    InitializeAdapterGood(c, config);
    GoodFits(c, a);
    DispatchGood(a.ctl, ActScanSlaves);
    var b := AndThen(a, Dispatch(a.ctl, ActScanSlaves));
    AndThenGood(c, a, Dispatch(a.ctl, ActScanSlaves));
    GoodFits(c, b);
    DispatchGood(b.ctl, ActEnterMaintenance);
    AndThenGood(c, b, Dispatch(b.ctl, ActEnterMaintenance));
  }

  lemma GoodFits(c: Ctl, s: Step)
    requires GoodStep(c, s)
    ensures AdapterFits(s.ctl)
  {
  }

  lemma CycleGood(c: Ctl)
    requires AdapterFits(c) && NodesCovered(c)
    ensures GoodStep(c, DoRunOnce(c))
  {
    IdleGood(c, true);
    if c.state.Operational? {
      EncodedCovered(c.nodes);
      OutputsSilent(c.nodes);
      InputsSilent(AllEncoded(c.nodes));
      var s := DoRunOnce(c);
      hide AllOutputs;
      hide AllInputs;
      hide AllEncoded;
      hide AllUpdated;
      FilterNone(OnAdapter, s.events);
    }
  }

  lemma {:induction false} OutputsSilent(nodes: seq<Node>)
    requires AllCovered(nodes)
    ensures forall e | e in AllOutputs(nodes) :: e.WriteOutput?
    decreases |nodes|
  {
    hide Encoded;
    if nodes != [] { OutputsSilent(nodes[..|nodes| - 1]); }
  }

  lemma {:induction false} InputsSilent(nodes: seq<Node>)
    ensures forall e | e in AllInputs(nodes) :: e.ReadInput?
    decreases |nodes|
  {
    if nodes != [] { InputsSilent(nodes[..|nodes| - 1]); }
  }

  lemma CheckGood(c: Ctl)
    requires AdapterFits(c)
    ensures GoodStep(c, DoCheckSlaveStates(c))
  {
    hide EnterStopped;
    IdleGood(c, true);
    var o := CheckAll(c.bus, Watched(c.state));
    hide AllInState;
    assert Silent(c.bus, o);
    SilentMoves(c.bus, o);
    StoppedMoves(c, o.bus, Fault);
    if Watched(c.state) != 0 {
      AfterGood(c, o, if o.value then Step(c.(bus := o.bus), true, []) else EnterFault(c, o.bus));
    }
  }

  lemma StepGood(c: Ctl, call: Call)
    requires AdapterFits(c) && NodesCovered(c) && Proper(call)
    ensures GoodStep(c, Do(c, call))
  {
    hide Dispatch;
    hide DoInitialize;
    hide DoInitializeAdapter;
    hide DoRunOnce;
    hide DoCheckSlaveStates;
    hide SlaveNodes.SetTarget;
    hide SlaveNodes.SetPdoMapping;
    hide Covered;
    match call
    case Initialize(config) => InitializeGood(c, config);
    case InitializeAdapter(config) => InitializeAdapterGood(c, config);
    case Scan => DispatchGood(c, ActScanSlaves);
    case EnterMaintenance => DispatchGood(c, ActEnterMaintenance);
    case PrepareRun => DispatchGood(c, ActPrepareRun);
    case StartOperation => DispatchGood(c, ActStartOperation);
    case BackToMaintenance => DispatchGood(c, ActBackToMaintenance);
    case Stop => DispatchGood(c, ActStop);
    case RequestFault => DispatchGood(c, ActRequestFault);
    case RequestEmergencyStop => DispatchGood(c, ActRequestEmergencyStop);
    case RunOnce => CycleGood(c);
    case CheckSlaveStates => CheckGood(c);
    case _ =>
  }

  lemma {:induction false} RunGood(c: Ctl, calls: seq<Call>)
    requires AdapterFits(c) && NodesCovered(c) && AllProper(calls)
    ensures Moved(c.bus, Runs(c, calls).events, Runs(c, calls).ctl.bus) && AdapterFits(Runs(c, calls).ctl)
    decreases |calls|
  {
    hide Do;
    if calls != [] {
      var before := Runs(c, calls[..|calls| - 1]);
      RunGood(c, calls[..|calls| - 1]);
      StepGood(before.ctl, calls[|calls| - 1]);
      hide Moved;
      MovedCompose(c.bus, before.events, before.ctl.bus, Do(before.ctl, calls[|calls| - 1]).events,
          Do(before.ctl, calls[|calls| - 1]).ctl.bus);
    }
  }

  /** All events from construction to destruction: the controller stops, then its master closes. */
  ghost function Life(replies: seq<Reply>, snapshots: seq<map<int, nat>>, calls: seq<Call>): seq<Event>
    requires AllProper(calls)
  {
    var run := Runs(New(replies, snapshots), calls);
    var stop := DoStop(run.ctl);
    run.events + stop.events + Close(stop.ctl.bus).events
  }

  /** Openings and closings alternate, beginning with an opening and ending with a closing. */
  lemma AdapterPaired(replies: seq<Reply>, snapshots: seq<map<int, nat>>, calls: seq<Call>)
    requires AllProper(calls)
    ensures var adapter := AdapterCalls(Life(replies, snapshots, calls));
            && |adapter| % 2 == 0
            && forall i | 0 <= i < |adapter| :: adapter[i] == if i % 2 == 0 then InitAdapter(true) else CloseAdapter
  {
    hide AdapterCalls;
    var c := New(replies, snapshots);
    var run := Runs(c, calls);
    RunGood(c, calls);
    StepGood(run.ctl, Stop);
    var stop := DoStop(run.ctl);
    assert stop == Do(run.ctl, Stop);
    hide Do;
    hide DoStop;
    CloseMoves(stop.ctl.bus);
    MovedCompose(c.bus, run.events, run.ctl.bus, stop.events, stop.ctl.bus);
    MovedCompose(c.bus, run.events + stop.events, stop.ctl.bus, Close(stop.ctl.bus).events, Close(stop.ctl.bus).bus);
  }
}
