/** AL writes on an adapter that is not open: exactly when they happen. */
module ClosedAdapter {
  import opened EcTypes
  import opened BusModel
  import opened SlaveNodes
  import opened ControllerModel
  import opened ControllerRuns
  import opened AdapterPairing

  /** Whether the adapter is closed after these events, by the last opening or closing. */
  predicate ClosedAfter(closed: bool, events: seq<Event>) {
    if events == [] then closed
    else
      var last := events[|events| - 1];
      if last == CloseAdapter then true else if last == InitAdapter(true) then false
          else ClosedAfter(closed, events[..|events| - 1])
  }

  lemma {:induction false} ClosedAppend(closed: bool, a: seq<Event>, b: seq<Event>)
    ensures ClosedAfter(closed, a + b) == ClosedAfter(ClosedAfter(closed, a), b)
    decreases |b|
  {
    if b == [] {
      assert a + b == a;
    } else {
      assert (a + b)[..|a + b| - 1] == a + b[..|b| - 1];
      ClosedAppend(closed, a, b[..|b| - 1]);
    }
  }

  /** Every AL write of these events finds the adapter open. */
  predicate WritesOpen(closed: bool, events: seq<Event>) {
    events == []
    || (WritesOpen(closed, events[..|events| - 1])
        && (IsWrite(events[|events| - 1]) ==> !ClosedAfter(closed, events[..|events| - 1])))
  }

  lemma {:induction false} WritesOpenAt(closed: bool, events: seq<Event>, k: nat)
    requires WritesOpen(closed, events) && k < |events| && IsWrite(events[k])
    ensures !ClosedAfter(closed, events[..k])
    decreases |events|
  {
    var front := events[..|events| - 1];
    if k < |front| {
      WritesOpenAt(closed, front, k);
      assert front[..k] == events[..k];
    }
  }

  lemma {:induction false} OpenAppend(closed: bool, a: seq<Event>, b: seq<Event>)
    requires WritesOpen(closed, a) && WritesOpen(ClosedAfter(closed, a), b)
    ensures WritesOpen(closed, a + b)
    decreases |b|
  {
    if b == [] {
      assert a + b == a;
    } else {
      assert (a + b)[..|a + b| - 1] == a + b[..|b| - 1];
      OpenAppend(closed, a, b[..|b| - 1]);
      ClosedAppend(closed, a, b[..|b| - 1]);
    }
  }

  /** The events lead from one bus to the other, and write only with the adapter open. */
  predicate Safe(before: Bus, events: seq<Event>, after: Bus) {
    WritesOpen(before.closed, events) && ClosedAfter(before.closed, events) == after.closed
  }

  lemma SafeCompose(a: Bus, x: seq<Event>, b: Bus, y: seq<Event>, c: Bus)
    requires Safe(a, x, b) && Safe(b, y, c)
    ensures Safe(a, x + y, c)
  {
    OpenAppend(a.closed, x, y);
    ClosedAppend(a.closed, x, y);
  }

  // ---------- The parts ----------

  lemma {:induction false} SilentClosed(closed: bool, events: seq<Event>)
    requires forall e | e in events :: !OnAdapter(e)
    ensures ClosedAfter(closed, events) == closed
    decreases |events|
  {
    if events != [] {
      assert !OnAdapter(events[|events| - 1]);
      SilentClosed(closed, events[..|events| - 1]);
    }
  }

  lemma {:induction false} SilentOpen(closed: bool, events: seq<Event>)
    requires forall e | e in events :: !OnAdapter(e)
    requires !closed || forall e | e in events :: !IsWrite(e)
    ensures WritesOpen(closed, events) && ClosedAfter(closed, events) == closed
    decreases |events|
  {
    SilentClosed(closed, events);
    if events != [] {
      assert !closed || !IsWrite(events[|events| - 1]);
      SilentOpen(closed, events[..|events| - 1]);
    }
  }

  /** With the adapter open, or without a write, what leaves the adapter alone is safe. */
  lemma SilentSafe<T>(bus: Bus, o: Out<T>)
    requires Silent(bus, o) && (!bus.closed || forall e | e in o.events :: !IsWrite(e))
    ensures Safe(bus, o.events, o.bus)
  {
    SilentOpen(bus.closed, o.events);
  }

  lemma OneSafe(before: Bus, e: Event, after: Bus)
    requires !IsWrite(e)
    requires after.closed == if e == CloseAdapter then true else if e == InitAdapter(true) then false else before.closed
    ensures Safe(before, [e], after)
  {
    assert [e][..0] == [];
  }

  lemma NothingSafe(before: Bus, after: Bus)
    requires before.closed == after.closed
    ensures Safe(before, [], after)
  {
  }

  lemma CloseSafe(bus: Bus)
    ensures Safe(bus, Close(bus).events, Close(bus).bus)
  {
    hide Safe;
    if bus.closed { NothingSafe(bus, bus); } else { OneSafe(bus, CloseAdapter, Close(bus).bus); }
  }

  lemma AfterSafe<T>(bus: Bus, o: Out<T>, s: Step)
    requires Safe(bus, o.events, o.bus) && Safe(o.bus, s.events, s.ctl.bus)
    ensures Safe(bus, After(o, s).events, After(o, s).ctl.bus) && Safe(bus, After(o, Failed(s)).events, s.ctl.bus)
  {
    SafeCompose(bus, o.events, o.bus, s.events, s.ctl.bus);
  }

  lemma EnterSafe(c: Ctl, bus: Bus, state: ControllerState)
    ensures Safe(bus, Enter(c, bus, state).events, Enter(c, bus, state).ctl.bus)
  {
    OneSafe(bus, Entered(state), bus);
  }

  lemma StoppedSafe(c: Ctl, bus: Bus, state: ControllerState)
    ensures var s := EnterStopped(c, bus, state); Safe(bus, s.events, s.ctl.bus)
  {
    SnapshotKeepsBus(bus, 2 * bus.count);
    OneSafe(bus, Entered(state), Snapshot(bus, 2 * bus.count));
  }

  /** A shutdown writes nothing before Maintenance. */
  lemma NoRequests(state: ControllerState, bus: Bus)
    requires state.Uninitialized? || state.AdapterReady? || state.Scanned?
    ensures ShutdownRequests(state, bus).events == []
  {
    hide Retry;
    hide RequestState;
  }

  lemma ShutdownSafe(c: Ctl, bus: Bus)
    requires !bus.closed || c.state.Uninitialized? || c.state.AdapterReady? || c.state.Scanned?
    ensures Safe(bus, DoShutdown(c, bus).events, DoShutdown(c, bus).ctl.bus)
  {
    hide Safe;
    hide ShutdownRequests;
    var requests := ShutdownRequests(c.state, bus);
    var close := Close(requests.bus);
    ShutdownSilent(c.state, bus);
    if bus.closed { NoRequests(c.state, bus); }
    SilentSafe(bus, requests);
    CloseSafe(requests.bus);
    EnterSafe(c.(nodes := []), close.bus, Uninitialized);
    AfterSafe(requests.bus, close, Enter(c.(nodes := []), close.bus, Uninitialized));
    AfterSafe(bus, requests, After(close, Enter(c.(nodes := []), close.bus, Uninitialized)));
  }

  // ---------- Steps ----------

  ghost predicate SafeStep(c: Ctl, s: Step) { Safe(c.bus, s.events, s.ctl.bus) }

  lemma IdleSafe(c: Ctl, ok: bool)
    ensures SafeStep(c, Step(c, ok, []))
  {
  }

  lemma InitSafe(c: Ctl)
    requires c.state.Uninitialized? && c.bus.closed
    ensures SafeStep(c, DoInit(c))
  {
    hide Safe;
    var o := BusModel.Initialize(c.bus, c.config.useDc);
    OneSafe(c.bus, InitAdapter(o.value), o.bus);
    EnterSafe(c, o.bus, AdapterReady);
    AfterSafe(c.bus, o, Enter(c, o.bus, AdapterReady));
  }

  lemma ScanSafe(c: Ctl)
    requires c.state.AdapterReady?
    ensures SafeStep(c, DoScan(c))
  {
    hide Safe;
    hide AsExpected;
    hide InfosOf;
    hide DoShutdown;
    var o := ScanSlaves(c.bus);
    var scanned := c.(infos := o.value);
    SilentSafe(c.bus, o);
    ShutdownSafe(scanned, o.bus);
    EnterSafe(scanned, o.bus, Scanned);
    AfterSafe(c.bus, o, if AsExpected(c.config, o.value) then Enter(scanned, o.bus, Scanned)
        else DoShutdown(scanned, o.bus));
  }

  lemma EnterMaintenanceSafe(c: Ctl)
    requires c.state.Scanned? && !c.bus.closed
    ensures SafeStep(c, DoEnterMaintenance(c))
  {
    hide Safe;
    hide Retry;
    hide AllReach;
    hide InfosOf;
    hide NewNodes;
    hide DoShutdown;
    var request := RequestStateWithRetry(c.bus, 0, EC_STATE_PRE_OP);
    var o := AllReach(request, EC_STATE_PRE_OP);
    RetrySilent(c.bus, 0, EC_STATE_PRE_OP, MAX_RETRIES + 1);
    ReachSilent(c.bus, request, EC_STATE_PRE_OP);
    SilentSafe(c.bus, o);
    ShutdownSafe(c, o.bus);
    var infos := InfosOf(o.bus, o.bus.count);
    var entered := c.(infos := infos, nodes := NewNodes(infos));
    EnterSafe(entered, o.bus, Maintenance);
    AfterSafe(c.bus, o, if o.value then Enter(entered, o.bus, Maintenance) else DoShutdown(c, o.bus));
  }

  lemma WorkSafe<T>(c: Ctl, after: Ctl, o: Out<T>, state: ControllerState, ok: bool)
    requires !c.bus.closed && Silent(c.bus, o)
    ensures SafeStep(c, After(o, if ok then Enter(after, o.bus, state) else Failed(EnterFault(after, o.bus))))
  {
    hide Safe;
    hide Snapshot;
    SilentSafe(c.bus, o);
    EnterSafe(after, o.bus, state);
    StoppedSafe(after, o.bus, Fault);
    AfterSafe(c.bus, o, if ok then Enter(after, o.bus, state) else EnterFault(after, o.bus));
  }

  lemma PrepareSafe(c: Ctl)
    requires c.state.Maintenance? && !c.bus.closed
    ensures SafeStep(c, DoPrepareRun(c))
  {
    hide ReachSafeOp;
    hide AllConfigured;
    hide SafeStep;
    SafeOpSilent(c.bus);
    var first := Out(c.bus, true, [NodesConfigured]);
    var o := Then(first, ReachSafeOp(c.bus));
    SilentThen(c.bus, first, ReachSafeOp(c.bus));
    WorkSafe(c, c.(nodes := AllConfigured(c.nodes)), o, ReadyToRun, o.value);
  }

  /** Every action but a stop of a stopped controller with a closed adapter. */
  lemma DispatchSafe(c: Ctl, action: Action)
    requires AdapterFits(c) && !(action.ActStop? && Stopped(c.state) && c.bus.closed)
    ensures SafeStep(c, Dispatch(c, action))
  {
    hide AllReach;
    hide RequestState;
    hide ReachPreOp;
    hide DoInit;
    hide DoScan;
    hide DoEnterMaintenance;
    hide DoPrepareRun;
    hide DoShutdown;
    hide EnterStopped;
    hide Safe;
    IdleSafe(c, false);
    match action
    case ActRequestEmergencyStop => StoppedSafe(c, c.bus, EmergencyStop);
    case ActRequestFault => StoppedSafe(c, c.bus, Fault);
    case ActInitializeAdapter => if c.state.Uninitialized? { InitSafe(c); }
    case ActScanSlaves => if c.state.AdapterReady? { ScanSafe(c); }
    case ActEnterMaintenance => if c.state.Scanned? { EnterMaintenanceSafe(c); }
    case ActPrepareRun => if c.state.Maintenance? { PrepareSafe(c); }
    case ActStartOperation =>
      if c.state.ReadyToRun? {
        RequestSilent(c.bus, EC_STATE_OPERATIONAL);
        var o := AllReach(RequestState(c.bus, 0, EC_STATE_OPERATIONAL), EC_STATE_OPERATIONAL);
        WorkSafe(c, c, o, Operational, o.value);
      }
    case ActBackToMaintenance =>
      if c.state.ReadyToRun? || c.state.Operational? {
        PreOpSilent(c);
        WorkSafe(c, c, ReachPreOp(c.state, c.bus), Maintenance, ReachPreOp(c.state, c.bus).value);
      }
    case ActStop => ShutdownSafe(c, c.bus);
  }

  lemma AndThenSafe(c: Ctl, a: Step, b: Step)
    requires SafeStep(c, a) && SafeStep(a.ctl, b)
    ensures SafeStep(c, AndThen(a, b))
  {
    hide Safe;
    SafeCompose(c.bus, a.events, a.ctl.bus, b.events, b.ctl.bus);
  }

  lemma InitializeSafe(c: Ctl, config: Config)
    requires AdapterFits(c)
    ensures SafeStep(c, DoInitializeAdapter(c, config)) && SafeStep(c, DoInitialize(c, config))
  {
    hide Dispatch;
    hide AndThen;
    hide Safe;
    hide Moved;
    var a := DoInitializeAdapter(c, config);
    if c.state.Uninitialized? { DispatchSafe(c.(config := config), ActInitializeAdapter); } else { IdleSafe(c, false); }
    InitializeAdapterGood(c, config);
    hide DoInitializeAdapter;
    DispatchSafe(a.ctl, ActScanSlaves);
    DispatchGood(a.ctl, ActScanSlaves);
    AndThenSafe(c, a, Dispatch(a.ctl, ActScanSlaves));
    AndThenGood(c, a, Dispatch(a.ctl, ActScanSlaves));
    var b := AndThen(a, Dispatch(a.ctl, ActScanSlaves));
    DispatchSafe(b.ctl, ActEnterMaintenance);
    AndThenSafe(c, b, Dispatch(b.ctl, ActEnterMaintenance));
  }

  lemma CycleSafe(c: Ctl)
    requires AdapterFits(c) && NodesCovered(c)
    ensures SafeStep(c, DoRunOnce(c))
  {
    IdleSafe(c, true);
    if c.state.Operational? {
      EncodedCovered(c.nodes);
      OutputsSilent(c.nodes);
      InputsSilent(AllEncoded(c.nodes));
      var s := DoRunOnce(c);
      hide AllOutputs;
      hide AllInputs;
      hide AllEncoded;
      hide AllUpdated;
      SilentOpen(false, s.events);
    }
  }

  lemma CheckSafe(c: Ctl)
    requires AdapterFits(c)
    ensures SafeStep(c, DoCheckSlaveStates(c))
  {
    hide EnterStopped;
    hide Safe;
    hide AllInState;
    IdleSafe(c, true);
    if Watched(c.state) != 0 {
      var o := CheckAll(c.bus, Watched(c.state));
      assert Silent(c.bus, o);
      SilentSafe(c.bus, o);
      StoppedSafe(c, o.bus, Fault);
      NothingSafe(o.bus, o.bus);
      AfterSafe(c.bus, o, if o.value then Step(c.(bus := o.bus), true, []) else EnterFault(c, o.bus));
    }
  }

  lemma DoSafe(c: Ctl, call: Call)
    requires AdapterFits(c) && NodesCovered(c) && Proper(call) && !(call.Stop? && Stopped(c.state) && c.bus.closed)
    ensures SafeStep(c, Do(c, call))
  {
    hide Dispatch;
    hide DoInitialize;
    hide DoInitializeAdapter;
    hide DoRunOnce;
    hide DoCheckSlaveStates;
    hide SlaveNodes.SetTarget;
    hide SlaveNodes.SetPdoMapping;
    hide Covered;
    match call
    case Initialize(config) => InitializeSafe(c, config);
    case InitializeAdapter(config) => InitializeSafe(c, config);
    case Scan => DispatchSafe(c, ActScanSlaves);
    case EnterMaintenance => DispatchSafe(c, ActEnterMaintenance);
    case PrepareRun => DispatchSafe(c, ActPrepareRun);
    case StartOperation => DispatchSafe(c, ActStartOperation);
    case BackToMaintenance => DispatchSafe(c, ActBackToMaintenance);
    case Stop => DispatchSafe(c, ActStop);
    case RequestFault => DispatchSafe(c, ActRequestFault);
    case RequestEmergencyStop => DispatchSafe(c, ActRequestEmergencyStop);
    case RunOnce => CycleSafe(c);
    case CheckSlaveStates => CheckSafe(c);
    case _ =>
  }

  lemma StoppedRequests(state: ControllerState, bus: Bus)
    requires Stopped(state)
    ensures var o := ShutdownRequests(state, bus);
            && o.events == [WriteState(0, EC_STATE_INIT), StateCheck(0, Next(bus).states)]
            && o.bus.closed == bus.closed
  {
    hide Retry;
    hide StateOf;
    hide Next;
  }

  /** The one case left: Stop in a stopped state whose adapter is closed writes INIT first, and nothing else. */
  lemma StopWhenClosed(c: Ctl)
    requires Stopped(c.state) && c.bus.closed
    ensures var e := DoStop(c).events;
            && |e| == 3 && e[0] == WriteState(0, EC_STATE_INIT) && !IsWrite(e[1]) && !IsWrite(e[2])
            && !OnAdapter(e[0]) && !OnAdapter(e[1]) && !OnAdapter(e[2])
            && DoStop(c).ctl.bus.closed
  {
    hide ShutdownRequests;
    StoppedRequests(c.state, c.bus);
    var s := DoStop(c);
    assert s.events == [WriteState(0, EC_STATE_INIT), StateCheck(0, Next(c.bus).states), Entered(Uninitialized)];
  }

  // ---------- Runs ----------

  lemma {:induction false} ClosedOverRun(c: Ctl, calls: seq<Call>)
    requires AdapterFits(c) && NodesCovered(c) && AllProper(calls)
    ensures ClosedAfter(c.bus.closed, Runs(c, calls).events) == Runs(c, calls).ctl.bus.closed
    decreases |calls|
  {
    hide Do;
    if calls != [] {
      var before, call := Runs(c, calls[..|calls| - 1]), calls[|calls| - 1];
      ClosedOverRun(c, calls[..|calls| - 1]);
      RunGood(c, calls[..|calls| - 1]);
      ClosedOverStep(before.ctl, call);
      hide ClosedAfter;
      ClosedAppend(c.bus.closed, before.events, Do(before.ctl, call).events);
    }
  }

  lemma ClosedOverStep(c: Ctl, call: Call)
    requires AdapterFits(c) && NodesCovered(c) && Proper(call)
    ensures ClosedAfter(c.bus.closed, Do(c, call).events) == Do(c, call).ctl.bus.closed
  {
    hide Do;
    hide DoStop;
    if call.Stop? && Stopped(c.state) && c.bus.closed {
      DoesStop(c);
      StopWhenClosed(c);
      SilentClosed(true, DoStop(c).events);
    } else {
      DoSafe(c, call);
    }
  }

  lemma StepWritesClosedIff(c: Ctl, call: Call, k: nat)
    requires AdapterFits(c) && NodesCovered(c) && Proper(call) && k < |Do(c, call).events|
    ensures IsWrite(Do(c, call).events[k]) && ClosedAfter(c.bus.closed, Do(c, call).events[..k]) <==>
              k == 0 && call.Stop? && Stopped(c.state) && c.bus.closed
    ensures call.Stop? && Stopped(c.state) && c.bus.closed ==> Do(c, call).events[0] == WriteState(0, EC_STATE_INIT)
  {
    hide Do;
    hide DoStop;
    if call.Stop? && Stopped(c.state) && c.bus.closed {
      DoesStop(c);
      StopWhenClosed(c);
    } else {
      DoSafe(c, call);
      if IsWrite(Do(c, call).events[k]) { WritesOpenAt(c.bus.closed, Do(c, call).events, k); }
    }
  }

  /** In every run from a fresh controller, an AL state is written on a closed adapter exactly in one place: it is
      the INIT with which a Stop begins in Fault or EmergencyStop while the adapter is closed. The event is number k
      of call m. */
  lemma WritesClosedIff(replies: seq<Reply>, snapshots: seq<map<int, nat>>, calls: seq<Call>, m: nat, k: nat)
    requires AllProper(calls) && m < |calls|
    requires k < |Do(Runs(New(replies, snapshots), calls[..m]).ctl, calls[m]).events|
    ensures var past := Runs(New(replies, snapshots), calls[..m]);
            var e := Do(past.ctl, calls[m]).events;
            && (IsWrite(e[k]) && ClosedAfter(true, past.events + e[..k]) <==>
                  k == 0 && calls[m].Stop? && Stopped(past.ctl.state) && past.ctl.bus.closed)
            && (IsWrite(e[k]) && ClosedAfter(true, past.events + e[..k]) ==> e[k] == WriteState(0, EC_STATE_INIT))
  {
    hide Do;
    hide ClosedAfter;
    var c := New(replies, snapshots);
    var past := Runs(c, calls[..m]);
    RunGood(c, calls[..m]);
    ClosedOverRun(c, calls[..m]);
    hide Runs;
    var e := Do(past.ctl, calls[m]).events;
    StepWritesClosedIff(past.ctl, calls[m], k);
    ClosedAppend(true, past.events, e[..k]);
  }

  /** The last state that was not a stopped one. */
  function LastRunning(states: seq<ControllerState>): ControllerState {
    if states == [] then Uninitialized
    else if Stopped(states[|states| - 1]) then LastRunning(states[..|states| - 1])
    else states[|states| - 1]
  }

  /** A stopped controller's adapter is closed exactly if it was uninitialized when it was stopped. */
  lemma {:induction false} ClosedInFaultIff(replies: seq<Reply>, snapshots: seq<map<int, nat>>, calls: seq<Call>)
    requires AllProper(calls)
    ensures var r := Runs(New(replies, snapshots), calls);
            && (!Stopped(r.ctl.state) ==> LastRunning(r.states) == r.ctl.state)
            && (Stopped(r.ctl.state) ==> (r.ctl.bus.closed <==> LastRunning(r.states).Uninitialized?))
    decreases |calls|
  {
    hide Do;
    if calls != [] {
      var c := New(replies, snapshots);
      var front, last := calls[..|calls| - 1], calls[|calls| - 1];
      ClosedInFaultIff(replies, snapshots, front);
      RunGood(c, front);
      var before := Runs(c, front);
      if Stopped(Do(before.ctl, last).ctl.state) { StoppedKeepsAdapter(before.ctl, last); }
      LastRunningStep(before.states, Do(before.ctl, last).ctl.state);
    }
  }

  lemma LastRunningStep(states: seq<ControllerState>, next: ControllerState)
    ensures LastRunning(states + [next]) == if Stopped(next) then LastRunning(states) else next
  {
    assert (states + [next])[..|states|] == states;
  }

  lemma FailureKeeps<T>(c: Ctl, after: Ctl, o: Out<T>, state: ControllerState, ok: bool)
    requires Silent(c.bus, o)
    ensures After(o, if ok then Enter(after, o.bus, state) else Failed(EnterFault(after, o.bus))).ctl.bus.closed ==
        c.bus.closed
  {
    hide Snapshot;
    StoppedMoves(after, o.bus, Fault);
  }

  lemma PrepareKeeps(c: Ctl)
    ensures DoPrepareRun(c).ctl.bus.closed == c.bus.closed
  {
    hide ReachSafeOp;
    hide AllConfigured;
    hide EnterStopped;
    SafeOpSilent(c.bus);
    var first := Out(c.bus, true, [NodesConfigured]);
    var o := Then(first, ReachSafeOp(c.bus));
    SilentThen(c.bus, first, ReachSafeOp(c.bus));
    FailureKeeps(c, c.(nodes := AllConfigured(c.nodes)), o, ReadyToRun, o.value);
  }

  lemma StartKeeps(c: Ctl)
    ensures DoStartOperation(c).ctl.bus.closed == c.bus.closed
  {
    hide AllReach;
    hide RequestState;
    hide EnterStopped;
    RequestSilent(c.bus, EC_STATE_OPERATIONAL);
    var o := AllReach(RequestState(c.bus, 0, EC_STATE_OPERATIONAL), EC_STATE_OPERATIONAL);
    FailureKeeps(c, c, o, Operational, o.value);
  }

  lemma BackKeeps(c: Ctl)
    ensures DoBackToMaintenance(c).ctl.bus.closed == c.bus.closed
  {
    hide ReachPreOp;
    hide EnterStopped;
    PreOpSilent(c);
    FailureKeeps(c, c, ReachPreOp(c.state, c.bus), Maintenance, ReachPreOp(c.state, c.bus).value);
  }

  lemma CheckKeeps(c: Ctl)
    ensures DoCheckSlaveStates(c).ctl.bus.closed == c.bus.closed
  {
    hide AllInState;
    hide EnterStopped;
    StoppedMoves(c, CheckAll(c.bus, Watched(c.state)).bus, Fault);
  }

  /** No step into, or within, the stopped states opens or closes the adapter. */
  lemma StoppedKeepsAdapter(c: Ctl, call: Call)
    requires NodesCovered(c) && Proper(call) && Stopped(Do(c, call).ctl.state)
    ensures Do(c, call).ctl.bus.closed == c.bus.closed
  {
    hide DoInit;
    hide DoScan;
    hide DoEnterMaintenance;
    hide DoPrepareRun;
    hide DoStartOperation;
    hide DoBackToMaintenance;
    hide DoCheckSlaveStates;
    hide EnterStopped;
    hide ShutdownRequests;
    hide SlaveNodes.SetTarget;
    hide SlaveNodes.SetPdoMapping;
    hide AllEncoded;
    hide AllUpdated;
    match call
    case RequestFault => StoppedMoves(c, c.bus, Fault);
    case RequestEmergencyStop => StoppedMoves(c, c.bus, EmergencyStop);
    case PrepareRun => PrepareKeeps(c);
    case StartOperation => StartKeeps(c);
    case BackToMaintenance => BackKeeps(c);
    case CheckSlaveStates => CheckKeeps(c);
    case Initialize(_) => Outcome(c, call);
    case InitializeAdapter(_) => Outcome(c, call);
    case Scan => Outcome(c, call);
    case EnterMaintenance => Outcome(c, call);
    case _ =>
  }

  /** An input that shows it: a fault requested before the adapter was ever opened, and then Stop. */
  lemma InitWrittenUnopened(replies: seq<Reply>, snapshots: seq<map<int, nat>>)
    ensures var r := Runs(New(replies, snapshots), [RequestFault, Stop]);
            && WriteState(0, EC_STATE_INIT) in r.events
            && forall e | e in r.events :: !OnAdapter(e)
  {
    hide Snapshot;
    hide DoStop;
    var c := New(replies, snapshots);
    assert Do(c, RequestFault).events == [Entered(Fault)];
    var faulted := Do(c, RequestFault).ctl;
    StoppedMoves(c, c.bus, Fault);
    StopWhenClosed(faulted);
    hide EnterStopped;
    TwoCalls(c, RequestFault, Stop);
  }

  lemma TwoCalls(c: Ctl, x: Call, y: Call)
    requires NodesCovered(c) && Proper(x) && Proper(y)
    ensures NodesCovered(Do(c, x).ctl) && Runs(c, [x, y]).events == Do(c, x).events + Do(Do(c, x).ctl, y).events
  {
    hide Do;
    hide Runs;
    DoCovered(c, x);
    NoRun(c);
    RunOneMore(c, [], x);
    RunOneMore(c, [x], y);
    assert [] + [x] == [x] && [x] + [y] == [x, y];
  }
}
