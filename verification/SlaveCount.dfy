/** Where a stopped controller can still be told from a new one: the number of slaves, until they are scanned again. */
module SlaveCount {
  import opened EcTypes
  import opened BusModel
  import opened SlaveNodes
  import opened ControllerModel
  import opened ControllerRuns
  import opened AdapterPairing
  import opened Restart

  predicate Scans(events: seq<Event>) { exists e :: e in events && e.ConfigInit? }

  lemma ScansAppend(a: seq<Event>, b: seq<Event>)
    ensures Scans(a + b) <==> Scans(a) || Scans(b)
  {
    if Scans(a) {
      var e :| e in a && e.ConfigInit?;
      assert e in a + b;
    }
    if Scans(b) {
      var e :| e in b && e.ConfigInit?;
      assert e in a + b;
    }
  }

  // ---------- Calls that do not scan ----------

  predicate KeepsCount<T>(bus: Bus, o: Out<T>) { o.bus.count == bus.count && !Scans(o.events) }

  lemma ThenKeeps<T, U>(bus: Bus, a: Out<T>, b: Out<U>)
    requires KeepsCount(bus, a) && KeepsCount(a.bus, b)
    ensures KeepsCount(bus, Then(a, b))
  {
    ScansAppend(a.events, b.events);
  }

  lemma RoundKeepsCount(bus: Bus, slave: int, state: nat)
    ensures KeepsCount(bus, RetryRound(bus, slave, state))
  {
    hide HasErrorBit;
    hide StateOf;
  }

  lemma {:induction false} RetryKeepsCount(bus: Bus, slave: int, state: nat, rounds: nat)
    ensures KeepsCount(bus, Retry(bus, slave, state, rounds))
    decreases rounds
  {
    hide RetryRound;
    if rounds > 0 {
      var one := RetryRound(bus, slave, state);
      RoundKeepsCount(bus, slave, state);
      if !one.value {
        RetryKeepsCount(one.bus, slave, state, rounds - 1);
        ScansAppend(one.events, Retry(one.bus, slave, state, rounds - 1).events);
      }
    }
  }

  lemma RequestKeepsCount(bus: Bus, state: nat)
    ensures KeepsCount(bus, RequestState(bus, 0, state))
  {
    hide StateOf;
  }

  lemma ReachKeepsCount(bus: Bus, request: Out<bool>, state: nat)
    requires KeepsCount(bus, request)
    ensures KeepsCount(bus, AllReach(request, state))
  {
    hide AllInState;
    ThenKeeps(bus, request, CheckAll(request.bus, state));
  }

  lemma SafeOpKeepsCount(bus: Bus)
    ensures KeepsCount(bus, ReachSafeOp(bus))
  {
    hide AllReach;
    hide Scans;
    var mapped := ConfigureProcessData(bus);
    ConfigurationKeepsCount(bus);
    var request := RequestState(mapped.bus, 0, EC_STATE_SAFE_OP);
    var safe := AllReach(request, EC_STATE_SAFE_OP);
    RequestKeepsCount(mapped.bus, EC_STATE_SAFE_OP);
    ReachKeepsCount(mapped.bus, request, EC_STATE_SAFE_OP);
    ConfigurationKeepsCount(safe.bus);
    ThenKeeps(bus, mapped, safe);
    ThenKeeps(bus, Then(mapped, safe), ConfigureDc(safe.bus));
  }

  lemma ConfigurationKeepsCount(bus: Bus)
    ensures KeepsCount(bus, ConfigureProcessData(bus)) && KeepsCount(bus, ConfigureDc(bus))
  {
  }

  lemma PreOpKeepsCount(state: ControllerState, bus: Bus)
    ensures KeepsCount(bus, ReachPreOp(state, bus))
  {
    hide Retry;
    hide AllReach;
    hide RequestState;
    var safe := if state.Operational? then RequestState(bus, 0, EC_STATE_SAFE_OP) else Skip(bus);
    RequestKeepsCount(bus, EC_STATE_SAFE_OP);
    RetryKeepsCount(safe.bus, 0, EC_STATE_PRE_OP, MAX_RETRIES + 1);
    var request := RequestStateWithRetry(safe.bus, 0, EC_STATE_PRE_OP);
    ReachKeepsCount(safe.bus, request, EC_STATE_PRE_OP);
    ThenKeeps(bus, safe, AllReach(request, EC_STATE_PRE_OP));
  }

  lemma RequestsKeepCount(state: ControllerState, bus: Bus)
    ensures KeepsCount(bus, ShutdownRequests(state, bus))
  {
    hide Retry;
    hide RequestState;
    var a := if state.Operational? then RequestState(bus, 0, EC_STATE_SAFE_OP) else Skip(bus);
    var b := if Working(state) then RequestStateWithRetry(a.bus, 0, EC_STATE_PRE_OP) else Skip(a.bus);
    var c := if Working(state) || Stopped(state) then RequestState(b.bus, 0, EC_STATE_INIT) else Skip(b.bus);
    RequestKeepsCount(bus, EC_STATE_SAFE_OP);
    RetryKeepsCount(a.bus, 0, EC_STATE_PRE_OP, MAX_RETRIES + 1);
    RequestKeepsCount(b.bus, EC_STATE_INIT);
    ThenKeeps(bus, a, b);
    ThenKeeps(bus, Then(a, b), c);
  }

  // ---------- Steps ----------

  predicate StepKeeps(bus: Bus, s: Step) { s.ctl.bus.count == bus.count && !Scans(s.events) }

  lemma AfterKeeps<T>(bus: Bus, o: Out<T>, s: Step)
    requires KeepsCount(bus, o) && StepKeeps(o.bus, s)
    ensures StepKeeps(bus, After(o, s)) && StepKeeps(bus, After(o, Failed(s)))
  {
    ScansAppend(o.events, s.events);
  }

  lemma EnterKeeps(c: Ctl, bus: Bus, state: ControllerState)
    ensures StepKeeps(bus, Enter(c, bus, state)) && StepKeeps(bus, EnterStopped(c, bus, state))
  {
    SnapshotKeepsBus(bus, 2 * bus.count);
  }

  lemma ShutdownKeeps(c: Ctl, bus: Bus)
    ensures StepKeeps(bus, DoShutdown(c, bus))
  {
    hide ShutdownRequests;
    var requests := ShutdownRequests(c.state, bus);
    var close := Close(requests.bus);
    RequestsKeepCount(c.state, bus);
    var last := Enter(c.(nodes := []), close.bus, Uninitialized);
    AfterKeeps(requests.bus, close, last);
    AfterKeeps(bus, requests, After(close, last));
  }

  /** A scan takes the count from the bus, whatever becomes of it. */
  lemma ScanCounts(c: Ctl)
    requires c.state.AdapterReady?
    ensures DoScan(c).ctl.bus.count == Next(c.bus).count && Scans(DoScan(c).events)
  {
    hide AsExpected;
    hide InfosOf;
    hide DoShutdown;
    var o := ScanSlaves(c.bus);
    ShutdownKeeps(c.(infos := o.value), o.bus);
    assert DoScan(c).events[0] == ConfigInit(Next(c.bus).ret);
    assert DoScan(c).events[0] in DoScan(c).events;
  }

  lemma EnterMaintenanceKeeps(c: Ctl)
    requires c.state.Scanned?
    ensures StepKeeps(c.bus, DoEnterMaintenance(c))
  {
    hide Retry;
    hide AllReach;
    hide InfosOf;
    hide NewNodes;
    hide DoShutdown;
    hide Scans;
    var request := RequestStateWithRetry(c.bus, 0, EC_STATE_PRE_OP);
    var o := AllReach(request, EC_STATE_PRE_OP);
    RetryKeepsCount(c.bus, 0, EC_STATE_PRE_OP, MAX_RETRIES + 1);
    ReachKeepsCount(c.bus, request, EC_STATE_PRE_OP);
    ShutdownKeeps(c, o.bus);
    var infos := InfosOf(o.bus, o.bus.count);
    var entered := c.(infos := infos, nodes := NewNodes(infos));
    EnterKeeps(entered, o.bus, Maintenance);
    AfterKeeps(c.bus, o, if o.value then Enter(entered, o.bus, Maintenance) else DoShutdown(c, o.bus));
  }

  lemma WorkKeeps<T>(c: Ctl, after: Ctl, o: Out<T>, state: ControllerState, ok: bool)
    requires KeepsCount(c.bus, o)
    ensures StepKeeps(c.bus, After(o, if ok then Enter(after, o.bus, state) else Failed(EnterFault(after, o.bus))))
  {
    hide Snapshot;
    EnterKeeps(after, o.bus, state);
    EnterKeeps(after, o.bus, Fault);
    AfterKeeps(c.bus, o, if ok then Enter(after, o.bus, state) else EnterFault(after, o.bus));
  }

  lemma PrepareKeeps(c: Ctl)
    requires c.state.Maintenance?
    ensures StepKeeps(c.bus, DoPrepareRun(c))
  {
    hide ReachSafeOp;
    hide AllConfigured;
    hide StepKeeps;
    SafeOpKeepsCount(c.bus);
    var first := Out(c.bus, true, [NodesConfigured]);
    var o := Then(first, ReachSafeOp(c.bus));
    ThenKeeps(c.bus, first, ReachSafeOp(c.bus));
    WorkKeeps(c, c.(nodes := AllConfigured(c.nodes)), o, ReadyToRun, o.value);
  }

  /** Everything but a scan where it is allowed. */
  lemma DispatchKeeps(c: Ctl, action: Action)
    requires !(action.ActScanSlaves? && c.state.AdapterReady?)
    ensures StepKeeps(c.bus, Dispatch(c, action))
  {
    hide AllReach;
    hide RequestState;
    hide ReachPreOp;
    hide DoEnterMaintenance;
    hide DoPrepareRun;
    hide DoShutdown;
    hide EnterStopped;
    match action
    case ActRequestEmergencyStop => EnterKeeps(c, c.bus, EmergencyStop);
    case ActRequestFault => EnterKeeps(c, c.bus, Fault);
    case ActEnterMaintenance => if c.state.Scanned? { EnterMaintenanceKeeps(c); }
    case ActPrepareRun => if c.state.Maintenance? { PrepareKeeps(c); }
    case ActStartOperation =>
      if c.state.ReadyToRun? {
        var request := RequestState(c.bus, 0, EC_STATE_OPERATIONAL);
        RequestKeepsCount(c.bus, EC_STATE_OPERATIONAL);
        ReachKeepsCount(c.bus, request, EC_STATE_OPERATIONAL);
        var o := AllReach(request, EC_STATE_OPERATIONAL);
        WorkKeeps(c, c, o, Operational, o.value);
      }
    case ActBackToMaintenance =>
      if c.state.ReadyToRun? || c.state.Operational? {
        PreOpKeepsCount(c.state, c.bus);
        WorkKeeps(c, c, ReachPreOp(c.state, c.bus), Maintenance, ReachPreOp(c.state, c.bus).value);
      }
    case ActStop => ShutdownKeeps(c, c.bus);
    case _ =>
  }

  lemma CycleKeepsCount(c: Ctl)
    requires NodesCovered(c)
    ensures StepKeeps(c.bus, DoRunOnce(c))
  {
    if c.state.Operational? {
      EncodedCovered(c.nodes);
      OutputsSilent(c.nodes);
      InputsSilent(AllEncoded(c.nodes));
    }
    hide AllOutputs;
    hide AllInputs;
    hide AllEncoded;
    hide AllUpdated;
  }

  lemma CheckKeepsCount(c: Ctl)
    ensures StepKeeps(c.bus, DoCheckSlaveStates(c))
  {
    hide AllInState;
    hide EnterStopped;
    if Watched(c.state) != 0 {
      var o := CheckAll(c.bus, Watched(c.state));
      EnterKeeps(c, o.bus, Fault);
      AfterKeeps(c.bus, o, if o.value then Step(c.(bus := o.bus), true, []) else EnterFault(c, o.bus));
    }
  }

  // ---------- Two controllers ----------

  /** After the step the counts agree if it scanned; otherwise both are what they were. */
  predicate CountsFollow(c: Bus, d: Bus, s: Step, t: Step) {
    if Scans(s.events) then s.ctl.bus.count == t.ctl.bus.count
    else s.ctl.bus.count == c.count && t.ctl.bus.count == d.count
  }

  lemma KeptFollow(c: Bus, d: Bus, s: Step, t: Step)
    requires StepKeeps(c, s) && StepKeeps(d, t)
    ensures CountsFollow(c, d, s, t)
  {
  }

  lemma DispatchFollows(c: Ctl, d: Ctl, action: Action)
    requires Equivalent(c, d)
    ensures CountsFollow(c.bus, d.bus, Dispatch(c, action), Dispatch(d, action))
  {
    hide DoScan;
    if action.ActScanSlaves? && c.state.AdapterReady? {
      ScanCounts(c);
      ScanCounts(d);
    } else {
      DispatchKeeps(c, action);
      DispatchKeeps(d, action);
      hide Dispatch;
    }
  }

  lemma AdapterKeepsCount(c: Ctl, config: Config)
    ensures StepKeeps(c.bus, DoInitializeAdapter(c, config))
  {
    if c.state.Uninitialized? { DispatchKeeps(c.(config := config), ActInitializeAdapter); }
    hide Dispatch;
  }

  lemma AndThenFollows(c: Bus, d: Bus, s: Step, t: Step, action: Action)
    requires CountsFollow(c, d, s, t) && SameStep(s, t) && !action.ActInitializeAdapter?
    ensures CountsFollow(c, d, AndThen(s, Dispatch(s.ctl, action)), AndThen(t, Dispatch(t.ctl, action)))
  {
    DispatchFollows(s.ctl, t.ctl, action);
    SameDispatch(s.ctl, t.ctl, action);
    hide Dispatch;
    hide Equivalent;
    ScansAppend(s.events, Dispatch(s.ctl, action).events);
    hide Scans;
  }

  lemma InitializeFollows(c: Ctl, d: Ctl, config: Config)
    requires Equivalent(c, d)
    ensures CountsFollow(c.bus, d.bus, DoInitializeAdapter(c, config), DoInitializeAdapter(d, config))
    ensures CountsFollow(c.bus, d.bus, DoInitialize(c, config), DoInitialize(d, config))
  {
    hide Dispatch;
    hide AndThen;
    hide SameStep;
    hide DoInitializeAdapter;
    hide CountsFollow;
    hide StepKeeps;
    SameInitializeAdapter(c, d, config);
    AdapterKeepsCount(c, config);
    AdapterKeepsCount(d, config);
    var s, t := DoInitializeAdapter(c, config), DoInitializeAdapter(d, config);
    KeptFollow(c.bus, d.bus, s, t);
    AndThenFollows(c.bus, d.bus, s, t, ActScanSlaves);
    SameAndThen(s, t, ActScanSlaves);
    AndThenFollows(c.bus, d.bus, AndThen(s, Dispatch(s.ctl, ActScanSlaves)),
        AndThen(t, Dispatch(t.ctl, ActScanSlaves)), ActEnterMaintenance);
  }

  lemma DoFollows(c: Ctl, d: Ctl, call: Call)
    requires Equivalent(c, d) && NodesCovered(c) && NodesCovered(d) && Proper(call)
    ensures CountsFollow(c.bus, d.bus, Do(c, call), Do(d, call))
  {
    hide Dispatch;
    hide DoInitialize;
    hide DoInitializeAdapter;
    hide DoRunOnce;
    hide DoCheckSlaveStates;
    hide SlaveNodes.SetTarget;
    hide SlaveNodes.SetPdoMapping;
    hide Covered;
    match call
    case Initialize(config) => InitializeFollows(c, d, config);
    case InitializeAdapter(config) => InitializeFollows(c, d, config);
    case Scan => DispatchFollows(c, d, ActScanSlaves);
    case EnterMaintenance => DispatchFollows(c, d, ActEnterMaintenance);
    case PrepareRun => DispatchFollows(c, d, ActPrepareRun);
    case StartOperation => DispatchFollows(c, d, ActStartOperation);
    case BackToMaintenance => DispatchFollows(c, d, ActBackToMaintenance);
    case Stop => DispatchFollows(c, d, ActStop);
    case RequestFault => DispatchFollows(c, d, ActRequestFault);
    case RequestEmergencyStop => DispatchFollows(c, d, ActRequestEmergencyStop);
    case RunOnce => CycleKeepsCount(c); CycleKeepsCount(d);
    case CheckSlaveStates => CheckKeepsCount(c); CheckKeepsCount(d);
    case _ =>
  }

  /** Over every run of two equivalent controllers the counts agree exactly if they did before or the run scanned. */
  lemma {:induction false} RunsFollow(c: Ctl, d: Ctl, calls: seq<Call>)
    requires Equivalent(c, d) && NodesCovered(c) && NodesCovered(d) && AllProper(calls)
    ensures var r, s := Runs(c, calls), Runs(d, calls);
            r.ctl.bus.count == s.ctl.bus.count <==> c.bus.count == d.bus.count || Scans(r.events)
    decreases |calls|
  {
    hide Do;
    hide Equivalent;
    hide Scans;
    if calls == [] {
      NoEvents();
    } else {
      var front, call := calls[..|calls| - 1], calls[|calls| - 1];
      RunsFollow(c, d, front);
      SameRuns(c, d, front);
      var r, s := Runs(c, front), Runs(d, front);
      DoFollows(r.ctl, s.ctl, call);
      ScansAppend(r.events, Do(r.ctl, call).events);
    }
  }

  lemma NoEvents()
    ensures !Scans([])
  {
  }

  /** After any run and Stop: a further run leaves the slave count of a new controller exactly if it scans, or if the
      stopped one had no slaves. Until then the slave query and the fault snapshots go by the old count. */
  lemma CountShowsUntilScan(
    replies: seq<Reply>, snapshots: seq<map<int, nat>>, past: seq<Call>, others: seq<map<int, nat>>, calls: seq<Call>)
    requires AllProper(past) && AllProper(calls)
    ensures var stopped := Runs(New(replies, snapshots), past + [Stop]).ctl;
            var r, s := Runs(stopped, calls), Runs(New(stopped.bus.replies, others), calls);
            r.ctl.bus.count == s.ctl.bus.count <==> stopped.bus.count == 0 || Scans(r.events)
  {
    StoppedLikeNew(New(replies, snapshots), past, others);
    var stopped := Runs(New(replies, snapshots), past + [Stop]).ctl;
    hide Runs;
    RunsFollow(stopped, New(stopped.bus.replies, others), calls);
  }
}
