/** A controller that has been stopped behaves like a new one, whatever it still remembers. */
module Restart {
  import opened EcTypes
  import opened BusModel
  import opened ServoCodec
  import opened SlaveNodes
  import opened ControllerModel
  import opened ControllerRuns
  import opened AdapterPairing

  /** The same answers to come and the same adapter. */
  predicate Alike(a: Bus, b: Bus) { a.replies == b.replies && a.closed == b.closed }

  predicate AlikeScanned(a: Bus, b: Bus) {
    Alike(a, b) && a.useDc == b.useDc && a.count == b.count && a.identities == b.identities
  }

  predicate SlavesKnown(state: ControllerState) { state.Scanned? || Working(state) }

  /** Two controllers that no later call can tell apart. What one of them remembers beyond its state
      does not count: a configuration without an open adapter, slaves before they are scanned. */
  predicate Equivalent(c: Ctl, d: Ctl) {
    && c.state == d.state && c.nodes == d.nodes && Alike(c.bus, d.bus)
    && (Open(c.state) ==> c.config == d.config && c.bus.useDc == d.bus.useDc)
    && (SlavesKnown(c.state) ==> c.infos == d.infos && AlikeScanned(c.bus, d.bus))
  }

  predicate SameStep(s: Step, t: Step) { s.ok == t.ok && s.events == t.events && Equivalent(s.ctl, t.ctl) }

  // ---------- Calls on the bus ----------

  predicate SameOut<T(==)>(a: Out<T>, b: Out<T>) { a.value == b.value && a.events == b.events && Alike(a.bus, b.bus) }

  predicate SameOutScanned<T(==)>(a: Out<T>, b: Out<T>) {
    a.value == b.value && a.events == b.events && AlikeScanned(a.bus, b.bus)
  }

  lemma SameRequest(a: Bus, b: Bus, state: nat)
    requires Alike(a, b)
    ensures SameOut(RequestState(a, 0, state), RequestState(b, 0, state))
    ensures AlikeScanned(a, b) ==> SameOutScanned(RequestState(a, 0, state), RequestState(b, 0, state))
  {
  }

  predicate SameReading(a: Out<()>, b: Out<()>) {
    a.events == b.events && AlikeScanned(a.bus, b.bus) && a.bus.states == b.bus.states
  }

  lemma SameReads(a: Bus, b: Bus)
    requires AlikeScanned(a, b)
    ensures SameReading(ReadStates(a), ReadStates(b))
  {
  }

  lemma SameWrites(a: Bus, b: Bus, slave: int, state: nat)
    requires AlikeScanned(a, b)
    ensures SameReading(WriteAndCheck(a, slave, state), WriteAndCheck(b, slave, state))
  {
  }

  lemma SameRound(a: Bus, b: Bus, slave: int, state: nat)
    requires AlikeScanned(a, b)
    ensures SameOutScanned(RetryRound(a, slave, state), RetryRound(b, slave, state))
  {
    hide HasErrorBit;
    hide Acknowledge;
    hide StateOf;
    hide ReadStates;
    hide WriteAndCheck;
    var x, y := ReadStates(a), ReadStates(b);
    SameReads(a, b);
    var actual := StateOf(x.bus.states, slave);
    SameWrites(x.bus, y.bus, slave, Acknowledge(actual));
    SameWrites(x.bus, y.bus, slave, state);
  }

  lemma {:induction false} SameRetry(a: Bus, b: Bus, slave: int, state: nat, rounds: nat)
    requires AlikeScanned(a, b)
    ensures SameOutScanned(Retry(a, slave, state, rounds), Retry(b, slave, state, rounds))
    decreases rounds
  {
    hide RetryRound;
    if rounds > 0 {
      SameRound(a, b, slave, state);
      if !RetryRound(a, slave, state).value {
        SameRetry(RetryRound(a, slave, state).bus, RetryRound(b, slave, state).bus, slave, state, rounds - 1);
      }
    }
  }

  /** A completed check also leaves the same states. */
  lemma SameReach(a: Out<bool>, b: Out<bool>, state: nat)
    requires SameOutScanned(a, b)
    ensures SameOutScanned(AllReach(a, state), AllReach(b, state))
    ensures AllReach(a, state).value ==> AllReach(a, state).bus.states == AllReach(b, state).bus.states
  {
    hide AllInState;
  }

  lemma SameConfiguration(a: Bus, b: Bus)
    requires AlikeScanned(a, b)
    ensures SameOutScanned(ConfigureProcessData(a), ConfigureProcessData(b))
        && SameOutScanned(ConfigureDc(a), ConfigureDc(b))
  {
    SameRest(a, b);
    hide Rest;
    hide Next;
  }

  lemma SameRest(a: Bus, b: Bus)
    requires AlikeScanned(a, b)
    ensures AlikeScanned(Rest(a), Rest(b)) && Next(a) == Next(b)
  {
  }

  lemma SameSafeOp(a: Bus, b: Bus)
    requires AlikeScanned(a, b)
    ensures SameOutScanned(ReachSafeOp(a), ReachSafeOp(b))
  {
    hide AllReach;
    hide ConfigureProcessData;
    hide ConfigureDc;
    hide RequestState;
    SameConfiguration(a, b);
    var x, y := ConfigureProcessData(a), ConfigureProcessData(b);
    var p, q := RequestState(x.bus, 0, EC_STATE_SAFE_OP), RequestState(y.bus, 0, EC_STATE_SAFE_OP);
    SameRequest(x.bus, y.bus, EC_STATE_SAFE_OP);
    SameReach(p, q, EC_STATE_SAFE_OP);
    SameConfiguration(AllReach(p, EC_STATE_SAFE_OP).bus, AllReach(q, EC_STATE_SAFE_OP).bus);
  }

  lemma SamePreOp(c: Ctl, d: Ctl)
    requires c.state == d.state && AlikeScanned(c.bus, d.bus)
    ensures SameOutScanned(ReachPreOp(c.state, c.bus), ReachPreOp(d.state, d.bus))
  {
    hide AllReach;
    hide Retry;
    SameRequest(c.bus, d.bus, EC_STATE_SAFE_OP);
    hide RequestState;
    var x := if c.state.Operational? then RequestState(c.bus, 0, EC_STATE_SAFE_OP) else Skip(c.bus);
    var y := if d.state.Operational? then RequestState(d.bus, 0, EC_STATE_SAFE_OP) else Skip(d.bus);
    SameRetry(x.bus, y.bus, 0, EC_STATE_PRE_OP, MAX_RETRIES + 1);
    SameReach(RequestStateWithRetry(x.bus, 0, EC_STATE_PRE_OP), RequestStateWithRetry(y.bus, 0, EC_STATE_PRE_OP),
        EC_STATE_PRE_OP);
  }

  lemma SameShutdownRequests(state: ControllerState, a: Bus, b: Bus)
    requires Alike(a, b) && (Working(state) ==> AlikeScanned(a, b))
    ensures SameOut(ShutdownRequests(state, a), ShutdownRequests(state, b))
  {
    hide Retry;
    SameRequest(a, b, EC_STATE_SAFE_OP);
    var x := if state.Operational? then RequestState(a, 0, EC_STATE_SAFE_OP) else Skip(a);
    var y := if state.Operational? then RequestState(b, 0, EC_STATE_SAFE_OP) else Skip(b);
    var u := if Working(state) then RequestStateWithRetry(x.bus, 0, EC_STATE_PRE_OP) else Skip(x.bus);
    var v := if Working(state) then RequestStateWithRetry(y.bus, 0, EC_STATE_PRE_OP) else Skip(y.bus);
    hide RequestState;
    if Working(state) { SameRetry(x.bus, y.bus, 0, EC_STATE_PRE_OP, MAX_RETRIES + 1); }
    SameRequest(u.bus, v.bus, EC_STATE_INIT);
  }

  // ---------- Steps ----------

  lemma SameShutdown(c: Ctl, d: Ctl, a: Bus, b: Bus)
    requires c.state == d.state && Alike(a, b) && (Working(c.state) ==> AlikeScanned(a, b))
    ensures SameStep(DoShutdown(c, a), DoShutdown(d, b))
  {
    hide ShutdownRequests;
    SameShutdownRequests(c.state, a, b);
  }

  lemma SameStopped(c: Ctl, d: Ctl, a: Bus, b: Bus, state: ControllerState)
    requires c.nodes == d.nodes && Alike(a, b) && Stopped(state)
    ensures SameStep(EnterStopped(c, a, state), EnterStopped(d, b, state))
  {
    hide Snapshot;
    SnapshotKeepsBus(a, 2 * a.count);
    SnapshotKeepsBus(b, 2 * b.count);
  }

  lemma SameInit(c: Ctl, d: Ctl)
    requires Equivalent(c, d) && c.config == d.config
    ensures SameStep(DoInit(c), DoInit(d))
  {
  }

  lemma SameScan(c: Ctl, d: Ctl)
    requires Equivalent(c, d) && c.state.AdapterReady?
    ensures SameStep(DoScan(c), DoScan(d))
  {
    hide AsExpected;
    hide DoShutdown;
    var x, y := ScanSlaves(c.bus), ScanSlaves(d.bus);
    SameInfos(x.bus, y.bus, Next(c.bus).ret);
    SameShutdown(c.(infos := x.value), d.(infos := y.value), x.bus, y.bus);
    hide InfosOf;
  }

  lemma SameInfos(a: Bus, b: Bus, n: int)
    requires a.count == b.count && a.identities == b.identities && a.states == b.states
    ensures n >= 0 ==> InfosOf(a, n) == InfosOf(b, n)
  {
  }

  lemma SameEnterMaintenance(c: Ctl, d: Ctl)
    requires Equivalent(c, d) && c.state.Scanned?
    ensures SameStep(DoEnterMaintenance(c), DoEnterMaintenance(d))
  {
    hide Retry;
    hide AllReach;
    hide DoShutdown;
    hide NewNodes;
    SameRetry(c.bus, d.bus, 0, EC_STATE_PRE_OP, MAX_RETRIES + 1);
    var p, q := RequestStateWithRetry(c.bus, 0, EC_STATE_PRE_OP), RequestStateWithRetry(d.bus, 0, EC_STATE_PRE_OP);
    SameReach(p, q, EC_STATE_PRE_OP);
    var x, y := AllReach(p, EC_STATE_PRE_OP), AllReach(q, EC_STATE_PRE_OP);
    SameShutdown(c, d, x.bus, y.bus);
    if x.value { SameInfos(x.bus, y.bus, x.bus.count); }
    hide InfosOf;
  }

  lemma SamePrepareRun(c: Ctl, d: Ctl)
    requires Equivalent(c, d) && c.state.Maintenance?
    ensures SameStep(DoPrepareRun(c), DoPrepareRun(d))
  {
    hide ReachSafeOp;
    hide AllConfigured;
    hide EnterStopped;
    SameSafeOp(c.bus, d.bus);
    SameStopped(c.(nodes := AllConfigured(c.nodes)), d.(nodes := AllConfigured(d.nodes)), ReachSafeOp(c.bus).bus,
        ReachSafeOp(d.bus).bus, Fault);
  }

  lemma SameStartOperation(c: Ctl, d: Ctl)
    requires Equivalent(c, d) && c.state.ReadyToRun?
    ensures SameStep(DoStartOperation(c), DoStartOperation(d))
  {
    hide AllReach;
    hide EnterStopped;
    SameRequest(c.bus, d.bus, EC_STATE_OPERATIONAL);
    hide RequestState;
    var p, q := RequestState(c.bus, 0, EC_STATE_OPERATIONAL), RequestState(d.bus, 0, EC_STATE_OPERATIONAL);
    SameReach(p, q, EC_STATE_OPERATIONAL);
    SameStopped(c, d, AllReach(p, EC_STATE_OPERATIONAL).bus, AllReach(q, EC_STATE_OPERATIONAL).bus, Fault);
  }

  lemma SameBackToMaintenance(c: Ctl, d: Ctl)
    requires Equivalent(c, d) && (c.state.ReadyToRun? || c.state.Operational?)
    ensures SameStep(DoBackToMaintenance(c), DoBackToMaintenance(d))
  {
    hide ReachPreOp;
    hide EnterStopped;
    SamePreOp(c, d);
    SameStopped(c, d, ReachPreOp(c.state, c.bus).bus, ReachPreOp(d.state, d.bus).bus, Fault);
  }

  lemma SameDispatch(c: Ctl, d: Ctl, action: Action)
    requires Equivalent(c, d) && (action.ActInitializeAdapter? ==> c.config == d.config)
    ensures SameStep(Dispatch(c, action), Dispatch(d, action))
  {
    hide DoInit;
    hide DoScan;
    hide DoEnterMaintenance;
    hide DoPrepareRun;
    hide DoStartOperation;
    hide DoBackToMaintenance;
    hide DoShutdown;
    hide EnterStopped;
    match action
    case ActRequestEmergencyStop => SameStopped(c, d, c.bus, d.bus, EmergencyStop);
    case ActRequestFault => SameStopped(c, d, c.bus, d.bus, Fault);
    case ActInitializeAdapter => SameInit(c, d);
    case ActScanSlaves => if c.state.AdapterReady? { SameScan(c, d); }
    case ActEnterMaintenance => if c.state.Scanned? { SameEnterMaintenance(c, d); }
    case ActPrepareRun => if c.state.Maintenance? { SamePrepareRun(c, d); }
    case ActStartOperation => if c.state.ReadyToRun? { SameStartOperation(c, d); }
    case ActBackToMaintenance => if c.state.ReadyToRun? || c.state.Operational? { SameBackToMaintenance(c, d); }
    case ActStop => SameShutdown(c, d, c.bus, d.bus);
  }

  lemma SameInitializeAdapter(c: Ctl, d: Ctl, config: Config)
    requires Equivalent(c, d)
    ensures SameStep(DoInitializeAdapter(c, config), DoInitializeAdapter(d, config))
  {
    hide Dispatch;
    if c.state.Uninitialized? { SameDispatch(c.(config := config), d.(config := config), ActInitializeAdapter); }
  }

  lemma SameAndThen(s: Step, t: Step, action: Action)
    requires SameStep(s, t) && !action.ActInitializeAdapter?
    ensures SameStep(AndThen(s, Dispatch(s.ctl, action)), AndThen(t, Dispatch(t.ctl, action)))
  {
    hide Dispatch;
    SameDispatch(s.ctl, t.ctl, action);
  }

  lemma SameInitialize(c: Ctl, d: Ctl, config: Config)
    requires Equivalent(c, d)
    ensures SameStep(DoInitialize(c, config), DoInitialize(d, config))
  {
    hide Dispatch;
    hide AndThen;
    hide SameStep;
    hide DoInitializeAdapter;
    SameInitializeAdapter(c, d, config);
    var s, t := DoInitializeAdapter(c, config), DoInitializeAdapter(d, config);
    SameAndThen(s, t, ActScanSlaves);
    SameAndThen(AndThen(s, Dispatch(s.ctl, ActScanSlaves)), AndThen(t, Dispatch(t.ctl, ActScanSlaves)),
        ActEnterMaintenance);
  }

  lemma SameCycle(c: Ctl, d: Ctl)
    requires Equivalent(c, d) && NodesCovered(c) && NodesCovered(d)
    ensures SameStep(DoRunOnce(c), DoRunOnce(d))
  {
    if c.state.Operational? {
      EncodedCovered(c.nodes);
      SameUpdates(AllEncoded(c.nodes), ExchangeData(c.bus).bus, ExchangeData(d.bus).bus);
    }
    hide AllOutputs;
    hide AllInputs;
    hide AllEncoded;
    hide AllUpdated;
  }

  lemma SameUpdates(nodes: seq<Node>, a: Bus, b: Bus)
    requires AllCovered(nodes) && a.inputs == b.inputs
    ensures AllUpdated(nodes, a) == AllUpdated(nodes, b)
  {
    hide DecodeInputs;
    hide Covered;
  }

  lemma SameCheck(c: Ctl, d: Ctl)
    requires Equivalent(c, d)
    ensures SameStep(DoCheckSlaveStates(c), DoCheckSlaveStates(d))
  {
    hide AllInState;
    hide EnterStopped;
    if Watched(c.state) != 0 {
      SameStopped(c, d, CheckAll(c.bus, Watched(c.state)).bus, CheckAll(d.bus, Watched(d.state)).bus, Fault);
    }
  }

  lemma SameDo(c: Ctl, d: Ctl, call: Call)
    requires Equivalent(c, d) && NodesCovered(c) && NodesCovered(d) && Proper(call)
    ensures SameStep(Do(c, call), Do(d, call))
  {
    hide Dispatch;
    hide DoInitialize;
    hide DoInitializeAdapter;
    hide DoRunOnce;
    hide DoCheckSlaveStates;
    hide SlaveNodes.SetTarget;
    hide SlaveNodes.SetPdoMapping;
    hide Covered;
    match call
    case Initialize(config) => SameInitialize(c, d, config);
    case InitializeAdapter(config) => SameInitializeAdapter(c, d, config);
    case Scan => SameDispatch(c, d, ActScanSlaves);
    case EnterMaintenance => SameDispatch(c, d, ActEnterMaintenance);
    case PrepareRun => SameDispatch(c, d, ActPrepareRun);
    case StartOperation => SameDispatch(c, d, ActStartOperation);
    case BackToMaintenance => SameDispatch(c, d, ActBackToMaintenance);
    case Stop => SameDispatch(c, d, ActStop);
    case RequestFault => SameDispatch(c, d, ActRequestFault);
    case RequestEmergencyStop => SameDispatch(c, d, ActRequestEmergencyStop);
    case RunOnce => SameCycle(c, d);
    case CheckSlaveStates => SameCheck(c, d);
    case _ =>
  }

  lemma {:induction false} SameRuns(c: Ctl, d: Ctl, calls: seq<Call>)
    requires Equivalent(c, d) && NodesCovered(c) && NodesCovered(d) && AllProper(calls)
    ensures var r, s := Runs(c, calls), Runs(d, calls);
            r.oks == s.oks && r.states == s.states && r.events == s.events && Equivalent(r.ctl, s.ctl)
    decreases |calls|
  {
    hide Do;
    hide Equivalent;
    if calls != [] {
      var front, call := calls[..|calls| - 1], calls[|calls| - 1];
      SameRuns(c, d, front);
      SameDo(Runs(c, front).ctl, Runs(d, front).ctl, call);
      SameState(Do(Runs(c, front).ctl, call), Do(Runs(d, front).ctl, call));
    }
  }

  lemma SameState(s: Step, t: Step)
    requires SameStep(s, t)
    ensures s.ctl.state == t.ctl.state
  {
  }

  // ---------- Stop ----------

  /** Stop forgets neither the slave infos nor the configuration, nor how many slaves there were. */
  lemma StopKeeps(c: Ctl)
    ensures var s := DoStop(c); s.ctl.infos == c.infos && s.ctl.config == c.config && s.ctl.bus.count == c.bus.count
  {
    hide ShutdownRequests;
    ShutdownKeepsCount(c.state, c.bus);
  }

  lemma ShutdownKeepsCount(state: ControllerState, bus: Bus)
    ensures ShutdownRequests(state, bus).bus.count == bus.count
  {
    hide Retry;
    hide StateOf;
    var a := if state.Operational? then RequestState(bus, 0, EC_STATE_SAFE_OP) else Skip(bus);
    RetryKeepsSlaves(a.bus, 0, EC_STATE_PRE_OP, MAX_RETRIES + 1);
  }

  lemma StopEquivalent(c: Ctl, snapshots: seq<map<int, nat>>)
    requires AdapterFits(c) && NodesFit(c)
    ensures Equivalent(DoStop(c).ctl, New(DoStop(c).ctl.bus.replies, snapshots))
  {
    hide Covered;
    hide ShutdownRequests;
  }

  lemma StoppedLikeNew(c: Ctl, past: seq<Call>, others: seq<map<int, nat>>)
    requires AdapterFits(c) && NodesFit(c) && AllProper(past)
    ensures var stopped := Runs(c, past + [Stop]).ctl; Equivalent(stopped, New(stopped.bus.replies, others))
  {
    assert NodesCovered(c);
    hide Runs;
    hide NodesFit;
    hide AdapterFits;
    hide Moved;
    hide Equivalent;
    hide DoStop;
    RunOneMore(c, past, Stop);
    RunGood(c, past);
    NodesFitAlways(c, past);
    hide Do;
    DoesStop(Runs(c, past).ctl);
    StopEquivalent(Runs(c, past).ctl, others);
  }

  /** After Stop, from any state that a run can reach, and for the same answers of the bus, every
      further run gives the results, controller states, AL writes, readings, configuration calls and
      exchanges of a new controller, and its slave infos wherever slaves are known. */
  lemma RestartEquivalent(
    replies: seq<Reply>, snapshots: seq<map<int, nat>>, past: seq<Call>, others: seq<map<int, nat>>, calls: seq<Call>)
    requires AllProper(past) && AllProper(calls)
    ensures var stopped := Runs(New(replies, snapshots), past + [Stop]).ctl;
            var r, s := Runs(stopped, calls), Runs(New(stopped.bus.replies, others), calls);
            && r.oks == s.oks && r.states == s.states && r.events == s.events
            && (SlavesKnown(r.ctl.state) ==> r.ctl.infos == s.ctl.infos)
  {
    StoppedLikeNew(New(replies, snapshots), past, others);
    var stopped := Runs(New(replies, snapshots), past + [Stop]).ctl;
    hide Runs;
    SameRuns(stopped, New(stopped.bus.replies, others), calls);
  }
}
