/** Distributed clocks are configured as the configuration says that the adapter was opened with, over every run. */
module ClockChoice {
  import opened EcTypes
  import opened BusModel
  import opened ServoCodec
  import opened SlaveNodes
  import opened ControllerModel
  import opened ControllerRuns
  import opened AdapterPairing

  /** While the adapter is open, the bus has the choice of the configuration. */
  predicate ClockFits(c: Ctl) { Open(c.state) ==> c.bus.useDc == c.config.useDc }

  /** Every clock step among the events makes this choice. */
  ghost predicate Clocked(events: seq<Event>, useDc: bool) { forall e | e in events && e.ConfigDc? :: e.used == useDc }

  /** The step keeps the configuration, and clock steps go by it. */
  ghost predicate ClockStep(c: Ctl, s: Step) {
    s.ctl.config == c.config && ClockFits(s.ctl) && Clocked(s.events, c.config.useDc)
  }

  lemma {:induction false} RetryClocked(bus: Bus, slave: int, state: nat, rounds: nat, useDc: bool)
    ensures Clocked(Retry(bus, slave, state, rounds).events, useDc)
    decreases rounds
  {
    if rounds > 0 {
      var one := RetryRound(bus, slave, state);
      RoundClocked(bus, slave, state, useDc);
      hide RetryRound;
      if !one.value { RetryClocked(one.bus, slave, state, rounds - 1, useDc); }
    }
  }

  lemma RoundClocked(bus: Bus, slave: int, state: nat, useDc: bool)
    ensures Clocked(RetryRound(bus, slave, state).events, useDc)
  {
    hide HasErrorBit;
    hide StateOf;
  }

  lemma ReachClocked(request: Out<bool>, state: nat, useDc: bool)
    requires Clocked(request.events, useDc)
    ensures Clocked(AllReach(request, state).events, useDc)
  {
    hide AllInState;
  }

  lemma RequestClocked(bus: Bus, state: nat, useDc: bool)
    ensures Clocked(RequestState(bus, 0, state).events, useDc)
    ensures Clocked(AllReach(RequestState(bus, 0, state), state).events, useDc)
  {
    hide AllReach;
    hide StateOf;
    ReachClocked(RequestState(bus, 0, state), state, useDc);
  }

  lemma SafeOpClocked(bus: Bus)
    ensures Clocked(ReachSafeOp(bus).events, bus.useDc)
    ensures ReachSafeOp(bus).value ==> ConfigDc(bus.useDc) in ReachSafeOp(bus).events
  {
    hide AllReach;
    var mapped := ConfigureProcessData(bus);
    RequestKeepsSlaves(mapped.bus, EC_STATE_SAFE_OP);
    RequestClocked(mapped.bus, EC_STATE_SAFE_OP, bus.useDc);
  }

  lemma PreOpClocked(c: Ctl, useDc: bool)
    ensures Clocked(ReachPreOp(c.state, c.bus).events, useDc)
  {
    hide Retry;
    hide AllReach;
    hide RequestState;
    var safe := if c.state.Operational? then RequestState(c.bus, 0, EC_STATE_SAFE_OP) else Skip(c.bus);
    RequestClocked(c.bus, EC_STATE_SAFE_OP, useDc);
    RetryClocked(safe.bus, 0, EC_STATE_PRE_OP, MAX_RETRIES + 1, useDc);
    ReachClocked(RequestStateWithRetry(safe.bus, 0, EC_STATE_PRE_OP), EC_STATE_PRE_OP, useDc);
  }

  lemma ShutdownClocked(c: Ctl, bus: Bus)
    ensures ClockStep(c, DoShutdown(c, bus))
  {
    hide Retry;
    hide RequestState;
    var useDc := c.config.useDc;
    var a := if c.state.Operational? then RequestState(bus, 0, EC_STATE_SAFE_OP) else Skip(bus);
    RequestClocked(bus, EC_STATE_SAFE_OP, useDc);
    var b := if c.state.Operational? || c.state.ReadyToRun? || c.state.Maintenance?
             then RequestStateWithRetry(a.bus, 0, EC_STATE_PRE_OP) else Skip(a.bus);
    RetryClocked(a.bus, 0, EC_STATE_PRE_OP, MAX_RETRIES + 1, useDc);
    RequestClocked(b.bus, EC_STATE_INIT, useDc);
  }

  lemma ScanClocked(c: Ctl)
    requires ClockFits(c)
    ensures ClockStep(c, DoScan(c))
  {
    hide AsExpected;
    hide InfosOf;
    hide DoShutdown;
    var o := ScanSlaves(c.bus);
    ShutdownClocked(c.(infos := o.value), o.bus);
  }

  lemma EnterClocked(c: Ctl)
    requires ClockFits(c)
    ensures ClockStep(c, DoEnterMaintenance(c))
  {
    hide Retry;
    hide InfosOf;
    hide NewNodes;
    hide DoShutdown;
    hide AllInState;
    var request := RequestStateWithRetry(c.bus, 0, EC_STATE_PRE_OP);
    RetryKeepsSlaves(c.bus, 0, EC_STATE_PRE_OP, MAX_RETRIES + 1);
    RetryClocked(c.bus, 0, EC_STATE_PRE_OP, MAX_RETRIES + 1, c.config.useDc);
    ReachClocked(request, EC_STATE_PRE_OP, c.config.useDc);
    ShutdownClocked(c, AllReach(request, EC_STATE_PRE_OP).bus);
  }

  lemma PrepareClocked(c: Ctl)
    requires ClockFits(c)
    ensures ClockStep(c, DoPrepareRun(c))
    ensures DoPrepareRun(c).ok ==> ConfigDc(c.config.useDc) in DoPrepareRun(c).events
  {
    hide ReachSafeOp;
    hide AllConfigured;
    hide Snapshot;
    ReachSafeOpKeepsSlaves(c.bus);
    SafeOpClocked(c.bus);
  }

  lemma DispatchClocked(c: Ctl, action: Action)
    requires ClockFits(c)
    ensures ClockStep(c, Dispatch(c, action))
  {
    hide ReachPreOp;
    hide DoScan;
    hide DoEnterMaintenance;
    hide DoPrepareRun;
    hide DoShutdown;
    hide AllReach;
    hide RequestState;
    hide Snapshot;
    match action
    case ActScanSlaves => ScanClocked(c);
    case ActEnterMaintenance => EnterClocked(c);
    case ActPrepareRun => PrepareClocked(c);
    case ActStop => ShutdownClocked(c, c.bus);
    case ActBackToMaintenance =>
      ReachPreOpKeepsSlaves(c);
      PreOpClocked(c, c.config.useDc);
    case ActStartOperation =>
      RequestKeepsSlaves(c.bus, EC_STATE_OPERATIONAL);
      RequestClocked(c.bus, EC_STATE_OPERATIONAL, c.config.useDc);
    case _ =>
  }

  /** The configuration in force after a call: that of the call that opens the adapter, otherwise as before. */
  function ConfigAfter(c: Ctl, call: Call): Config {
    match call
    case Initialize(config) => if c.state.Uninitialized? then config else c.config
    case InitializeAdapter(config) => if c.state.Uninitialized? then config else c.config
    case _ => c.config
  }

  lemma InitializeClocked(c: Ctl, config: Config)
    requires ClockFits(c)
    ensures var s := DoInitializeAdapter(c, config);
            ClockStep(c.(config := if c.state.Uninitialized? then config else c.config), s)
    ensures var s := DoInitialize(c, config);
            ClockStep(c.(config := if c.state.Uninitialized? then config else c.config), s)
  {
    hide Dispatch;
    var a := DoInitializeAdapter(c, config);
    if c.state.Uninitialized? { DispatchClocked(c.(config := config), ActInitializeAdapter); }
    DispatchClocked(a.ctl, ActScanSlaves);
    DispatchClocked(AndThen(a, Dispatch(a.ctl, ActScanSlaves)).ctl, ActEnterMaintenance);
  }

  lemma DoClocked(c: Ctl, call: Call)
    requires ClockFits(c) && NodesCovered(c) && Proper(call)
    ensures ClockStep(c.(config := ConfigAfter(c, call)), Do(c, call))
  {
    hide Dispatch;
    hide Covered;
    hide AllInState;
    hide Snapshot;
    hide DoInitialize;
    hide DoInitializeAdapter;
    match call
    case Initialize(config) => InitializeClocked(c, config);
    case InitializeAdapter(config) => InitializeClocked(c, config);
    case Scan => DispatchClocked(c, ActScanSlaves);
    case EnterMaintenance => DispatchClocked(c, ActEnterMaintenance);
    case PrepareRun => DispatchClocked(c, ActPrepareRun);
    case StartOperation => DispatchClocked(c, ActStartOperation);
    case BackToMaintenance => DispatchClocked(c, ActBackToMaintenance);
    case Stop => DispatchClocked(c, ActStop);
    case RequestFault => DispatchClocked(c, ActRequestFault);
    case RequestEmergencyStop => DispatchClocked(c, ActRequestEmergencyStop);
    case RunOnce => CycleClocked(c);
    case _ =>
  }

  lemma CycleClocked(c: Ctl)
    requires NodesCovered(c) && ClockFits(c)
    ensures ClockStep(c, DoRunOnce(c))
  {
    hide Covered;
    hide AllUpdated;
    if c.state.Operational? {
      OutputsOnly(c.nodes);
      EncodedCovered(c.nodes);
      InputsOnly(AllEncoded(c.nodes));
    }
    hide AllOutputs;
    hide AllInputs;
    hide AllEncoded;
  }

  lemma {:induction false} RunClocked(c: Ctl, calls: seq<Call>)
    requires ClockFits(c) && NodesCovered(c) && AllProper(calls)
    ensures ClockFits(Runs(c, calls).ctl)
    decreases |calls|
  {
    hide Do;
    hide ClockFits;
    if calls != [] {
      RunClocked(c, calls[..|calls| - 1]);
      DoClocked(Runs(c, calls[..|calls| - 1]).ctl, calls[|calls| - 1]);
    }
  }

  /** After any run the next call takes a configuration over exactly if it initializes an uninitialized controller, and
      each clock step goes by the configuration in force; a run that is prepared has had one. */
  lemma ClocksAsConfigured(replies: seq<Reply>, snapshots: seq<map<int, nat>>, calls: seq<Call>, call: Call)
    requires AllProper(calls) && Proper(call)
    ensures var c := Runs(New(replies, snapshots), calls).ctl;
            && NodesCovered(c)
            && Do(c, call).ctl.config == ConfigAfter(c, call)
            && Clocked(Do(c, call).events, ConfigAfter(c, call).useDc)
            && (call.PrepareRun? && Do(c, call).ok ==> ConfigDc(c.config.useDc) in Do(c, call).events)
  {
    RunClocked(New(replies, snapshots), calls);
    var c := Runs(New(replies, snapshots), calls).ctl;
    DoClocked(c, call);
    PrepareClocked(c);
    hide Runs;
    hide DoPrepareRun;
  }
}
