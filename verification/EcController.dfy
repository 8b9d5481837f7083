/** The controller object: its methods, on their fields, do exactly the steps of the lifecycle model. */
module EcControllers {
  import opened EcTypes
  import opened BusModel
  import opened EcMasters
  import opened SlaveNodeObjects
  import opened Flattening
  import ControllerModel
  import SlaveNodes
  import DefaultNodes

  class EcController {
    const master: EcMaster
    const manager: SlaveNodeManager
    var state: ControllerState
    var config: ControllerModel.Config
    var infos: seq<SlaveInfo>

    ghost function View(): (c: ControllerModel.Ctl)
      reads this, master, manager, manager.nodes
      ensures Valid() ==> SlaveNodes.AllCovered(c.nodes)
    {
      ControllerModel.Ctl(state, config, infos, manager.View(), master.View())
    }

    ghost predicate Valid()
      reads this, master, manager, manager.nodes
    {
      master.Valid() && manager.Valid(master)
    }

    /** The call took the step s. */
    twostate predicate Took(s: ControllerModel.Step)
      reads this, master, manager, manager.nodes
    {
      && Valid() && View() == s.ctl && master.trace == old(master.trace) + s.events
          && master.history == old(master.history)
      && forall n | n in manager.nodes :: n in old(manager.nodes) || fresh(n)
    }

    constructor (replies: seq<Reply>, snapshots: seq<map<int, nat>>)
      ensures Valid() && fresh(master) && fresh(manager) && manager.nodes == []
      ensures View() == ControllerModel.New(replies, snapshots) && master.trace == []
    {
      master := new EcMaster(replies, snapshots);
      manager := new SlaveNodeManager();
      state, config, infos := Uninitialized, ControllerModel.DEFAULT_CONFIG, [];
    }

    // ---------- On the master ----------

    method ReachWithRetry(target: nat) returns (ok: bool)
      modifies master
      ensures var o := ControllerModel.AllReach(BusModel.RequestStateWithRetry(old(master.View()), 0, target), target);
              master.Did(o) && ok == o.value
    {
      hide Retry;
      hide AllInState;
      ghost var request := BusModel.RequestStateWithRetry(master.View(), 0, target);
      ok := master.RequestStateWithRetry(0, target);
      if ok {
        Associative(old(master.trace), request.events, CheckAll(request.bus, target).events);
        ok := master.CheckAllSlavesInState(target);
      }
    }

    method Reach(target: nat) returns (ok: bool)
      modifies master
      ensures var o := ControllerModel.AllReach(RequestState(old(master.View()), 0, target), target);
              master.Did(o) && ok == o.value
    {
      hide RequestState;
      hide AllInState;
      ghost var request := RequestState(master.View(), 0, target);
      ok := master.RequestState(0, target);
      if ok {
        Associative(old(master.trace), request.events, CheckAll(request.bus, target).events);
        ok := master.CheckAllSlavesInState(target);
      }
    }

    /** DoSafeOp and DoDcConfigure, up to the first failure. */
    method ReachSafeOp() returns (ok: bool)
      modifies master
      ensures var o := ControllerModel.ReachSafeOp(old(master.View())); master.Did(o) && ok == o.value
    {
      hide ControllerModel.AllReach;
      ghost var b := master.View();
      ghost var mapped := ConfigureProcessData(b);
      ghost var safe := ControllerModel.AllReach(RequestState(mapped.bus, 0, EC_STATE_SAFE_OP), EC_STATE_SAFE_OP);
      ok := master.ConfigureProcessData();
      if !ok {
        return false;
      }
      Associative(old(master.trace), mapped.events, safe.events);
      ok := Reach(EC_STATE_SAFE_OP);
      if !ok {
        return false;
      }
      Associative(old(master.trace), mapped.events + safe.events, ConfigureDc(safe.bus).events);
      ok := master.ConfigureDc();
    }

    /** From Operational over SAFE_OP, reached or not. */
    method ReachPreOp() returns (ok: bool)
      modifies master
      ensures var o := ControllerModel.ReachPreOp(state, old(master.View()));
              master.Did(o) && ok == o.value
    {
      hide ControllerModel.AllReach;
      hide Retry;
      ghost var b := master.View();
      ghost var safe := if state.Operational? then RequestState(b, 0, EC_STATE_SAFE_OP) else ControllerModel.Skip(b);
      if state.Operational? {
        var _ := master.RequestState(0, EC_STATE_SAFE_OP);
      }
      hide RequestState;
      ghost var rest := ControllerModel.AllReach(BusModel.RequestStateWithRetry(safe.bus, 0, EC_STATE_PRE_OP),
          EC_STATE_PRE_OP);
      Associative(old(master.trace), safe.events, rest.events);
      ok := ReachWithRetry(EC_STATE_PRE_OP);
    }

    method SendShutdownRequests()
      modifies master
      ensures master.Did(ControllerModel.ShutdownRequests(state, old(master.View())))
    {
      hide Retry;
      ghost var x := master.View();
      ghost var a := if state.Operational? then RequestState(x, 0, EC_STATE_SAFE_OP) else ControllerModel.Skip(x);
      ghost var b := if state.Operational? || state.ReadyToRun? || state.Maintenance?
                     then BusModel.RequestStateWithRetry(a.bus, 0, EC_STATE_PRE_OP) else ControllerModel.Skip(a.bus);
      ghost var c := if !state.Uninitialized? && !state.AdapterReady? && !state.Scanned?
                     then RequestState(b.bus, 0, EC_STATE_INIT) else ControllerModel.Skip(b.bus);
      hide RequestState;
      if state.Operational? {
        var _ := master.RequestState(0, EC_STATE_SAFE_OP);
      }
      Associative(old(master.trace), a.events, b.events);
      if state.Operational? || state.ReadyToRun? || state.Maintenance? {
        var _ := master.RequestStateWithRetry(0, EC_STATE_PRE_OP);
      }
      Associative(old(master.trace), a.events + b.events, c.events);
      if !state.Uninitialized? && !state.AdapterReady? && !state.Scanned? {
        var _ := master.RequestState(0, EC_STATE_INIT);
      }
    }

    method LogSlaveSnapshot()
      modifies master
      ensures master.View() == ControllerModel.Snapshot(old(master.View()), 2 * old(master.count))
      ensures master.trace == old(master.trace) && master.stats == old(master.stats)
          && master.history == old(master.history)
    {
      for i := 0 to master.count
        invariant master.View() == ControllerModel.Snapshot(old(master.View()), 2 * i)
        invariant master.count == old(master.count)
        invariant master.trace == old(master.trace) && master.stats == old(master.stats)
            && master.history == old(master.history)
      {
        master.SnapshotRead();
        master.SnapshotRead();
      }
    }

    // ---------- Lifecycle steps ----------

    method Enter(newState: ControllerState)
      modifies this`state, master`trace
      ensures state == newState && master.trace == old(master.trace) + [Entered(newState)]
    {
      state := newState;
      master.trace := master.trace + [Entered(newState)];
    }

    /** EnterFault and EnterEmergencyStop. */
    method EnterStopped(newState: ControllerState)
      requires Valid()
      modifies this`state, master
      ensures Took(ControllerModel.EnterStopped(old(View()), old(master.View()), newState))
    {
      hide SlaveNode.Valid;
      hide CycleStatistics.After;
      hide CycleStatistics.NeverDivides;
      hide ControllerModel.Snapshot;
      LogSlaveSnapshot();
      Enter(newState);
    }

    method DoShutdown() returns (ok: bool)
      requires Valid()
      modifies this`state, master, manager
      ensures Took(ControllerModel.DoShutdown(old(View()), old(master.View()))) && ok
    {
      hide SlaveNode.Valid;
      hide CycleStatistics.After;
      hide CycleStatistics.NeverDivides;
      hide ControllerModel.ShutdownRequests;
      ghost var requests := ControllerModel.ShutdownRequests(state, master.View());
      ghost var close := Close(requests.bus);
      SendShutdownRequests();
      manager.Clear();
      master.Close();
      Enter(Uninitialized);
      FourParts(old(master.trace), requests.events, close.events, [Entered(Uninitialized)]);
      return true;
    }

    method DoInit() returns (ok: bool)
      requires Valid()
      modifies this`state, master
      ensures Took(ControllerModel.DoInit(old(View()))) && ok == ControllerModel.DoInit(old(View())).ok
    {
      hide SlaveNode.Valid;
      hide CycleStatistics.After;
      hide CycleStatistics.NeverDivides;
      if !state.Uninitialized? {
        return false;
      }
      ghost var o := BusModel.Initialize(master.View(), config.useDc);
      ok := master.Initialize(config.useDc);
      if !ok {
        return false;
      }
      Enter(AdapterReady);
      Associative(old(master.trace), o.events, [Entered(AdapterReady)]);
    }

    /** The checks on what a scan found, in the source's order. */
    method MatchesConfig() returns (ok: bool)
      ensures ok == ControllerModel.AsExpected(config, infos)
    {
      if |infos| == 0 {
        return false;
      }
      if config.expectedCount > 0 && |infos| != config.expectedCount {
        return false;
      }
      var i := 0;
      while i < |infos| && i < |config.expected|
        invariant 0 <= i <= |infos|
        invariant forall j | 0 <= j < i && j < |config.expected| ::
            ControllerModel.IdentityMatches(config.expected[j], infos[j].identity)
      {
        var expected, actual := config.expected[i], infos[i].identity;
        if expected.vendorId != 0 && actual.vendorId != expected.vendorId {
          return false;
        }
        if expected.productId != 0 && actual.productId != expected.productId {
          return false;
        }
        i := i + 1;
      }
      return true;
    }

    method DoScan() returns (ok: bool)
      requires Valid()
      modifies this, master, manager
      ensures Took(ControllerModel.DoScan(old(View()))) && ok == ControllerModel.DoScan(old(View())).ok
    {
      hide SlaveNode.Valid;
      hide CycleStatistics.After;
      hide CycleStatistics.NeverDivides;
      hide ControllerModel.DoShutdown;
      hide ControllerModel.AsExpected;
      if !state.AdapterReady? {
        return false;
      }
      ghost var o := ScanSlaves(master.View());
      infos := master.ScanSlaves();
      var matches := MatchesConfig();
      if !matches {
        ghost var shutdown := ControllerModel.DoShutdown(View(), master.View());
        ShutdownFrom(View(), old(View()).bus, master.View());
        var _ := DoShutdown();
        Associative(old(master.trace), o.events, shutdown.events);
        return false;
      }
      Enter(Scanned);
      Associative(old(master.trace), o.events, [Entered(Scanned)]);
      return true;
    }

    method DoEnterMaintenance() returns (ok: bool)
      requires Valid()
      modifies this, master, manager
      ensures Took(ControllerModel.DoEnterMaintenance(old(View())))
          && ok == ControllerModel.DoEnterMaintenance(old(View())).ok
    {
      hide SlaveNode.Valid;
      hide CycleStatistics.After;
      hide CycleStatistics.NeverDivides;
      hide ControllerModel.DoShutdown;
      hide ControllerModel.AllReach;
      hide Retry;
      if !state.Scanned? {
        return false;
      }
      ghost var o := ControllerModel.AllReach(BusModel.RequestStateWithRetry(master.View(), 0, EC_STATE_PRE_OP),
          EC_STATE_PRE_OP);
      var reached := ReachWithRetry(EC_STATE_PRE_OP);
      if !reached {
        ghost var shutdown := ControllerModel.DoShutdown(View(), master.View());
        ShutdownFrom(View(), old(View()).bus, master.View());
        var _ := DoShutdown();
        Associative(old(master.trace), o.events, shutdown.events);
        return false;
      }
      Enter(Maintenance);
      Associative(old(master.trace), o.events, [Entered(Maintenance)]);
      infos := master.GetInfos(master.count);
      manager.Initialize(master, infos);
      return true;
    }

    method DoPrepareRun() returns (ok: bool)
      requires Valid()
      modifies this, master, manager.nodes
      ensures Took(ControllerModel.DoPrepareRun(old(View()))) && ok == ControllerModel.DoPrepareRun(old(View())).ok
    {
      hide SlaveNode.Valid;
      hide SlaveNode.View;
      hide CycleStatistics.After;
      hide CycleStatistics.NeverDivides;
      hide ControllerModel.ReachSafeOp;
      hide ControllerModel.Snapshot;
      hide DefaultNodes.ByDefault;
      hide SlaveNodes.AutoConfigured;
      if !state.Maintenance? {
        return false;
      }
      ghost var o := ControllerModel.ReachSafeOp(master.View());
      // Configuration cannot fail: nodes configured already are skipped.
      var _ := manager.ConfigureAll(master);
      master.trace := master.trace + [NodesConfigured];
      var reached := ReachSafeOp();
      if !reached {
        EnterStopped(Fault);
        PreparedTrace(old(master.trace), [NodesConfigured], o.events, [Entered(Fault)]);
        return false;
      }
      Enter(ReadyToRun);
      PreparedTrace(old(master.trace), [NodesConfigured], o.events, [Entered(ReadyToRun)]);
      return true;
    }

    method DoStartOperation() returns (ok: bool)
      requires Valid()
      modifies this, master
      ensures Took(ControllerModel.DoStartOperation(old(View())))
          && ok == ControllerModel.DoStartOperation(old(View())).ok
    {
      hide SlaveNode.Valid;
      hide SlaveNode.View;
      hide CycleStatistics.After;
      hide CycleStatistics.NeverDivides;
      hide ControllerModel.AllReach;
      hide ControllerModel.Snapshot;
      if !state.ReadyToRun? {
        return false;
      }
      ghost var o := ControllerModel.AllReach(RequestState(master.View(), 0, EC_STATE_OPERATIONAL),
          EC_STATE_OPERATIONAL);
      var reached := Reach(EC_STATE_OPERATIONAL);
      if !reached {
        EnterStopped(Fault);
        Associative(old(master.trace), o.events, [Entered(Fault)]);
        return false;
      }
      Enter(Operational);
      Associative(old(master.trace), o.events, [Entered(Operational)]);
      return true;
    }

    method DoBackToMaintenance() returns (ok: bool)
      requires Valid()
      modifies this, master
      ensures Took(ControllerModel.DoBackToMaintenance(old(View())))
          && ok == ControllerModel.DoBackToMaintenance(old(View())).ok
    {
      hide SlaveNode.Valid;
      hide SlaveNode.View;
      hide CycleStatistics.After;
      hide CycleStatistics.NeverDivides;
      hide ControllerModel.Snapshot;
      hide ControllerModel.ReachPreOp;
      if !state.ReadyToRun? && !state.Operational? {
        return false;
      }
      ghost var o := ControllerModel.ReachPreOp(state, master.View());
      var reached := ReachPreOp();
      if !reached {
        EnterStopped(Fault);
        Associative(old(master.trace), o.events, [Entered(Fault)]);
        return false;
      }
      Enter(Maintenance);
      Associative(old(master.trace), o.events, [Entered(Maintenance)]);
      return true;
    }

    // ---------- Dispatch and the public calls ----------

    method Dispatch(action: ControllerModel.Action) returns (ok: bool)
      requires Valid()
      modifies this, master, manager, manager.nodes
      ensures Took(ControllerModel.Dispatch(old(View()), action))
          && ok == ControllerModel.Dispatch(old(View()), action).ok
    {
      hide SlaveNode.Valid;
      hide SlaveNode.View;
      hide CycleStatistics.After;
      hide CycleStatistics.NeverDivides;
      hide ControllerModel.DoInit;
      hide ControllerModel.DoScan;
      hide ControllerModel.DoEnterMaintenance;
      hide ControllerModel.DoPrepareRun;
      hide ControllerModel.DoStartOperation;
      hide ControllerModel.DoBackToMaintenance;
      hide ControllerModel.DoShutdown;
      hide ControllerModel.EnterStopped;
      StoppedOk(View(), master.View());
      if action.ActRequestEmergencyStop? {
        EnterStopped(EmergencyStop);
        return true;
      }
      if action.ActRequestFault? {
        EnterStopped(Fault);
        return true;
      }
      if action !in ControllerModel.Allowed(state) {
        return false;
      }
      match action {
        case ActInitializeAdapter => ok := DoInit();
        case ActScanSlaves => ok := DoScan();
        case ActEnterMaintenance => ok := DoEnterMaintenance();
        case ActPrepareRun => ok := DoPrepareRun();
        case ActStartOperation => ok := DoStartOperation();
        case ActBackToMaintenance => ok := DoBackToMaintenance();
        case ActStop => ShutdownOk(View(), master.View()); ok := DoShutdown();
      }
    }

    method InitializeAdapter(config: ControllerModel.Config) returns (ok: bool)
      requires Valid()
      modifies this, master, manager, manager.nodes
      ensures Took(ControllerModel.DoInitializeAdapter(old(View()), config))
      ensures ok == ControllerModel.DoInitializeAdapter(old(View()), config).ok
    {
      hide ControllerModel.Dispatch;
      hide SlaveNode.Valid;
      hide SlaveNode.View;
      hide CycleStatistics.After;
      hide CycleStatistics.NeverDivides;
      if !state.Uninitialized? {
        return false;
      }
      this.config := config;
      ok := Dispatch(ControllerModel.ActInitializeAdapter);
    }

    method Scan() returns (ok: bool)
      requires Valid()
      modifies this, master, manager, manager.nodes
      ensures Took(ControllerModel.Dispatch(old(View()), ControllerModel.ActScanSlaves))
      ensures ok == ControllerModel.Dispatch(old(View()), ControllerModel.ActScanSlaves).ok
    {
      hide SlaveNode.Valid;
      hide SlaveNode.View;
      hide CycleStatistics.After;
      hide CycleStatistics.NeverDivides;
      if !state.AdapterReady? {
        return false;
      }
      ok := Dispatch(ControllerModel.ActScanSlaves);
    }

    method EnterMaintenance() returns (ok: bool)
      requires Valid()
      modifies this, master, manager, manager.nodes
      ensures Took(ControllerModel.Dispatch(old(View()), ControllerModel.ActEnterMaintenance))
      ensures ok == ControllerModel.Dispatch(old(View()), ControllerModel.ActEnterMaintenance).ok
    {
      hide SlaveNode.Valid;
      hide SlaveNode.View;
      hide CycleStatistics.After;
      hide CycleStatistics.NeverDivides;
      if !state.Scanned? {
        return false;
      }
      ok := Dispatch(ControllerModel.ActEnterMaintenance);
    }

    method PrepareRun() returns (ok: bool)
      requires Valid()
      modifies this, master, manager, manager.nodes
      ensures Took(ControllerModel.Dispatch(old(View()), ControllerModel.ActPrepareRun))
      ensures ok == ControllerModel.Dispatch(old(View()), ControllerModel.ActPrepareRun).ok
    {
      hide SlaveNode.Valid;
      hide SlaveNode.View;
      hide CycleStatistics.After;
      hide CycleStatistics.NeverDivides;
      if !state.Maintenance? {
        return false;
      }
      ok := Dispatch(ControllerModel.ActPrepareRun);
    }

    method StartOperation() returns (ok: bool)
      requires Valid()
      modifies this, master, manager, manager.nodes
      ensures Took(ControllerModel.Dispatch(old(View()), ControllerModel.ActStartOperation))
      ensures ok == ControllerModel.Dispatch(old(View()), ControllerModel.ActStartOperation).ok
    {
      hide SlaveNode.Valid;
      hide SlaveNode.View;
      hide CycleStatistics.After;
      hide CycleStatistics.NeverDivides;
      if !state.ReadyToRun? {
        return false;
      }
      ok := Dispatch(ControllerModel.ActStartOperation);
    }

    method BackToMaintenance() returns (ok: bool)
      requires Valid()
      modifies this, master, manager, manager.nodes
      ensures Took(ControllerModel.Dispatch(old(View()), ControllerModel.ActBackToMaintenance))
      ensures ok == ControllerModel.Dispatch(old(View()), ControllerModel.ActBackToMaintenance).ok
    {
      hide SlaveNode.Valid;
      hide SlaveNode.View;
      hide CycleStatistics.After;
      hide CycleStatistics.NeverDivides;
      if !state.ReadyToRun? && !state.Operational? {
        return false;
      }
      ok := Dispatch(ControllerModel.ActBackToMaintenance);
    }

    method Initialize(config: ControllerModel.Config) returns (ok: bool)
      requires Valid()
      modifies this, master, manager, manager.nodes
      ensures Took(ControllerModel.DoInitialize(old(View()), config))
          && ok == ControllerModel.DoInitialize(old(View()), config).ok
    {
      hide ControllerModel.Dispatch;
      hide SlaveNode.Valid;
      hide SlaveNode.View;
      hide CycleStatistics.After;
      hide CycleStatistics.NeverDivides;
      if !state.Uninitialized? {
        return false;
      }
      ghost var a := ControllerModel.DoInitializeAdapter(View(), config);
      ghost var b := ControllerModel.Dispatch(a.ctl, ControllerModel.ActScanSlaves);
      ghost var c := ControllerModel.Dispatch(b.ctl, ControllerModel.ActEnterMaintenance);
      hide ControllerModel.DoInitializeAdapter;
      ok := InitializeAdapter(config);
      if !ok {
        return false;
      }
      Associative(old(master.trace), a.events, b.events);
      assert forall i | 0 <= i < |manager.nodes| :: manager.nodes[i] in old(manager.nodes) || fresh(manager.nodes[i]);
      ok := Scan();
      if !ok {
        return false;
      }
      Associative(old(master.trace), a.events + b.events, c.events);
      assert forall i | 0 <= i < |manager.nodes| :: manager.nodes[i] in old(manager.nodes) || fresh(manager.nodes[i]);
      ok := EnterMaintenance();
    }

    method RequestFault()
      requires Valid()
      modifies this, master, manager, manager.nodes
      ensures Took(ControllerModel.Dispatch(old(View()), ControllerModel.ActRequestFault))
    {
      var _ := Dispatch(ControllerModel.ActRequestFault);
    }

    method RequestEmergencyStop()
      requires Valid()
      modifies this, master, manager, manager.nodes
      ensures Took(ControllerModel.Dispatch(old(View()), ControllerModel.ActRequestEmergencyStop))
    {
      var _ := Dispatch(ControllerModel.ActRequestEmergencyStop);
    }

    method Stop()
      requires Valid()
      modifies this, master, manager, manager.nodes
      ensures Took(ControllerModel.DoStop(old(View())))
    {
      hide ControllerModel.Dispatch;
      hide SlaveNode.Valid;
      hide SlaveNode.View;
      hide CycleStatistics.After;
      hide CycleStatistics.NeverDivides;
      if state.Uninitialized? {
        return;
      }
      var _ := Dispatch(ControllerModel.ActStop);
    }
  }

  /** A shutdown starts from the bus it is given. */
  lemma ShutdownFrom(c: ControllerModel.Ctl, other: Bus, bus: Bus)
    ensures ControllerModel.DoShutdown(c.(bus := other), bus) == ControllerModel.DoShutdown(c, bus)
  {
    hide ControllerModel.ShutdownRequests;
  }

  lemma StoppedOk(c: ControllerModel.Ctl, bus: Bus)
    ensures ControllerModel.EnterStopped(c, bus, Fault).ok && ControllerModel.EnterStopped(c, bus, EmergencyStop).ok
  {
  }

  lemma ShutdownOk(c: ControllerModel.Ctl, bus: Bus)
    ensures ControllerModel.DoShutdown(c, bus).ok
  {
  }

  lemma PreparedTrace(a: seq<Event>, b: seq<Event>, c: seq<Event>, d: seq<Event>)
    ensures a + b + c + d == a + ((b + c) + d)
  {
    Associative(a, b, c);
    Associative(a, b + c, d);
  }

  lemma FourParts(a: seq<Event>, b: seq<Event>, c: seq<Event>, d: seq<Event>)
    ensures a + b + c + d == a + (b + (c + d))
  {
    Associative(a, b, c + d);
    Associative(a + b, c, d);
  }
}
