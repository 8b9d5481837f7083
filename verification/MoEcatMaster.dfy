/** The cyclic engine and the facade object in front of the controller. */
module MoEcatMasters {
  import opened Wrappers
  import opened EcTypes
  import opened SlaveNodeObjects
  import opened EcControllers
  import opened RuntimeStates
  import opened Flattening
  import BusModel
  import CycleStatistics
  import SlaveNodes
  import ControllerModel
  import Monitoring

  class ProcessDataEngine {
    const controller: EcController
    var lastStateCheck: int

    constructor (controller: EcController)
      ensures this.controller == controller && lastStateCheck == 0
    {
      this.controller, lastStateCheck := controller, 0;
    }

    method RunOnce(now: int)
      requires controller.Valid()
      modifies controller.master, controller.manager.nodes
      ensures controller.Valid()
      ensures var s := ControllerModel.DoRunOnce(old(controller.View()));
              controller.View() == s.ctl && controller.master.trace == old(controller.master.trace) + s.events
    {
      hide SlaveNode.Valid;
      hide SlaveNode.View;
      hide CycleStatistics.After;
      hide CycleStatistics.NeverDivides;
      hide SlaveNodes.Encoded;
      hide SlaveNodes.Updated;
      hide SlaveNodes.Covered;
      hide SlaveNodes.AllOutputs;
      hide SlaveNodes.AllInputs;
      if !controller.state.Operational? {
        return;
      }
      ghost var nodes := controller.View().nodes;
      ControllerModel.EncodedCovered(nodes);
      controller.manager.UpdateAllOutputs(controller.master);
      controller.master.RunOneCycle(now);
      controller.manager.UpdateAllInputs(controller.master);
    }

    /** At most one reading in each check interval. */
    method CheckSlaveStates(now: int)
      requires controller.Valid()
      modifies this, controller, controller.master, controller.manager, controller.manager.nodes
      ensures var r := Monitoring.CheckSlaveStates(Monitoring.Facade(old(controller.View()), old(lastStateCheck),
          None), now);
              controller.Took(ControllerModel.Step(r.facade.ctl, true, r.events))
                  && lastStateCheck == r.facade.lastCheck
    {
      hide SlaveNode.Valid;
      hide SlaveNode.View;
      hide CycleStatistics.After;
      hide CycleStatistics.NeverDivides;
      hide ControllerModel.Snapshot;
      hide AllInState;
      if now - lastStateCheck < Monitoring.STATE_CHECK_INTERVAL {
        return;
      }
      lastStateCheck := now;

      var expected := ControllerModel.Watched(controller.state);
      if expected == 0 {
        return;
      }
      ghost var o := BusModel.CheckAll(controller.master.View(), expected);
      var all := controller.master.CheckAllSlavesInState(expected);
      if !all {
        controller.RequestFault();
        Associative(old(controller.master.trace), o.events, [Entered(Fault)]);
      }
    }
  }

  class MoEcatMaster {
    const controller: EcController
    const engine: ProcessDataEngine
    // The runtime state of a lifecycle call in progress.
    var announced: Option<RuntimeState>
    // The runtime states shown to the callback so far.
    ghost var shown: seq<RuntimeState>

    ghost predicate Valid()
      reads this, controller, controller.master, controller.manager, controller.manager.nodes
    {
      controller.Valid() && engine.controller == controller && announced.None?
    }

    ghost function View(): Monitoring.Facade
      reads this, engine, controller, controller.master, controller.manager, controller.manager.nodes
    {
      Monitoring.Facade(controller.View(), engine.lastStateCheck, announced)
    }

    /** A lifecycle call shows its transition and then the state it has led to. */
    twostate predicate Announced(transition: RuntimeState)
      reads this, controller
    {
      announced.None? && shown == old(shown) + [transition, ToRuntimeState(controller.state)]
    }

    constructor (replies: seq<Reply>, snapshots: seq<map<int, nat>>)
      ensures Valid() && controller.View() == ControllerModel.New(replies, snapshots) && engine.lastStateCheck == 0
      ensures fresh(controller) && fresh(controller.master) && fresh(controller.manager) && fresh(engine) && shown == []
    {
      var c := new EcController(replies, snapshots);
      controller := c;
      engine := new ProcessDataEngine(c);
      announced, shown := None, [];
    }

    method CurrentRuntimeState() returns (s: RuntimeState)
      ensures s == Monitoring.CurrentRuntimeState(View())
    {
      if announced.Some? {
        if IsValidRuntimeState(announced.value) {
          return announced.value;
        }
        return Monitoring.FALLBACK;
      }
      s := ToRuntimeState(controller.state);
      if !IsValidRuntimeState(s) {
        s := Monitoring.FALLBACK;
      }
    }

    /** An invalid state is announced as a fault instead; the calls below announce only valid ones. */
    method BeginRuntimeTransition(state: RuntimeState)
      modifies this`announced, this`shown
      ensures announced.Some? && IsValidRuntimeState(announced.value) && shown == old(shown) + [announced.value]
      ensures announced.value == if IsValidRuntimeState(state) then state
          else RuntimeState(FaultMode, Entering, NoStage)
    {
      var s := state;
      if !IsValidRuntimeState(s) {
        s := RuntimeState(FaultMode, Entering, NoStage);
      }
      announced := Some(s);
      shown := shown + [s];
    }

    method EndRuntimeTransition()
      modifies this`announced, this`shown
      ensures announced.None? && shown == old(shown) + [ToRuntimeState(controller.state)]
    {
      announced := None;
      shown := shown + [ToRuntimeState(controller.state)];
    }

    method InitializeAdapter(config: ControllerModel.Config) returns (ok: bool)
      requires Valid()
      modifies this, controller, controller.master, controller.manager, controller.manager.nodes
      ensures controller.Took(ControllerModel.DoInitializeAdapter(old(controller.View()), config))
      ensures Announced(RuntimeState(PrepareMode, Entering, AdapterStage))
      ensures ok == ControllerModel.DoInitializeAdapter(old(controller.View()), config).ok
    {
      hide EcController.Valid;
      hide ControllerModel.Dispatch;
      hide ControllerModel.DoInitializeAdapter;
      hide ControllerModel.DoStop;
      BeginRuntimeTransition(RuntimeState(PrepareMode, Entering, AdapterStage));
      ok := controller.InitializeAdapter(config);
      EndRuntimeTransition();
    }

    method Scan() returns (ok: bool)
      requires Valid()
      modifies this, controller, controller.master, controller.manager, controller.manager.nodes
      ensures controller.Took(ControllerModel.Dispatch(old(controller.View()), ControllerModel.ActScanSlaves))
      ensures Announced(RuntimeState(PrepareMode, Entering, TopologyStage))
      ensures ok == ControllerModel.Dispatch(old(controller.View()), ControllerModel.ActScanSlaves).ok
    {
      hide EcController.Valid;
      hide ControllerModel.Dispatch;
      hide ControllerModel.DoInitializeAdapter;
      hide ControllerModel.DoStop;
      BeginRuntimeTransition(RuntimeState(PrepareMode, Entering, TopologyStage));
      ok := controller.Scan();
      EndRuntimeTransition();
    }

    method EnterMaintenance() returns (ok: bool)
      requires Valid()
      modifies this, controller, controller.master, controller.manager, controller.manager.nodes
      ensures controller.Took(ControllerModel.Dispatch(old(controller.View()), ControllerModel.ActEnterMaintenance))
      ensures Announced(RuntimeState(PrepareMode, Entering, PreOpStage))
      ensures ok == ControllerModel.Dispatch(old(controller.View()), ControllerModel.ActEnterMaintenance).ok
    {
      hide EcController.Valid;
      hide ControllerModel.Dispatch;
      hide ControllerModel.DoInitializeAdapter;
      hide ControllerModel.DoStop;
      BeginRuntimeTransition(RuntimeState(PrepareMode, Entering, PreOpStage));
      ok := controller.EnterMaintenance();
      EndRuntimeTransition();
    }

    method PrepareRun() returns (ok: bool)
      requires Valid()
      modifies this, controller, controller.master, controller.manager, controller.manager.nodes
      ensures controller.Took(ControllerModel.Dispatch(old(controller.View()), ControllerModel.ActPrepareRun))
      ensures Announced(RuntimeState(PrepareMode, Entering, SafeOpStage))
      ensures ok == ControllerModel.Dispatch(old(controller.View()), ControllerModel.ActPrepareRun).ok
    {
      hide EcController.Valid;
      hide ControllerModel.Dispatch;
      hide ControllerModel.DoInitializeAdapter;
      hide ControllerModel.DoStop;
      BeginRuntimeTransition(RuntimeState(PrepareMode, Entering, SafeOpStage));
      ok := controller.PrepareRun();
      EndRuntimeTransition();
    }

    method StartOperation() returns (ok: bool)
      requires Valid()
      modifies this, controller, controller.master, controller.manager, controller.manager.nodes
      ensures controller.Took(ControllerModel.Dispatch(old(controller.View()), ControllerModel.ActStartOperation))
      ensures Announced(RuntimeState(RunMode, Entering, NoStage))
      ensures ok == ControllerModel.Dispatch(old(controller.View()), ControllerModel.ActStartOperation).ok
    {
      hide EcController.Valid;
      hide ControllerModel.Dispatch;
      hide ControllerModel.DoInitializeAdapter;
      hide ControllerModel.DoStop;
      BeginRuntimeTransition(RuntimeState(RunMode, Entering, NoStage));
      ok := controller.StartOperation();
      EndRuntimeTransition();
    }

    method BackToMaintenance() returns (ok: bool)
      requires Valid()
      modifies this, controller, controller.master, controller.manager, controller.manager.nodes
      ensures controller.Took(ControllerModel.Dispatch(old(controller.View()), ControllerModel.ActBackToMaintenance))
      ensures ok == ControllerModel.Dispatch(old(controller.View()), ControllerModel.ActBackToMaintenance).ok
      ensures Announced(if old(controller.state).Operational? then RuntimeState(RunMode, Exiting, NoStage)
                        else RuntimeState(PrepareMode, Entering, PreOpStage))
    {
      hide EcController.Valid;
      hide ControllerModel.Dispatch;
      var current := CurrentRuntimeState();
      if current.mode.RunMode? {
        BeginRuntimeTransition(RuntimeState(RunMode, Exiting, NoStage));
      } else {
        BeginRuntimeTransition(RuntimeState(PrepareMode, Entering, PreOpStage));
      }
      ok := controller.BackToMaintenance();
      EndRuntimeTransition();
    }

    method Stop()
      requires Valid()
      modifies this, controller, controller.master, controller.manager, controller.manager.nodes
      ensures controller.Took(ControllerModel.DoStop(old(controller.View())))
      ensures Announced(ToRuntimeState(old(controller.state)).(transition := Exiting))
    {
      hide EcController.Valid;
      hide ControllerModel.DoStop;
      var current := CurrentRuntimeState();
      BeginRuntimeTransition(current.(transition := Exiting));
      controller.Stop();
      EndRuntimeTransition();
    }

    method RequestFault()
      requires Valid()
      modifies this, controller, controller.master, controller.manager, controller.manager.nodes
      ensures controller.Took(ControllerModel.Dispatch(old(controller.View()), ControllerModel.ActRequestFault))
      ensures Announced(RuntimeState(FaultMode, Entering, NoStage))
    {
      hide EcController.Valid;
      hide ControllerModel.Dispatch;
      hide ControllerModel.DoInitializeAdapter;
      hide ControllerModel.DoStop;
      BeginRuntimeTransition(RuntimeState(FaultMode, Entering, NoStage));
      controller.RequestFault();
      EndRuntimeTransition();
    }

    method RequestEmergencyStop()
      requires Valid()
      modifies this, controller, controller.master, controller.manager, controller.manager.nodes
      ensures controller.Took(ControllerModel.Dispatch(old(controller.View()), ControllerModel.ActRequestEmergencyStop))
      ensures Announced(RuntimeState(EmergencyStopMode, Entering, NoStage))
    {
      hide EcController.Valid;
      hide ControllerModel.Dispatch;
      hide ControllerModel.DoInitializeAdapter;
      hide ControllerModel.DoStop;
      BeginRuntimeTransition(RuntimeState(EmergencyStopMode, Entering, NoStage));
      controller.RequestEmergencyStop();
      EndRuntimeTransition();
    }

    method Service(now: int)
      requires Valid()
      modifies this, engine, controller, controller.master, controller.manager, controller.manager.nodes
      ensures Valid()
      ensures var r := Monitoring.Service(old(View()), now);
              View() == r.facade && controller.master.trace == old(controller.master.trace) + r.events
    {
      hide EcController.Valid;
      hide ControllerModel.DoCheckSlaveStates;
      hide ControllerModel.DoRunOnce;
      var s := CurrentRuntimeState();
      ghost var before := View();
      var oldState := controller.state;
      if CanRunMaintenanceActivity(s) {
        engine.CheckSlaveStates(now);
      } else if CanRunProcessData(s) {
        ghost var cycle := ControllerModel.DoRunOnce(before.ctl);
        Associative(old(controller.master.trace), cycle.events,
            Monitoring.CheckSlaveStates(before.(ctl := cycle.ctl), now).events);
        engine.RunOnce(now);
        engine.CheckSlaveStates(now);
      }
      if controller.state != oldState {
        shown := shown + [ToRuntimeState(controller.state)];
      }
    }
  }
}
