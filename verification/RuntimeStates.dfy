/** The runtime state shown to callers, and the gates that depend on it. */
module RuntimeStates {
  import opened EcTypes

  datatype MasterMode = InitMode | PrepareMode | RunMode | FaultMode | EmergencyStopMode

  datatype TransitionStage = Entering | Stable | Exiting

  datatype PrepareStage = NoStage | AdapterStage | TopologyStage | PreOpStage | SafeOpStage

  datatype RuntimeState = RuntimeState(mode: MasterMode, transition: TransitionStage, stage: PrepareStage)

  predicate IsValidRuntimeState(s: RuntimeState) { s.mode.PrepareMode? || s.stage.NoStage? }

  predicate CanRunMaintenanceActivity(s: RuntimeState) {
    s.mode.PrepareMode? && s.transition.Stable? && s.stage.PreOpStage?
  }

  predicate CanRunProcessData(s: RuntimeState) { s.mode.RunMode? && s.transition.Stable? && s.stage.NoStage? }

  function ToRuntimeState(state: ControllerState): RuntimeState {
    match state
    case Uninitialized => RuntimeState(InitMode, Stable, NoStage)
    case AdapterReady => RuntimeState(PrepareMode, Stable, AdapterStage)
    case Scanned => RuntimeState(PrepareMode, Stable, TopologyStage)
    case Maintenance => RuntimeState(PrepareMode, Stable, PreOpStage)
    case ReadyToRun => RuntimeState(PrepareMode, Stable, SafeOpStage)
    case Operational => RuntimeState(RunMode, Stable, NoStage)
    case Fault => RuntimeState(FaultMode, Stable, NoStage)
    case EmergencyStop => RuntimeState(EmergencyStopMode, Stable, NoStage)
  }

  /** The shown state is always valid and stable, names each controller state, and opens each gate in exactly one of
      them. */
  lemma RuntimeStateFaithful(a: ControllerState, b: ControllerState)
    ensures IsValidRuntimeState(ToRuntimeState(a)) && ToRuntimeState(a).transition.Stable?
    ensures ToRuntimeState(a).mode.InitMode? <==> a.Uninitialized?
    ensures ToRuntimeState(a).mode.RunMode? <==> a.Operational?
    ensures ToRuntimeState(a).mode.FaultMode? <==> a.Fault?
    ensures ToRuntimeState(a).mode.EmergencyStopMode? <==> a.EmergencyStop?
    ensures ToRuntimeState(a).stage.AdapterStage? <==> a.AdapterReady?
    ensures ToRuntimeState(a).stage.TopologyStage? <==> a.Scanned?
    ensures ToRuntimeState(a).stage.PreOpStage? <==> a.Maintenance?
    ensures ToRuntimeState(a).stage.SafeOpStage? <==> a.ReadyToRun?
    ensures ToRuntimeState(a) == ToRuntimeState(b) <==> a == b
    ensures CanRunMaintenanceActivity(ToRuntimeState(a)) <==> a.Maintenance?
    ensures CanRunProcessData(ToRuntimeState(a)) <==> a.Operational?
  {
  }

  /** While a transition is announced, both gates are closed. */
  lemma GatesClosedInTransition(s: RuntimeState)
    requires !s.transition.Stable?
    ensures !CanRunMaintenanceActivity(s) && !CanRunProcessData(s)
  {
  }
}
