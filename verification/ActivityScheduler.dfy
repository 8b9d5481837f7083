/** The activity scheduler: activities admitted one at a time, and what a failed one does to the controller. */
module ActivitySchedulers {
  import opened Wrappers
  import opened EcControllers
  import opened RuntimeStates
  import ControllerModel

  datatype Policy = KeepControllerState | EnterError | Shutdown

  datatype Outcome = Succeeds | Fails | Throws

  /** An activity may start in these runtime states, and ends well, badly or with an exception. */
  datatype Activity = Activity(startable: set<RuntimeState>, outcome: Outcome, policy: Policy)

  /** What a failed activity does to the controller. */
  function Applied(c: ControllerModel.Ctl, policy: Policy): ControllerModel.Step {
    match policy
    case EnterError => ControllerModel.Dispatch(c, ControllerModel.ActRequestFault)
    case Shutdown => ControllerModel.DoStop(c)
    case KeepControllerState => ControllerModel.Step(c, true, [])
  }

  /** A failed activity leaves the controller in Fault, Uninitialized or as it was. */
  lemma PolicyOutcome(c: ControllerModel.Ctl)
    ensures Applied(c, EnterError).ctl.state.Fault?
    ensures Applied(c, Shutdown).ctl.state.Uninitialized?
    ensures Applied(c, KeepControllerState).ctl == c && Applied(c, KeepControllerState).events == []
  {
    hide ControllerModel.Snapshot;
    hide ControllerModel.ShutdownRequests;
  }

  class ActivityScheduler {
    const controller: EcController
    var running: bool

    constructor (controller: EcController)
      ensures this.controller == controller && !running
    {
      this.controller, running := controller, false;
    }

    /** The runtime state is None where its provider throws; the result is None where an exception leaves the
        call, and then the flag stays set. */
    method Execute(activity: Option<Activity>, state: Option<RuntimeState>) returns (r: Option<bool>)
      requires controller.Valid()
      modifies this, controller, controller.master, controller.manager, controller.manager.nodes
      ensures var admitted := activity.Some? && !old(running);
              var started := admitted && state.Some? && state.value in activity.value.startable;
              && (r.None? <==> (admitted && state.None?) || (started && activity.value.outcome.Throws?))
              && (r.Some? ==> r.value == (started && activity.value.outcome.Succeeds?))
              && controller.Took(
                   if started && activity.value.outcome.Fails?
                       then Applied(old(controller.View()), activity.value.policy)
                   else ControllerModel.Step(old(controller.View()), true, []))
      ensures running <==> old(running) || r.None?
    {
      hide EcController.Valid;
      hide ControllerModel.Dispatch;
      hide ControllerModel.DoStop;
      if activity.None? {
        return Some(false);
      }
      var wasRunning := running;
      running := true;
      if wasRunning {
        return Some(false);
      }
      if state.None? {
        return None;
      }
      if state.value !in activity.value.startable {
        running := false;
        return Some(false);
      }
      if activity.value.outcome.Throws? {
        return None;
      }
      var ok := activity.value.outcome.Succeeds?;
      running := false;
      if !ok {
        match activity.value.policy {
          case EnterError => controller.RequestFault();
          case Shutdown => controller.Stop();
          case KeepControllerState =>
        }
      }
      return Some(ok);
    }
  }

  // ---------- Several threads ----------

  /** Where a thread is in Execute. */
  datatype Thread =
    | Outside
    | Admitted(activity: Activity) // has won the flag
    | Executing(activity: Activity)
    | Failing(policy: Policy) // has released the flag, its policy not yet applied

  datatype Scheduler = Scheduler(running: bool, threads: seq<Thread>, ctl: ControllerModel.Ctl)

  /** What the provider of the runtime state does: it tells the state of the controller, or the transition that
      a lifecycle call in progress has announced, or throws. */
  datatype Reading = OfController | OfTransition(state: RuntimeState) | NoReading

  datatype Act =
    | Enter(thread: nat, activity: Activity)
    | Start(thread: nat, reading: Reading)
    | Finish(thread: nat)
    | Apply(thread: nat)
    | Elsewhere(ctl: ControllerModel.Ctl) // the controller moved by somebody else

  predicate Enabled(s: Scheduler, a: Act) {
    a.Elsewhere?
    || (a.thread < |s.threads| &&
        match a
        case Enter(t, _) => s.threads[t].Outside?
        case Start(t, _) => s.threads[t].Admitted?
        case Finish(t) => s.threads[t].Executing?
        case Apply(t) => s.threads[t].Failing?)
  }

  predicate MayStart(s: Scheduler, activity: Activity, reading: Reading) {
    match reading
    case OfController => ToRuntimeState(s.ctl.state) in activity.startable
    case OfTransition(state) => state in activity.startable
    case NoReading => false
  }

  function Moved(s: Scheduler, t: nat, running: bool, to: Thread): Scheduler
    requires t < |s.threads|
  {
    s.(running := running, threads := s.threads[t := to])
  }

  /** One act; an act that is not possible changes nothing. */
  function Do(s: Scheduler, a: Act): Scheduler {
    if !Enabled(s, a) then s
    else
      match a
      case Enter(t, activity) => if s.running then s else Moved(s, t, true, Admitted(activity))
      case Start(t, reading) =>
        var activity := s.threads[t].activity;
        if reading.NoReading? then Moved(s, t, s.running, Outside)
        else if MayStart(s, activity, reading) then Moved(s, t, s.running, Executing(activity))
        else Moved(s, t, false, Outside)
      case Finish(t) =>
        var activity := s.threads[t].activity;
        match activity.outcome {
          case Succeeds => Moved(s, t, false, Outside)
          case Fails => Moved(s, t, false, Failing(activity.policy))
          case Throws => Moved(s, t, s.running, Outside)
        }
      case Apply(t) => Moved(s, t, s.running, Outside).(ctl := Applied(s.ctl, s.threads[t].policy).ctl)
      case Elsewhere(ctl) => s.(ctl := ctl)
  }

  function New(threads: nat, ctl: ControllerModel.Ctl): Scheduler { Scheduler(false, seq(threads, _ => Outside), ctl) }

  function Run(s: Scheduler, acts: seq<Act>): Scheduler {
    if acts == [] then s else Do(Run(s, acts[..|acts| - 1]), acts[|acts| - 1])
  }

  // ---------- Exclusion ----------

  predicate Inside(t: Thread) { t.Admitted? || t.Executing? }

  predicate SomeoneInside(s: Scheduler) { exists t :: 0 <= t < |s.threads| && Inside(s.threads[t]) }

  predicate AtMostOneInside(s: Scheduler) {
    forall t, u | 0 <= t < u < |s.threads| :: !(Inside(s.threads[t]) && Inside(s.threads[u]))
  }

  /** This act ends with an exception. */
  predicate Threw(s: Scheduler, a: Act) {
    Enabled(s, a)
    && ((a.Start? && a.reading.NoReading?) || (a.Finish? && s.threads[a.thread].activity.outcome.Throws?))
  }

  /** The flag is set exactly while a thread is inside or after an exception; after one nobody is inside. */
  predicate FlagFits(s: Scheduler, thrown: bool) {
    && AtMostOneInside(s)
    && (s.running <==> SomeoneInside(s) || thrown)
    && (thrown ==> !SomeoneInside(s))
  }

  lemma MovedInside(s: Scheduler, t: nat, running: bool, to: Thread)
    requires t < |s.threads| && AtMostOneInside(s) && (!SomeoneInside(s) || Inside(s.threads[t]) || !Inside(to))
    ensures AtMostOneInside(Moved(s, t, running, to))
    ensures Inside(to) ==> SomeoneInside(Moved(s, t, running, to))
    ensures Inside(s.threads[t]) && !Inside(to) ==> !SomeoneInside(Moved(s, t, running, to))
    ensures !Inside(s.threads[t]) && !Inside(to) ==> (SomeoneInside(Moved(s, t, running, to)) <==> SomeoneInside(s))
  {
    var r := Moved(s, t, running, to);
    assert r.threads[t] == to;
    if SomeoneInside(s) && !Inside(s.threads[t]) && !Inside(to) {
      var u :| 0 <= u < |s.threads| && Inside(s.threads[u]);
      assert Inside(r.threads[u]);
    }
    if Inside(s.threads[t]) { assert SomeoneInside(s); }
  }

  lemma StepKeepsFlag(s: Scheduler, a: Act, thrown: bool)
    requires FlagFits(s, thrown)
    ensures FlagFits(Do(s, a), thrown || Threw(s, a))
  {
    hide AtMostOneInside;
    hide Applied;
    hide MayStart;
    if Enabled(s, a) && !a.Elsewhere? {
      var t := a.thread;
      if Inside(s.threads[t]) { assert SomeoneInside(s); }
      hide SomeoneInside;
      match a
      case Enter(_, activity) => if !s.running { MovedInside(s, t, true, Admitted(activity)); }
      case Start(_, reading) =>
        MovedInside(s, t, s.running, Outside);
        MovedInside(s, t, s.running, Executing(s.threads[t].activity));
        MovedInside(s, t, false, Outside);
      case Finish(_) =>
        MovedInside(s, t, false, Outside);
        MovedInside(s, t, s.running, Outside);
        MovedInside(s, t, false, Failing(s.threads[t].activity.policy));
      case Apply(_) =>
        MovedInside(s, t, s.running, Outside);
        SameThreads(Moved(s, t, s.running, Outside), Do(s, a));
    } else if a.Elsewhere? {
      SameThreads(s, Do(s, a));
    }
  }

  lemma SameThreads(s: Scheduler, r: Scheduler)
    requires s.threads == r.threads
    ensures AtMostOneInside(s) == AtMostOneInside(r) && SomeoneInside(s) == SomeoneInside(r)
  {
  }

  ghost predicate ThrewBefore(s: Scheduler, acts: seq<Act>) {
    exists i :: 0 <= i < |acts| && Threw(Run(s, acts[..i]), acts[i])
  }

  lemma ThrewBeforeStep(s: Scheduler, acts: seq<Act>)
    requires acts != []
    ensures var front := acts[..|acts| - 1];
            ThrewBefore(s, acts) <==> ThrewBefore(s, front) || Threw(Run(s, front), acts[|acts| - 1])
  {
    hide Run;
    hide Threw;
    var front := acts[..|acts| - 1];
    forall i | 0 <= i < |front| ensures front[..i] == acts[..i] && front[i] == acts[i] {}
    if ThrewBefore(s, front) {
      var i :| 0 <= i < |front| && Threw(Run(s, front[..i]), front[i]);
      assert Threw(Run(s, acts[..i]), acts[i]);
    }
  }

  lemma {:induction false} RunKeepsFlag(s: Scheduler, acts: seq<Act>)
    requires FlagFits(s, false)
    ensures FlagFits(Run(s, acts), ThrewBefore(s, acts))
    decreases |acts|
  {
    hide Do;
    hide FlagFits;
    hide Threw;
    if acts != [] {
      var front := acts[..|acts| - 1];
      RunKeepsFlag(s, front);
      ThrewBeforeStep(s, acts);
      StepKeepsFlag(Run(s, front), acts[|acts| - 1], ThrewBefore(s, front));
    }
  }

  /** In every interleaving of any number of threads at most one activity is admitted or executing; and the flag
      is left set with nobody inside, so that no activity is ever admitted again, exactly after an exception. */
  lemma ActivitiesExclusive(threads: nat, ctl: ControllerModel.Ctl, acts: seq<Act>)
    ensures var s := Run(New(threads, ctl), acts);
            && AtMostOneInside(s)
            && (s.running && !SomeoneInside(s) <==> ThrewBefore(New(threads, ctl), acts))
            && (!s.running ==> !SomeoneInside(s))
  {
    RunKeepsFlag(New(threads, ctl), acts);
  }

  /** A run that ends so: the provider of the runtime state throws for the very first activity. */
  lemma ExceptionKeepsFlag(ctl: ControllerModel.Ctl, activity: Activity)
    ensures var acts := [Enter(0, activity), Start(0, NoReading)];
            && ThrewBefore(New(1, ctl), acts)
            && Run(New(1, ctl), acts).running && !SomeoneInside(Run(New(1, ctl), acts))
  {
    var s, acts := New(1, ctl), [Enter(0, activity), Start(0, NoReading)];
    assert acts[..1][..0] == [];
    assert Run(s, acts[..1]) == Do(s, acts[0]);
    assert Threw(Run(s, acts[..1]), acts[1]);
    ActivitiesExclusive(1, ctl, acts);
  }

  /** An admitted activity executes exactly if the state read is one it may start in; otherwise, unless the reading
      throws, the flag is free again. */
  lemma StartedIff(s: Scheduler, t: nat, reading: Reading)
    requires Enabled(s, Start(t, reading))
    ensures var activity, r := s.threads[t].activity, Do(s, Start(t, reading));
            && (r.threads[t] == Executing(activity) <==>
                  || (reading.OfController? && ToRuntimeState(s.ctl.state) in activity.startable)
                  || (reading.OfTransition? && reading.state in activity.startable))
            && (r.threads[t] == Executing(activity) || r.threads[t] == Outside)
            && (!reading.NoReading? && r.threads[t].Outside? ==> !r.running)
  {
  }

  // ---------- Failures applied late ----------

  predicate SomeoneFailing(s: Scheduler) { exists t :: 0 <= t < |s.threads| && s.threads[t].Failing? }

  /** An activity is under way while the failure of another has not been applied yet. */
  predicate Trailing(s: Scheduler) { SomeoneFailing(s) && SomeoneInside(s) }

  /** This act admits an activity while a failure is still to be applied. */
  predicate AdmitsTooEarly(s: Scheduler, a: Act) { a.Enter? && Enabled(s, a) && !s.running && SomeoneFailing(s) }

  /** One act leads to a trailing failure exactly from one, or by admitting too early. */
  lemma TrailingStep(s: Scheduler, a: Act)
    requires AtMostOneInside(s)
    ensures Trailing(Do(s, a)) ==> Trailing(s) || AdmitsTooEarly(s, a)
    ensures AdmitsTooEarly(s, a) ==> Trailing(Do(s, a))
  {
    hide Applied;
    hide MayStart;
    var r := Do(s, a);
    if AdmitsTooEarly(s, a) {
      var t :| 0 <= t < |s.threads| && s.threads[t].Failing?;
      assert r.threads[t].Failing? && Inside(r.threads[a.thread]);
    }
    if Trailing(r) && !AdmitsTooEarly(s, a) {
      var t :| 0 <= t < |r.threads| && r.threads[t].Failing?;
      var u :| 0 <= u < |r.threads| && Inside(r.threads[u]);
      assert Inside(s.threads[u]);
      assert s.threads[t].Failing?;
    }
  }

  ghost predicate EverTrailing(s: Scheduler, acts: seq<Act>) {
    exists n :: 0 <= n <= |acts| && Trailing(Run(s, acts[..n]))
  }

  ghost predicate EverTooEarly(s: Scheduler, acts: seq<Act>) {
    exists i :: 0 <= i < |acts| && AdmitsTooEarly(Run(s, acts[..i]), acts[i])
  }

  lemma FirstTrailing(s: Scheduler, acts: seq<Act>, n: nat)
    requires FlagFits(s, false) && !Trailing(s) && n <= |acts| && Trailing(Run(s, acts[..n]))
    ensures EverTooEarly(s, acts)
    decreases n
  {
    assert acts[..0] == [];
    assert n > 0;
    var before := Run(s, acts[..n - 1]);
    assert acts[..n][..n - 1] == acts[..n - 1];
    RunKeepsFlag(s, acts[..n - 1]);
    hide Run;
    hide Do;
    TrailingStep(before, acts[n - 1]);
    if !AdmitsTooEarly(before, acts[n - 1]) { FirstTrailing(s, acts, n - 1); }
  }

  /** In every interleaving: at some time an activity is under way while the failure of another is not yet applied,
      exactly if some Execute found the flag clear while a failure was still to be applied. */
  lemma FaultTrailsIff(threads: nat, ctl: ControllerModel.Ctl, acts: seq<Act>)
    ensures EverTrailing(New(threads, ctl), acts) <==> EverTooEarly(New(threads, ctl), acts)
  {
    var s := New(threads, ctl);
    hide AdmitsTooEarly;
    if EverTrailing(s, acts) {
      var n :| 0 <= n <= |acts| && Trailing(Run(s, acts[..n]));
      FirstTrailing(s, acts, n);
    }
    if EverTooEarly(s, acts) {
      var i :| 0 <= i < |acts| && AdmitsTooEarly(Run(s, acts[..i]), acts[i]);
      RunKeepsFlag(s, acts[..i]);
      TrailingStep(Run(s, acts[..i]), acts[i]);
      assert acts[..i + 1][..i] == acts[..i];
      assert Trailing(Run(s, acts[..i + 1]));
    }
  }

  /** Nobody calls while another call is under way: never with a single caller, nor when each call returns before
      the next begins. */
  ghost predicate OneAfterTheOther(s: Scheduler, acts: seq<Act>) {
    forall i | 0 <= i < |acts| && acts[i].Enter? :: forall t | 0 <= t < |s.threads|
        && t < |Run(s, acts[..i]).threads| ::
      t != acts[i].thread ==> Run(s, acts[..i]).threads[t].Outside?
  }

  lemma {:induction false} SameThreadCount(s: Scheduler, acts: seq<Act>)
    ensures |Run(s, acts).threads| == |s.threads|
    decreases |acts|
  {
    hide Applied;
    hide MayStart;
    if acts != [] { SameThreadCount(s, acts[..|acts| - 1]); }
  }

  /** Callers that come one after the other never see a failure trail. */
  lemma OrderlyCallersNeverTrail(threads: nat, ctl: ControllerModel.Ctl, acts: seq<Act>)
    requires OneAfterTheOther(New(threads, ctl), acts)
    ensures !EverTrailing(New(threads, ctl), acts)
  {
    var s := New(threads, ctl);
    FaultTrailsIff(threads, ctl, acts);
    hide Run;
    forall i | 0 <= i < |acts| ensures !AdmitsTooEarly(Run(s, acts[..i]), acts[i]) {
      SameThreadCount(s, acts[..i]);
      NotTooEarly(Run(s, acts[..i]), acts[i]);
    }
  }

  lemma NotTooEarly(s: Scheduler, a: Act)
    requires a.Enter? ==> forall t | 0 <= t < |s.threads| :: t != a.thread ==> s.threads[t].Outside?
    ensures !AdmitsTooEarly(s, a)
  {
  }

  lemma SingleCallerIsOrderly(ctl: ControllerModel.Ctl, acts: seq<Act>)
    ensures var s := New(1, ctl);
            (forall i | 0 <= i < |acts| && acts[i].Enter? :: acts[i].thread == 0) ==> OneAfterTheOther(s, acts)
  {
  }

  /** The flag is released before the policy is applied: with two callers a second activity can be executing while
      the fault of the first has not yet been raised. */
  lemma FaultMayTrailNextActivity(ctl: ControllerModel.Ctl)
    ensures var bad := Activity({ToRuntimeState(ctl.state)}, Fails, EnterError);
            var s := Run(New(2, ctl),
                [Enter(0, bad), Start(0, OfController), Finish(0), Enter(1, bad), Start(1, OfController)]);
            s.threads == [Failing(EnterError), Executing(bad)] && s.ctl == ctl && Trailing(s)
  {
    var bad := Activity({ToRuntimeState(ctl.state)}, Fails, EnterError);
    var acts := [Enter(0, bad), Start(0, OfController), Finish(0), Enter(1, bad), Start(1, OfController)];
    var s0 := New(2, ctl);
    var s3 := Do(Do(Do(s0, acts[0]), acts[1]), acts[2]);
    assert s3.threads == [Failing(EnterError), Outside] && !s3.running && s3.ctl == ctl;
    var s5 := Do(Do(s3, acts[3]), acts[4]);
    assert s5.threads == [Failing(EnterError), Executing(bad)] && s5.ctl == ctl;
    assert s5.threads[0].Failing? && Inside(s5.threads[1]);
    hide Do;
    FiveActs(s0, acts);
  }

  lemma FiveActs(s: Scheduler, acts: seq<Act>)
    requires |acts| == 5
    ensures Run(s, acts) == Do(Do(Do(Do(Do(s, acts[0]), acts[1]), acts[2]), acts[3]), acts[4])
  {
    hide Do;
    assert acts[..4][..3] == acts[..3] && acts[..3][..2] == acts[..2] && acts[..2][..1] == acts[..1]
        && acts[..1][..0] == [];
    assert Run(s, acts[..1]) == Do(s, acts[0]);
    assert Run(s, acts[..2]) == Do(Run(s, acts[..1]), acts[1]);
    assert Run(s, acts[..3]) == Do(Run(s, acts[..2]), acts[2]);
    assert Run(s, acts[..4]) == Do(Run(s, acts[..3]), acts[3]);
  }
}
