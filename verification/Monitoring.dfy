/** The service loop: process data and the throttled check of the slave states; and how soon a slave
    that drops out is noticed. */
module Monitoring {
  import opened Wrappers
  import opened EcTypes
  import opened BusModel
  import opened SlaveNodes
  import opened ControllerModel
  import opened ControllerRuns
  import opened RuntimeStates

  /** 500 milliseconds, in nanoseconds. */
  const STATE_CHECK_INTERVAL := 500_000_000

  /** announced is the runtime state of a lifecycle call in progress. */
  datatype Facade = Facade(ctl: Ctl, lastCheck: int, announced: Option<RuntimeState>)

  datatype Serviced = Serviced(facade: Facade, events: seq<Event>)

  const FALLBACK := RuntimeState(FaultMode, Stable, NoStage)

  function CurrentRuntimeState(f: Facade): RuntimeState {
    if f.announced.Some? then (if IsValidRuntimeState(f.announced.value) then f.announced.value else FALLBACK)
    else
      var s := ToRuntimeState(f.ctl.state);
      if IsValidRuntimeState(s) then s else FALLBACK
  }

  function CheckSlaveStates(f: Facade, now: int): Serviced {
    if now - f.lastCheck < STATE_CHECK_INTERVAL then Serviced(f, [])
    else
      var s := DoCheckSlaveStates(f.ctl);
      Serviced(f.(ctl := s.ctl, lastCheck := now), s.events)
  }

  function Service(f: Facade, now: int): Serviced
    requires NodesCovered(f.ctl)
  {
    var r := CurrentRuntimeState(f);
    if CanRunMaintenanceActivity(r) then CheckSlaveStates(f, now)
    else if CanRunProcessData(r) then
      var cycle := DoRunOnce(f.ctl);
      var check := CheckSlaveStates(f.(ctl := cycle.ctl), now);
      Serviced(check.facade, cycle.events + check.events)
    else Serviced(f, [])
  }

  /** What the check in this service call would read, were it made, shows a slave in the wrong state. */
  predicate WouldReadDropout(c: Ctl) {
    Watched(c.state) != 0
    && var bus := if c.state.Operational? then ExchangeData(c.bus).bus else c.bus;
       !AllInState(bus.count, Next(bus).states, Watched(c.state))
  }

  /** Exactly when a call of Service raises a fault: in Maintenance or Operational with no transition
      announced, the last check long enough ago, and a slave read in the wrong state. */
  lemma FaultExactly(f: Facade, now: int)
    requires NodesCovered(f.ctl) && f.announced.None? && !f.ctl.state.Fault?
    ensures Service(f, now).facade.ctl.state.Fault? <==>
              Watched(f.ctl.state) != 0 && now - f.lastCheck >= 500_000_000 && WouldReadDropout(f.ctl)
    ensures !Service(f, now).facade.ctl.state.Fault? ==> Service(f, now).facade.ctl.state == f.ctl.state
    ensures Service(f, now).facade.lastCheck ==
              if Watched(f.ctl.state) != 0 && now - f.lastCheck >= 500_000_000 then now else f.lastCheck
    ensures Service(f, now).facade.announced.None?
  {
    hide AllOutputs;
    hide AllInputs;
    hide AllUpdated;
    hide AllEncoded;
    hide Snapshot;
    hide AllInState;
  }

  /** A fault raised by Service was read on the bus: the trace ends with the reading of a slave outside
      PRE_OP in Maintenance, outside OPERATIONAL in Operational. */
  lemma FaultWasRead(f: Facade, now: int)
    requires NodesCovered(f.ctl) && f.announced.None? && !f.ctl.state.Fault?
    requires Service(f, now).facade.ctl.state.Fault?
    ensures var events := Service(f, now).events;
            && |events| >= 2 && events[|events| - 1] == Entered(Fault)
            && var reading := events[|events| - 2];
               && reading.ReadState?
               && (f.ctl.state.Maintenance? || f.ctl.state.Operational?)
               && (f.ctl.state.Maintenance? ==> !AllInState(reading.count, reading.states, EC_STATE_PRE_OP))
               && (f.ctl.state.Operational? ==> !AllInState(reading.count, reading.states, EC_STATE_OPERATIONAL))
  {
    hide AllOutputs;
    hide AllInputs;
    hide AllUpdated;
    hide AllEncoded;
    hide Snapshot;
    hide AllInState;
  }

  /** Whether an event belongs to a process data cycle. */
  predicate OfCycle(e: Event) { e.Exchange? || e.WriteOutput? || e.ReadInput? }

  /** A service call in Operational, with no transition announced, begins with exactly one cycle, and no other service
      call has any part of one. */
  lemma ServiceCycles(f: Facade, now: int)
    requires NodesCovered(f.ctl)
    ensures var r := Service(f, now);
            if f.announced.None? && f.ctl.state.Operational? then
              var cycle := AllOutputs(f.ctl.nodes) + [Exchange] + AllInputs(AllEncoded(f.ctl.nodes));
              cycle <= r.events && forall e | e in r.events[|cycle|..] :: !OfCycle(e)
            else forall e | e in r.events && f.announced.None? :: !OfCycle(e)
  {
    hide AllOutputs;
    hide AllInputs;
    hide AllUpdated;
    hide AllEncoded;
    hide Snapshot;
    hide AllInState;
  }

  // ---------- Dropout latency ----------

  ghost function ServiceAll(f: Facade, times: seq<int>): (r: Facade)
    requires NodesCovered(f.ctl)
    ensures NodesCovered(r.ctl)
    decreases |times|
  {
    if times == [] then f
    else
      var before := ServiceAll(f, times[..|times| - 1]);
      ServiceCovered(before, times[|times| - 1]);
      Service(before, times[|times| - 1]).facade
  }

  lemma ServiceCovered(f: Facade, now: int)
    requires NodesCovered(f.ctl)
    ensures NodesCovered(Service(f, now).facade.ctl)
  {
    hide AllOutputs;
    hide AllInputs;
    hide Snapshot;
    hide AllInState;
    DoCovered(f.ctl, RunOnce);
    hide Covered;
    hide Updated;
    hide Encoded;
  }

  /** From time t on some slave is out of the state it is watched for, as far as any check would read. */
  ghost predicate DroppedOutAt(f: Facade, times: seq<int>, t: int)
    requires NodesCovered(f.ctl)
  {
    forall i | 0 <= i < |times| && times[i] >= t ::
      Watched(ServiceAll(f, times[..i]).ctl.state) != 0 ==> WouldReadDropout(ServiceAll(f, times[..i]).ctl)
  }

  /** As long as the fault is not raised, no check was made since the slave dropped out. */
  lemma {:induction false} NoCheckSince(f: Facade, times: seq<int>, t: int)
    requires NodesCovered(f.ctl) && f.announced.None? && Watched(f.ctl.state) != 0 && f.lastCheck < t
    requires DroppedOutAt(f, times, t)
    ensures var r := ServiceAll(f, times);
            r.announced.None? && (r.ctl.state.Fault? || (r.ctl.state == f.ctl.state && r.lastCheck < t))
    decreases |times|
  {
    hide Service;
    hide WouldReadDropout;
    if times != [] {
      var front, now := times[..|times| - 1], times[|times| - 1];
      DroppedFront(f, times, t);
      NoCheckSince(f, front, t);
      var before := ServiceAll(f, front);
      if before.ctl.state.Fault? { FaultStays(before, now); } else { FaultExactly(before, now); }
    }
  }

  lemma DroppedFront(f: Facade, times: seq<int>, t: int)
    requires NodesCovered(f.ctl) && times != [] && DroppedOutAt(f, times, t)
    ensures DroppedOutAt(f, times[..|times| - 1], t)
  {
    hide WouldReadDropout;
    hide ServiceAll;
    var front := times[..|times| - 1];
    forall i | 0 <= i < |front| && front[i] >= t
      ensures Watched(ServiceAll(f, front[..i]).ctl.state) != 0 ==> WouldReadDropout(ServiceAll(f, front[..i]).ctl)
    {
      assert front[..i] == times[..i];
    }
  }

  lemma FaultStays(f: Facade, now: int)
    requires NodesCovered(f.ctl) && f.announced.None? && f.ctl.state.Fault?
    ensures Service(f, now).facade == f
  {
  }

  /** Any service call at least one check interval after the dropout leaves the controller in Fault. */
  lemma NoticedByAnyLateCall(f: Facade, times: seq<int>, t: int, j: nat)
    requires NodesCovered(f.ctl) && f.announced.None? && Watched(f.ctl.state) != 0 && f.lastCheck < t
    requires DroppedOutAt(f, times, t) && j < |times| && times[j] >= t + 500_000_000
    ensures ServiceAll(f, times[..j + 1]).ctl.state.Fault?
  {
    hide Service;
    hide WouldReadDropout;
    var front := times[..j];
    assert times[..j + 1][..j] == front;
    forall i | 0 <= i < |front| ensures front[..i] == times[..i] && front[i] == times[i] {}
    NoCheckSince(f, front, t);
    var before := ServiceAll(f, front);
    if before.ctl.state.Fault? { FaultStays(before, times[j]); } else { FaultExactly(before, times[j]); }
  }

  /** With service calls at most gap apart the fault is raised by t + 500 ms + gap. */
  lemma DropoutNoticed(f: Facade, times: seq<int>, t: int, gap: nat)
    requires NodesCovered(f.ctl) && f.announced.None? && Watched(f.ctl.state) != 0 && f.lastCheck < t
    requires DroppedOutAt(f, times, t)
    requires times != [] && times[0] <= t + 500_000_000 + gap && times[|times| - 1] >= t + 500_000_000
    requires forall i | 0 < i < |times| :: times[i - 1] <= times[i] <= times[i - 1] + gap
    ensures exists j ::
        0 <= j < |times| && times[j] <= t + 500_000_000 + gap && ServiceAll(f, times[..j + 1]).ctl.state.Fault?
  {
    var j := FirstAtLeast(times, t + 500_000_000);
    NoticedByAnyLateCall(f, times, t, j);
  }

  ghost function FirstAtLeast(times: seq<int>, bound: int): (j: nat)
    requires times != [] && times[|times| - 1] >= bound
    ensures j < |times| && times[j] >= bound && (j > 0 ==> times[j - 1] < bound)
    decreases |times|
  {
    if |times| == 1 || times[|times| - 2] < bound then |times| - 1 else FirstAtLeast(times[..|times| - 1], bound)
  }
}
