/** The cyclic runner: a task repeated at absolute times, and how late its iterations start. */
module CyclicRunners {

  function Max(a: int, b: int): int { if a >= b then a else b }

  /** How late iteration k starts when iteration i takes costs[i]: whatever exceeds the period is carried
      over, nothing else is. */
  function Late(costs: seq<nat>, period: int, k: nat): int
    requires k <= |costs|
  {
    if k == 0 then 0 else Max(0, Late(costs, period, k - 1) + costs[k - 1] - period)
  }

  class CyclicRunner {
    const cycleTime: int
    var running: bool

    constructor (cycleTime: int)
      ensures this.cycleTime == cycleTime && !running
    {
      this.cycleTime, running := cycleTime, false;
    }

    method Start() returns (ok: bool)
      modifies this
      ensures running && ok == !old(running)
    {
      if running {
        return false;
      }
      running := true;
      return true;
    }

    method Stop()
      modifies this
      ensures !running
    {
      if !running {
        return;
      }
      running := false;
    }

    /** The loop from its first look at the clock until running is cleared, which is after |costs| iterations;
        the sleep ends at its deadline, or at once if that has passed. The result is when each iteration
        starts. */
    method RunLoop(now: int, costs: seq<nat>) returns (starts: seq<int>)
      ensures |starts| == |costs|
      ensures forall k | 0 <= k < |costs| :: starts[k] == now + k * cycleTime + Late(costs, cycleTime, k)
    {
      var clock, nextTime := now, now;
      starts := [];
      for i := 0 to |costs|
        invariant |starts| == i
        invariant nextTime == now + i * cycleTime && clock == nextTime + Late(costs, cycleTime, i)
        invariant forall k | 0 <= k < i :: starts[k] == now + k * cycleTime + Late(costs, cycleTime, k)
      {
        starts := starts + [clock];
        clock := clock + costs[i];
        nextTime := nextTime + cycleTime;
        clock := Max(clock, nextTime);
        OneMore(now, cycleTime, i);
      }
    }
  }

  lemma OneMore(now: int, period: int, i: int)
    ensures now + i * period + period == now + (i + 1) * period
  {
  }

  // ---------- The schedule ----------

  /** What iterations from up to to cost beyond their periods, in total. */
  function Excess(costs: seq<nat>, period: int, from: nat, to: nat): int
    requires from <= to <= |costs|
  {
    if from == to then 0 else Excess(costs, period, from, to - 1) + costs[to - 1] - period
  }

  /** The lateness of an iteration is the greatest excess of any stretch of iterations just before it. */
  lemma {:induction false} LateIsGreatestExcess(costs: seq<nat>, period: int, k: nat)
    requires k <= |costs|
    ensures forall j | 0 <= j <= k :: Excess(costs, period, j, k) <= Late(costs, period, k)
    ensures exists j :: 0 <= j <= k && Excess(costs, period, j, k) == Late(costs, period, k)
    decreases k
  {
    if k == 0 {
      assert Excess(costs, period, 0, 0) == Late(costs, period, 0);
    } else {
      LateIsGreatestExcess(costs, period, k - 1);
      var j :| 0 <= j <= k - 1 && Excess(costs, period, j, k - 1) == Late(costs, period, k - 1);
      assert Excess(costs, period, j, k) == Late(costs, period, k - 1) + costs[k - 1] - period;
      assert Excess(costs, period, k, k) == 0;
    }
  }

  /** An iteration starts on time exactly if no stretch of iterations before it exceeded its periods. */
  lemma OnTimeIff(costs: seq<nat>, period: int, k: nat)
    requires k <= |costs|
    ensures Late(costs, period, k) == 0 <==> forall j | 0 <= j <= k :: Excess(costs, period, j, k) <= 0
  {
    hide Excess;
    hide Late;
    LateIsGreatestExcess(costs, period, k);
    NeverEarly(costs, period, k);
  }

  lemma NeverEarly(costs: seq<nat>, period: int, k: nat)
    requires k <= |costs|
    ensures Late(costs, period, k) >= 0
  {
  }

  /** No drift: while every task fits its period every start is exact, however many there have been. */
  lemma {:induction false} FittingTasksNeverLate(costs: seq<nat>, period: int, k: nat)
    requires k <= |costs| && forall i | 0 <= i < k :: costs[i] <= period
    ensures Late(costs, period, k) == 0
    decreases k
  {
    if k > 0 { FittingTasksNeverLate(costs, period, k - 1); }
  }

  /** After an overrun every cycle with that much slack wins back at least as much. */
  lemma {:induction false} CatchesUp(costs: seq<nat>, period: int, m: nat, n: nat, slack: nat)
    requires m + n <= |costs| && forall i | m <= i < m + n :: costs[i] + slack <= period
    ensures Late(costs, period, m + n) <= Max(0, Late(costs, period, m) - n * slack)
    decreases n
  {
    NeverEarly(costs, period, m);
    if n > 0 {
      CatchesUp(costs, period, m, n - 1, slack);
      assert (n - 1) * slack + slack == n * slack;
    }
  }

  /** The schedule is caught up within lateness / slack cycles, rounded up. */
  lemma CaughtUp(costs: seq<nat>, period: int, m: nat, n: nat, slack: nat)
    requires slack > 0 && m + n <= |costs| && (forall i | m <= i < m + n :: costs[i] + slack <= period)
    requires n >= (Late(costs, period, m) + slack - 1) / slack
    ensures Late(costs, period, m + n) == 0
  {
    hide Late;
    NeverEarly(costs, period, m);
    NeverEarly(costs, period, m + n);
    CatchesUp(costs, period, m, n, slack);
    RoundedUp(Late(costs, period, m), slack, n);
  }

  lemma RoundedUp(late: nat, slack: nat, n: nat)
    requires slack > 0 && n >= (late + slack - 1) / slack
    ensures late <= n * slack
  {
    var q := (late + slack - 1) / slack;
    assert q * slack >= late;
    assert (n - q) * slack >= 0;
  }
}
