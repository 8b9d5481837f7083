/** The cycle statistics of the master, in 32-bit arithmetic, and what they mean for a history of cycles. */
module CycleStatistics {

  const TWO32 := 0x1_0000_0000

  /** lastTime is the clock in nanoseconds, 0 before the first cycle. */
  datatype Stats = Stats(
    cycleCount: nat, mismatchCount: nat, consecutiveMismatch: nat, minUs: nat, maxUs: nat, avgUs: nat, lastTime: int)

  const NEW_STATS := Stats(0, 0, 0, 0, 0, 0, 0)

  function Elapsed(last: int, now: int): nat { (now - last) / 1000 % TWO32 }

  /** The running average in uint32_t. With a divisor that has wrapped to zero the source divides by zero; what
      is returned here then stands for nothing in the source. */
  function Average(avg: nat, count: nat, elapsed: nat): nat {
    var divisor := (count + 1) % TWO32;
    if divisor == 0 then avg else (avg * count + elapsed) % TWO32 / divisor
  }

  function Timed(s: Stats, elapsed: nat): Stats {
    s.(minUs := if s.minUs == 0 || elapsed < s.minUs then elapsed else s.minUs,
       maxUs := if elapsed > s.maxUs then elapsed else s.maxUs,
       avgUs := Average(s.avgUs, s.cycleCount, elapsed))
  }

  /** One cycle, ended at now, with or without the expected working counter. */
  function Update(s: Stats, now: int, matched: bool): Stats {
    var t := if s.lastTime != 0 then Timed(s, Elapsed(s.lastTime, now)) else s;
    t.(lastTime := now,
       cycleCount := (t.cycleCount + 1) % TWO32,
       mismatchCount := if matched then t.mismatchCount else (t.mismatchCount + 1) % TWO32,
       consecutiveMismatch := if matched then 0 else (t.consecutiveMismatch + 1) % TWO32)
  }

  // ---------- Histories ----------

  datatype Cycle = Cycle(now: int, matched: bool)

  function After(history: seq<Cycle>): Stats {
    if history == [] then NEW_STATS
    else Update(After(history[..|history| - 1]), history[|history| - 1].now, history[|history| - 1].matched)
  }

  /** The next cycle divides by zero. */
  predicate DividesByZero(s: Stats) { s.lastTime != 0 && (s.cycleCount + 1) % TWO32 == 0 }

  /** No cycle of this history divided by zero: only then are the statistics after it those of the source. */
  predicate NeverDivides(history: seq<Cycle>) {
    history == [] || (NeverDivides(history[..|history| - 1]) && !DividesByZero(After(history[..|history| - 1])))
  }

  lemma NeverDividesFront(history: seq<Cycle>, last: Cycle)
    requires NeverDivides(history + [last])
    ensures NeverDivides(history)
  {
    hide After;
    assert (history + [last])[..|history|] == history;
  }

  lemma AfterOneMore(history: seq<Cycle>, now: int, matched: bool)
    ensures After(history + [Cycle(now, matched)]) == Update(After(history), now, matched)
  {
    var all := history + [Cycle(now, matched)];
    assert all[..|all| - 1] == history;
  }

  /** A steady clock that has left zero. */
  ghost predicate Steady(history: seq<Cycle>) {
    && (forall i | 0 <= i < |history| :: history[i].now > 0)
    && (forall i | 0 < i < |history| :: history[i - 1].now <= history[i].now)
  }

  function Sample(history: seq<Cycle>, i: nat): int
    requires 0 < i < |history|
  {
    (history[i].now - history[i - 1].now) / 1000
  }

  /** The total measured time: the first cycle has no sample. */
  function Total(history: seq<Cycle>): int {
    if |history| < 2 then 0 else Total(history[..|history| - 1]) + Sample(history, |history| - 1)
  }

  /** The length of the trailing run of mismatches. */
  function TrailingMismatches(history: seq<Cycle>): nat {
    if history == [] || history[|history| - 1].matched then 0 else 1 + TrailingMismatches(history[..|history| - 1])
  }

  function Mismatches(history: seq<Cycle>): nat {
    if history == [] then 0
    else Mismatches(history[..|history| - 1]) + (if history[|history| - 1].matched then 0 else 1)
  }

  /** A sample is the time between two cycles in whole microseconds. */
  lemma SampleMeaning(history: seq<Cycle>, i: nat)
    requires 0 < i < |history|
    ensures 1000 * Sample(history, i) <= history[i].now - history[i - 1].now < 1000 * Sample(history, i) + 1000
  {
  }

  /** The run of mismatches at the end is as long as possible. */
  lemma {:induction false} TrailingMeaning(history: seq<Cycle>)
    ensures var n := TrailingMismatches(history);
            && n <= |history| && (forall i | |history| - n <= i < |history| :: !history[i].matched)
            && (n < |history| ==> history[|history| - n - 1].matched)
    decreases |history|
  {
    if history != [] && !history[|history| - 1].matched { TrailingMeaning(history[..|history| - 1]); }
  }

  lemma {:induction false} MismatchesMeaning(history: seq<Cycle>)
    ensures Mismatches(history) == |set i | 0 <= i < |history| && !history[i].matched|
    decreases |history|
  {
    var all := set i | 0 <= i < |history| && !history[i].matched;
    if history != [] {
      var n, front := |history| - 1, history[..|history| - 1];
      var before := set i | 0 <= i < n && !front[i].matched;
      MismatchesMeaning(front);
      assert all == before + if history[n].matched then {} else {n};
    }
  }

  lemma {:induction false} TrailingAtMostAll(history: seq<Cycle>)
    ensures TrailingMismatches(history) <= Mismatches(history) <= |history|
    decreases |history|
  {
    if history != [] { TrailingAtMostAll(history[..|history| - 1]); }
  }

  /** The counters over any history shorter than 2^32 cycles. */
  lemma {:induction false} CountersExact(history: seq<Cycle>)
    requires |history| < TWO32
    ensures var s := After(history);
            && s.cycleCount == |history|
            && s.mismatchCount == Mismatches(history)
            && s.consecutiveMismatch == TrailingMismatches(history)
            && (history != [] ==> s.lastTime == history[|history| - 1].now)
            && (history == [] ==> s == NEW_STATS)
    decreases |history|
  {
    if history != [] {
      var front, last := history[..|history| - 1], history[|history| - 1];
      CountersExact(front);
      TrailingAtMostAll(front);
      CountersStep(After(front), last.now, last.matched);
      hide Update;
    }
  }

  lemma CountersStep(s: Stats, now: int, matched: bool)
    requires s.cycleCount + 1 < TWO32 && s.consecutiveMismatch <= s.mismatchCount <= s.cycleCount
    ensures var r := Update(s, now, matched);
            && r.cycleCount == s.cycleCount + 1 && r.lastTime == now
            && r.mismatchCount == s.mismatchCount + (if matched then 0 else 1)
            && r.consecutiveMismatch == if matched then 0 else s.consecutiveMismatch + 1
  {
    hide Average;
    hide Elapsed;
  }

  lemma {:induction false} TotalGrows(history: seq<Cycle>)
    requires Steady(history)
    ensures Total(history) >= 0
    ensures history != [] ==> 0 <= Total(history[..|history| - 1]) <= Total(history)
    decreases |history|
  {
    if |history| >= 2 {
      TotalGrows(history[..|history| - 1]);
    }
  }

  lemma DivisionStep(x: nat, d: nat)
    requires d > 0
    ensures x == x / d * d + x % d && 0 <= x % d < d
  {
  }

  lemma Remainder(x: nat, d: nat, q: int)
    requires d > 0 && q == x / d
    ensures 0 <= x - q * d < d
  {
    DivisionStep(x, d);
  }

  lemma Triangular(n: int)
    ensures n * (n - 1) + 2 * n == (n + 1) * n
  {
  }

  /** One averaging step without wrap: the deficit grows by the remainder of the division. */
  lemma AverageStep(avg: nat, n: nat, e: nat, total: int)
    requires n >= 1 && n + 1 < TWO32 && total + e < TWO32
    requires 0 <= total - avg * n && 2 * (total - avg * n) <= n * (n - 1)
    ensures avg * n + e < TWO32
    ensures var next := Average(avg, n, e);
            && next == (avg * n + e) / (n + 1)
            && 0 <= total + e - next * (n + 1) && 2 * (total + e - next * (n + 1)) <= (n + 1) * n
  {
    NoWrap(avg, n, e);
    var next := Average(avg, n, e);
    Remainder(avg * n + e, n + 1, next);
    Triangular(n);
    Deficit(total, avg * n, e, next * (n + 1), n, n * (n - 1), (n + 1) * n);
  }

  lemma NoWrap(avg: nat, n: nat, e: nat)
    requires n + 1 < TWO32 && avg * n + e < TWO32
    ensures Average(avg, n, e) == (avg * n + e) / (n + 1)
  {
    Unreduced(avg * n + e);
    Unreduced(n + 1);
  }

  lemma Unreduced(x: nat)
    requires x < TWO32
    ensures x % TWO32 == x
  {
  }

  lemma Deficit(total: int, sum: int, e: int, next: int, n: int, before: int, after: int)
    requires 0 <= sum + e - next < n + 1 && 0 <= total - sum && 2 * (total - sum) <= before && before + 2 * n == after
    ensures 0 <= total + e - next && 2 * (total + e - next) <= after
  {
  }

  lemma MaxStep(n: nat, total: int, e: nat, max: nat, more: nat)
    requires n >= 1 && total <= (n - 1) * max && more >= max && more >= e
    ensures total + e <= n * more
  {
    assert (n - 1) * max <= (n - 1) * more by { assert (n - 1) * (more - max) >= 0; }
    assert (n - 1) * more + more == n * more;
  }

  /** After n cycles measuring total microseconds: the average is below the true one by at most
      (n - 1) / 2, and no sample exceeded max. */
  predicate AverageInvariant(s: Stats, n: nat, total: int) {
    && 0 <= total - s.avgUs * n && 2 * (total - s.avgUs * n) <= n * (n - 1)
    && (n > 0 ==> total <= (n - 1) * s.maxUs)
    && (n <= 1 ==> s.avgUs == 0 && s.maxUs == 0)
  }

  lemma {:induction false} InvariantHolds(history: seq<Cycle>)
    requires Steady(history) && |history| < TWO32 && Total(history) < TWO32
    ensures AverageInvariant(After(history), |history|, Total(history))
    decreases |history|
  {
    CountersExact(history);
    if |history| >= 2 {
      var front := history[..|history| - 1];
      LastElapsed(history);
      InvariantHolds(front);
      CountersExact(front);
      LastStep(history);
    } else if |history| == 1 {
      assert After(history[..0]) == NEW_STATS;
    }
  }

  /** The step of the induction, on the last cycle. */
  lemma LastStep(history: seq<Cycle>)
    requires Steady(history) && 2 <= |history| < TWO32 && Total(history) < TWO32
    requires var front := history[..|history| - 1];
        AverageInvariant(After(front), |front|, Total(front)) && After(front).cycleCount == |front|
    ensures AverageInvariant(After(history), |history|, Total(history))
  {
    hide Average;
    var front := history[..|history| - 1];
    LastElapsed(history);
    TotalGrows(history);
    var s, e := After(front), Sample(history, |history| - 1);
    var last := history[|history| - 1];
    assert After(history) == Update(s, last.now, last.matched);
    AverageStep(s.avgUs, |front|, e, Total(front));
    assert After(history).avgUs == Average(s.avgUs, |front|, e);
    MaxStep(|front|, Total(front), e, s.maxUs, After(history).maxUs);
  }

  /** The sum and the product of the averaging step that takes in sample m stay below 2^32. */
  predicate StepFits(history: seq<Cycle>, m: nat)
    requires 0 < m < |history|
  {
    After(history[..m]).avgUs * m + Sample(history, m) < TWO32
  }

  lemma LastFits(history: seq<Cycle>)
    requires Steady(history) && 2 <= |history| < TWO32 && Total(history) < TWO32
    ensures StepFits(history, |history| - 1)
  {
    hide After;
    TotalGrows(history);
    InvariantHolds(history[..|history| - 1]);
  }

  lemma {:induction false} NeverWraps(history: seq<Cycle>)
    requires Steady(history) && |history| < TWO32 && Total(history) < TWO32
    ensures forall m | 0 < m < |history| :: StepFits(history, m)
    decreases |history|
  {
    hide After;
    if |history| >= 2 {
      var front := history[..|history| - 1];
      TotalGrows(history);
      NeverWraps(front);
      LastFits(history);
      forall m | 0 < m < |history| ensures StepFits(history, m) {
        if m < |front| {
          assert StepFits(front, m) && front[..m] == history[..m];
          SampleInFront(history, m);
        }
      }
    }
  }

  /** While fewer than 2^32 microseconds have been measured in fewer than 2^32 cycles, no averaging step wraps
      and the running average stays below the true average by at most (n - 1) / 2. */
  lemma AverageBounds(history: seq<Cycle>)
    requires Steady(history) && |history| < TWO32 && Total(history) < TWO32
    ensures forall m | 0 < m < |history| :: StepFits(history, m)
    ensures AverageInvariant(After(history), |history|, Total(history))
  {
    hide StepFits;
    hide AverageInvariant;
    NeverWraps(history);
    InvariantHolds(history);
  }

  lemma AverageBelowMax(history: seq<Cycle>)
    requires Steady(history) && |history| < TWO32 && Total(history) < TWO32
    ensures After(history).avgUs <= After(history).maxUs
  {
    hide After;
    hide Total;
    InvariantHolds(history);
    var s := After(history);
    if |history| >= 2 { QuotientBelow(s.avgUs, s.maxUs, |history|); }
  }

  lemma QuotientBelow(avg: nat, max: nat, n: nat)
    requires n >= 2 && avg * n <= (n - 1) * max
    ensures avg <= max
  {
    Monotone(max + 1, avg, n);
    Expand(max, n);
  }

  lemma Monotone(a: int, b: int, d: nat)
    ensures a <= b ==> a * d <= b * d
  {
    if a <= b { assert (b - a) * d >= 0; }
  }

  lemma Expand(max: int, n: int)
    ensures (max + 1) * n == (n - 1) * max + max + n
  {
  }

  /** One step computes the intended average exactly when the intermediate product does not wrap. */
  lemma AverageExactIff(avg: nat, count: nat, elapsed: nat)
    requires count + 1 < TWO32
    ensures Average(avg, count, elapsed) == (avg * count + elapsed) / (count + 1) <==> avg * count + elapsed < TWO32
  {
    var x := avg * count + elapsed;
    assert Average(avg, count, elapsed) == x % TWO32 / (count + 1) by { Divisor(avg, count, elapsed, x); }
    if x >= TWO32 { WrapLoses(x, count + 1); }
  }

  lemma Divisor(avg: nat, count: nat, elapsed: nat, x: nat)
    requires count + 1 < TWO32 && x == avg * count + elapsed
    ensures Average(avg, count, elapsed) == x % TWO32 / (count + 1)
  {
  }

  lemma WrapLoses(x: nat, d: nat)
    requires 0 < d < TWO32 <= x
    ensures x % TWO32 / d < x / d
  {
    LargerQuotient(x % TWO32, x, d);
  }

  lemma LargerQuotient(w: nat, x: nat, d: nat)
    requires d > 0 && w + d <= x
    ensures w / d < x / d
  {
    Remainder(w, d, w / d);
    Remainder(x, d, x / d);
    StrictlyMore(x / d, w / d, d);
  }

  lemma StrictlyMore(a: int, b: int, d: int)
    requires d > 0 && a * d > b * d
    ensures a > b
  {
    Monotone(a, b, d);
  }

  /** The smallest sample after the last zero sample; 0 if there is none. */
  function MinSinceZero(history: seq<Cycle>): int {
    if |history| < 2 then 0
    else
      var e, m := Sample(history, |history| - 1), MinSinceZero(history[..|history| - 1]);
      if m == 0 || e < m then e else m
  }

  function MaxSample(history: seq<Cycle>): int {
    if |history| < 2 then 0
    else
      var e, m := Sample(history, |history| - 1), MaxSample(history[..|history| - 1]);
      if e > m then e else m
  }

  lemma LastElapsed(history: seq<Cycle>)
    requires Steady(history) && 2 <= |history| < TWO32 && Total(history) < TWO32
    ensures var front := history[..|history| - 1];
            && Steady(front) && Total(front) < TWO32
            && Elapsed(After(front).lastTime, history[|history| - 1].now) == Sample(history, |history| - 1)
            && After(front).lastTime > 0
  {
    hide After;
    hide Mismatches;
    hide TrailingMismatches;
    var front := history[..|history| - 1];
    TotalGrows(history);
    TotalGrows(front);
    CountersExact(front);
    assert front[|front| - 1] == history[|history| - 2];
  }

  /** The minimum and maximum kept are these two folds over the samples. */
  lemma {:induction false} ExtremesExact(history: seq<Cycle>)
    requires Steady(history) && |history| < TWO32 && Total(history) < TWO32
    ensures After(history).minUs == MinSinceZero(history) && After(history).maxUs == MaxSample(history)
    decreases |history|
  {
    if |history| >= 2 {
      var front := history[..|history| - 1];
      LastElapsed(history);
      ExtremesExact(front);
    } else if |history| == 1 {
      assert After(history[..0]) == NEW_STATS;
    }
  }

  lemma SampleInFront(history: seq<Cycle>, i: nat)
    requires 0 < i < |history| - 1
    ensures Sample(history[..|history| - 1], i) == Sample(history, i)
  {
  }

  /** The maximum is at least every sample and is one of them, unless it is 0. */
  lemma {:induction false} MaxIsGreatest(history: seq<Cycle>)
    requires |history| >= 2 && Steady(history)
    ensures forall i | 0 < i < |history| :: Sample(history, i) <= MaxSample(history)
    ensures exists i :: 0 < i < |history| && (Sample(history, i) == MaxSample(history) || MaxSample(history) == 0)
    decreases |history|
  {
    var front := history[..|history| - 1];
    if |history| > 2 {
      MaxIsGreatest(front);
      forall i | 0 < i < |front| ensures Sample(front, i) == Sample(history, i) { SampleInFront(history, i); }
      var k :| 0 < k < |front| && (Sample(front, k) == MaxSample(front) || MaxSample(front) == 0);
      assert Sample(history, k) == MaxSample(history) || Sample(history, |history| - 1) == MaxSample(history)
          || MaxSample(history) == 0;
    } else {
      assert Sample(history, 1) == MaxSample(history) || MaxSample(history) == 0;
    }
  }

  /** The minimum is a lower bound only of the samples after the last zero sample. */
  lemma {:induction false} MinIsLeastSinceZero(history: seq<Cycle>, i: nat)
    requires Steady(history) && 0 < i < |history|
    requires forall j | i <= j < |history| :: Sample(history, j) > 0
    ensures 0 < MinSinceZero(history) <= Sample(history, i)
    decreases |history|
  {
    var front := history[..|history| - 1];
    assert Sample(history, |history| - 1) > 0;
    if i < |front| {
      forall j | i <= j < |front| ensures Sample(front, j) > 0 { SampleInFront(history, j); }
      SampleInFront(history, i);
      MinIsLeastSinceZero(front, i);
    } else {
      MinNonNegative(front);
    }
  }

  lemma {:induction false} MinNonNegative(history: seq<Cycle>)
    requires Steady(history)
    ensures MinSinceZero(history) >= 0
    decreases |history|
  {
    if |history| >= 2 { MinNonNegative(history[..|history| - 1]); }
  }

  /** A zero sample makes the next one the minimum, however large it is. */
  lemma MinForgets(history: seq<Cycle>)
    requires |history| >= 3 && Steady(history) && Sample(history, |history| - 2) == 0
    ensures MinSinceZero(history) == Sample(history, |history| - 1)
  {
    var front := history[..|history| - 1];
    SampleInFront(history, |history| - 2);
    MinNonNegative(front[..|front| - 1]);
  }

  /** The minimum is at most every sample exactly when no sample is zero, or the last one is. */
  lemma MinIsLeastIff(history: seq<Cycle>)
    requires Steady(history) && |history| >= 2
    ensures (forall i | 0 < i < |history| :: MinSinceZero(history) <= Sample(history, i)) <==>
              (forall i | 0 < i < |history| :: Sample(history, i) > 0) || Sample(history, |history| - 1) == 0
  {
    var front, last := history[..|history| - 1], Sample(history, |history| - 1);
    MinNonNegative(front);
    if forall i | 0 < i < |history| :: Sample(history, i) > 0 {
      forall i | 0 < i < |history| ensures MinSinceZero(history) <= Sample(history,
          i) { MinIsLeastSinceZero(history, i); }
    } else if last > 0 {
      var z :| 0 < z < |history| && Sample(history, z) <= 0;
      MinPositive(history);
      assert Sample(history, z) < MinSinceZero(history);
    }
  }

  lemma MinPositive(history: seq<Cycle>)
    requires Steady(history) && |history| >= 2 && Sample(history, |history| - 1) > 0
    ensures MinSinceZero(history) > 0
  {
    MinNonNegative(history[..|history| - 1]);
  }
}
