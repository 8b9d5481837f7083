/** The running average over whole histories: how long it is the intended one, where it stalls and
    collapses, and how it compares with the minimum. */
module CycleAverages {
  import opened CycleStatistics

  // ---------- What every history keeps ----------

  ghost predicate PositiveClock(history: seq<Cycle>) { forall i | 0 <= i < |history| :: history[i].now > 0 }

  /** The count wraps with the history. */
  lemma {:induction false} CycleCountModulo(history: seq<Cycle>)
    ensures After(history).cycleCount == |history| % TWO32
    ensures history != [] ==> After(history).lastTime == history[|history| - 1].now
    ensures history == [] ==> After(history).lastTime == 0
    decreases |history|
  {
    if history != [] {
      var front, last := history[..|history| - 1], history[|history| - 1];
      CycleCountModulo(front);
      AfterLast(history);
      hide After;
      CountAndTime(After(front), last.now, last.matched);
      ModuloStep(|front|);
    }
  }

  lemma CountAndTime(s: Stats, now: int, matched: bool)
    ensures Update(s, now, matched).cycleCount == (s.cycleCount + 1) % TWO32 && Update(s, now, matched).lastTime == now
  {
    hide Average;
    hide Elapsed;
  }

  lemma ModuloStep(n: nat)
    ensures (n % TWO32 + 1) % TWO32 == (n + 1) % TWO32
    ensures (n % TWO32 + 1) % TWO32 == 0 <==> n % TWO32 == TWO32 - 1
  {
  }

  /** With a clock that has left zero, the next cycle divides by zero exactly if the number of cycles so far is one
      short of a multiple of 2^32. */
  lemma DividesByZeroIff(history: seq<Cycle>)
    requires PositiveClock(history)
    ensures DividesByZero(After(history)) <==> |history| % TWO32 == TWO32 - 1
  {
    hide After;
    CycleCountModulo(history);
    ModuloStep(|history|);
  }

  /** So a history is free of the division by zero exactly if it is shorter than 2^32 cycles. */
  lemma {:induction false} NeverDividesIff(history: seq<Cycle>)
    requires PositiveClock(history)
    ensures NeverDivides(history) <==> |history| < TWO32
    decreases |history|
  {
    hide After;
    hide DividesByZero;
    if history != [] {
      var front := history[..|history| - 1];
      NeverDividesIff(front);
      DividesByZeroIff(front);
      if |front| < TWO32 { Unreduced(|front|); }
    }
  }

  /** The average times the cycle count stays below 2^32 as long as the average is defined: in every history in which
      no cycle divided by zero, wrapped or not. */
  lemma {:induction false} ProductFits(history: seq<Cycle>)
    requires PositiveClock(history) && NeverDivides(history)
    ensures After(history).avgUs * After(history).cycleCount < TWO32 && After(history).cycleCount < TWO32
    ensures history == [] ==> After(history) == NEW_STATS
    ensures history != [] ==> After(history).lastTime == history[|history| - 1].now
    decreases |history|
  {
    if history != [] {
      var front, last := history[..|history| - 1], history[|history| - 1];
      ProductFits(front);
      hide After;
      ProductStep(After(front), last.now, last.matched);
      assert After(history) == Update(After(front), last.now, last.matched) by { AfterLast(history); }
    }
  }

  lemma AfterLast(history: seq<Cycle>)
    requires history != []
    ensures var last := history[|history| - 1];
            After(history) == Update(After(history[..|history| - 1]), last.now, last.matched)
  {
  }

  lemma ProductStep(s: Stats, now: int, matched: bool)
    requires s.avgUs * s.cycleCount < TWO32 && s.cycleCount < TWO32 && (s.lastTime == 0 ==> s.avgUs == 0)
    ensures var t := Update(s, now, matched);
            t.avgUs * t.cycleCount < TWO32 && t.cycleCount < TWO32 && t.lastTime == now
  {
    hide Elapsed;
    hide Average;
    var e := Elapsed(s.lastTime, now);
    AverageProduct(s.avgUs, s.cycleCount, e);
    if s.lastTime == 0 { assert Update(s, now, matched).avgUs * Update(s, now, matched).cycleCount == 0; }
  }

  lemma AverageProduct(avg: nat, count: nat, e: nat)
    requires count < TWO32
    ensures Average(avg, count, e) * ((count + 1) % TWO32) < TWO32
  {
    var d := (count + 1) % TWO32;
    if d != 0 {
      var x := (avg * count + e) % TWO32;
      Remainder(x, d, x / d);
    } else {
      assert Average(avg, count, e) * d == 0;
    }
  }

  // ---------- The intended average ----------

  /** The running average in unbounded arithmetic. */
  function Intended(history: seq<Cycle>): int {
    if |history| < 2 then 0
    else (Intended(history[..|history| - 1]) * (|history| - 1) + Sample(history, |history| - 1)) / |history|
  }

  /** No single sample exceeds what a 32-bit duration holds. */
  ghost predicate SamplesFit(history: seq<Cycle>) { forall i | 0 < i < |history| :: Sample(history, i) < TWO32 }

  predicate ExactAt(history: seq<Cycle>, m: nat)
    requires m <= |history|
  {
    After(history[..m]).avgUs == Intended(history[..m])
  }

  ghost predicate ExactThroughout(history: seq<Cycle>) { forall m | 0 < m <= |history| :: ExactAt(history, m) }

  predicate IntendedFits(history: seq<Cycle>, m: nat)
    requires 0 < m < |history|
  {
    Intended(history[..m]) * m + Sample(history, m) < TWO32
  }

  lemma {:induction false} IntendedNonNegative(history: seq<Cycle>)
    requires Steady(history)
    ensures Intended(history) >= 0
    decreases |history|
  {
    if |history| >= 2 {
      IntendedNonNegative(history[..|history| - 1]);
      NonNegativeQuotient(Intended(history[..|history| - 1]), |history| - 1, Sample(history, |history| - 1));
    }
  }

  lemma NonNegativeQuotient(a: int, n: nat, e: int)
    requires a >= 0 && e >= 0
    ensures (a * n + e) / (n + 1) >= 0
  {
    assert a * n >= 0;
  }

  /** One averaging step of a history. */
  lemma LastAverage(history: seq<Cycle>)
    requires Steady(history) && SamplesFit(history) && 2 <= |history| < TWO32
    ensures var front := history[..|history| - 1];
            After(history).avgUs == Average(After(front).avgUs, |front|, Sample(history, |history| - 1))
  {
    hide Average;
    hide Elapsed;
    hide Mismatches;
    hide TrailingMismatches;
    var front, last := history[..|history| - 1], history[|history| - 1];
    CountersExact(front);
    AfterLast(history);
    hide After;
    assert front[|front| - 1] == history[|history| - 2] && Sample(history, |history| - 1) < TWO32;
    SampleElapsed(front[|front| - 1].now, last.now);
    AverageOfUpdate(After(front), last.now, last.matched);
  }

  lemma AverageOfUpdate(s: Stats, now: int, matched: bool)
    requires s.lastTime != 0
    ensures Update(s, now, matched).avgUs == Average(s.avgUs, s.cycleCount, Elapsed(s.lastTime, now))
  {
    hide Average;
    hide Elapsed;
  }

  lemma SampleElapsed(a: int, b: int)
    requires a <= b && (b - a) / 1000 < TWO32
    ensures Elapsed(a, b) == (b - a) / 1000
  {
  }

  lemma SampleNonNegative(history: seq<Cycle>)
    requires Steady(history) && |history| >= 2
    ensures Sample(history, |history| - 1) >= 0
  {
  }

  lemma PrefixSteady(history: seq<Cycle>)
    requires history != [] && Steady(history) && SamplesFit(history)
    ensures Steady(history[..|history| - 1]) && SamplesFit(history[..|history| - 1])
  {
    var front := history[..|history| - 1];
    forall m | 0 < m < |front| ensures Sample(front, m) == Sample(history, m) { SampleInFront(history, m); }
  }

  /** Up to the last step the average was exact: then it still is exactly if that step does not wrap; and
      the first step that wraps makes it too small. */
  lemma LastExactIff(history: seq<Cycle>)
    requires Steady(history) && SamplesFit(history) && 2 <= |history| < TWO32
    requires After(history[..|history| - 1]).avgUs == Intended(history[..|history| - 1])
    ensures After(history).avgUs == Intended(history) <==> IntendedFits(history, |history| - 1)
    ensures !IntendedFits(history, |history| - 1) ==> After(history).avgUs < Intended(history)
  {
    hide After;
    hide Average;
    hide Sample;
    var front, e := history[..|history| - 1], Sample(history, |history| - 1);
    assert e >= 0 by { SampleNonNegative(history); }
    PrefixSteady(history);
    hide SamplesFit;
    hide Steady;
    hide Intended;
    LastAverage(history);
    IntendedNonNegative(front);
    IntendedLast(history);
    ExactOrLess(Intended(front), |front|, e);
  }

  lemma IntendedLast(history: seq<Cycle>)
    requires |history| >= 2
    ensures var front := history[..|history| - 1];
            Intended(history) == (Intended(front) * |front| + Sample(history, |history| - 1)) / (|front| + 1)
  {
  }

  lemma ExactOrLess(avg: nat, count: nat, e: nat)
    requires count + 1 < TWO32
    ensures var intended := (avg * count + e) / (count + 1);
            && (Average(avg, count, e) == intended <==> avg * count + e < TWO32)
            && (avg * count + e >= TWO32 ==> Average(avg, count, e) < intended)
  {
    hide Average;
    AverageExactIff(avg, count, e);
    AverageNeverMore(avg, count, e);
  }

  lemma AverageNeverMore(avg: nat, count: nat, e: nat)
    requires count + 1 < TWO32
    ensures Average(avg, count, e) <= (avg * count + e) / (count + 1)
  {
    var x := avg * count + e;
    Divisor(avg, count, e, x);
    if x >= TWO32 { WrapLoses(x, count + 1); }
  }

  lemma PrefixFits(history: seq<Cycle>, m: nat)
    requires 0 < m < |history| - 1
    ensures IntendedFits(history[..|history| - 1], m) == IntendedFits(history, m)
  {
    hide Intended;
    SampleInFront(history, m);
    assert history[..|history| - 1][..m] == history[..m];
  }

  lemma PrefixExact(history: seq<Cycle>, m: nat)
    requires m <= |history| - 1
    ensures ExactAt(history[..|history| - 1], m) == ExactAt(history, m)
  {
    hide Intended;
    hide After;
    assert history[..|history| - 1][..m] == history[..m];
  }

  lemma WholeExact(history: seq<Cycle>)
    ensures ExactAt(history, |history|) <==> After(history).avgUs == Intended(history)
  {
    hide Intended;
    hide After;
    assert history[..|history|] == history;
  }

  /** In every steady history the average is the intended one at every cycle exactly if no step, taken on the
      intended average, reaches 2^32. */
  lemma {:induction false} ExactUntilWrap(history: seq<Cycle>)
    requires Steady(history) && SamplesFit(history) && |history| < TWO32
    ensures ExactThroughout(history) <==> forall m | 0 < m < |history| :: IntendedFits(history, m)
    decreases |history|
  {
    hide IntendedFits;
    hide ExactAt;
    hide After;
    hide Intended;
    hide Steady;
    hide SamplesFit;
    if history != [] {
      var front := history[..|history| - 1];
      PrefixSteady(history);
      ExactUntilWrap(front);
      forall m | 0 < m < |front| ensures IntendedFits(front, m) == IntendedFits(history, m) { PrefixFits(history, m); }
      forall m: nat | m <= |front| ensures ExactAt(front, m) == ExactAt(history, m) { PrefixExact(history, m); }
      WholeExact(history);
      WholeExact(front);
      if |history| == 1 {
        FirstIsZero(history);
      } else if ExactThroughout(front) {
        LastExactIff(history);
      } else {
        var m :| 0 < m <= |front| && !ExactAt(front, m);
        assert !ExactAt(history, m);
      }
    }
  }

  lemma FirstIsZero(history: seq<Cycle>)
    requires |history| == 1
    ensures After(history).avgUs == 0 == Intended(history)
  {
    assert history[..0] == [];
  }

  // ---------- A steady millisecond ----------

  /** Every sample is e microseconds. */
  ghost predicate Uniform(history: seq<Cycle>, e: int) { forall i | 0 < i < |history| :: Sample(history, i) == e }

  /** The average of a steady millisecond over the first cycles. */
  function Early(n: nat): nat {
    match n
    case 0 => 0
    case 1 => 0
    case 2 => 500
    case 3 => 666
    case 4 => 749
    case 5 => 799
    case 6 => 832
    case 7 => 856
    case 8 => 874
    case 9 => 888
    case 10 => 899
    case 11 => 908
    case 12 => 915
    case 13 => 921
    case 14 => 926
    case 15 => 930
    case 16 => 934
    case 17 => 937
    case 18 => 940
    case 19 => 943
    case 20 => 945
    case 21 => 947
    case 22 => 949
    case 23 => 951
    case 24 => 953
    case 25 => 954
    case 26 => 955
    case 27 => 956
    case 28 => 957
    case 29 => 958
    case 30 => 959
    case 31 => 960
    case 32 => 961
    case 33 => 962
    case 34 => 963
    case 35 => 964
    case _ => 965
  }

  lemma NextEarly(n: nat)
    requires 1 <= n < 36
    ensures (Early(n) * n + 1000) / (n + 1) == Early(n + 1) && Early(n) <= 1000
  {
  }

  const STALLED := 965

  /** The last cycle count from which the step does not wrap. */
  const LAST_EXACT := 4450742

  lemma StalledStep(n: nat)
    requires 36 <= n <= LAST_EXACT
    ensures Average(STALLED, n, 1000) == STALLED
  {
    NoWrap(STALLED, n, 1000);
    QuotientIs(STALLED * n + 1000, n + 1, STALLED);
  }

  lemma QuotientIs(x: nat, d: nat, q: nat)
    requires d > 0 && q * d <= x < q * d + d
    ensures x / d == q
  {
    Remainder(x, d, x / d);
    Monotone(q + 1, x / d, d);
    Monotone(x / d + 1, q, d);
    assert (q + 1) * d == q * d + d && (x / d + 1) * d == x / d * d + d;
  }

  lemma EarlyStep(n: nat)
    requires 1 <= n < 36
    ensures Average(Early(n), n, 1000) == Early(n + 1)
  {
    NextEarly(n);
    NoWrap(Early(n), n, 1000);
  }

  lemma CollapsingStep()
    ensures Average(STALLED, LAST_EXACT + 1, 1000) == 0
  {
  }

  lemma UniformFront(history: seq<Cycle>, e: int)
    requires Steady(history) && Uniform(history, e) && |history| >= 1
    ensures Steady(history[..|history| - 1]) && Uniform(history[..|history| - 1], e)
  {
    var front := history[..|history| - 1];
    forall m | 0 < m < |front| ensures Sample(front, m) == Sample(history, m) { SampleInFront(history, m); }
  }

  /** With a millisecond between all cycles the average climbs to 965, is there from the 36th cycle on, and
      falls to 0 in the cycle after 4450743 have been counted. */
  lemma {:induction false} MillisecondAverage(history: seq<Cycle>)
    requires Steady(history) && Uniform(history, 1000) && 1 <= |history| <= LAST_EXACT + 2
    ensures After(history).cycleCount == |history|
    ensures After(history).avgUs ==
              if |history| <= 36 then Early(|history|) else if |history| <= LAST_EXACT + 1 then STALLED else 0
    decreases |history|
  {
    hide After;
    hide Average;
    hide Early;
    CountersExact(history);
    if |history| == 1 {
      FirstIsZero(history);
      EarlyEnds();
    } else {
      var front := history[..|history| - 1];
      UniformFront(history, 1000);
      MillisecondAverage(front);
      LastAverage(history);
      EarlyEnds();
      if |front| < 36 { EarlyStep(|front|); }
      else if |front| <= LAST_EXACT { StalledStep(|front|); }
      else { CollapsingStep(); }
    }
  }

  /** A clock that ticks once a millisecond. */
  function Ticks(n: nat): seq<Cycle> { seq(n, i => Cycle(1_000_000 * (i + 1), true)) }

  lemma TicksUniform(n: nat)
    ensures Steady(Ticks(n)) && Uniform(Ticks(n), 1000)
  {
  }

  /** An input that divides by zero: 2^32 cycles of a steady millisecond, in 49.7 days. */
  lemma MillisecondDividesByZero()
    ensures DividesByZero(After(Ticks(TWO32 - 1))) && NeverDivides(Ticks(TWO32 - 1)) && !NeverDivides(Ticks(TWO32))
  {
    hide After;
    hide DividesByZero;
    hide NeverDivides;
    TicksUniform(TWO32 - 1);
    TicksUniform(TWO32);
    DividesByZeroIff(Ticks(TWO32 - 1));
    NeverDividesIff(Ticks(TWO32 - 1));
    NeverDividesIff(Ticks(TWO32));
  }

  /** The first cycle whose average is not the intended 965: all before it are exact from the 36th on. */
  lemma MillisecondCollapses()
    ensures var h := Ticks(LAST_EXACT + 2);
            && After(h).avgUs == 0 && Intended(h) == STALLED
            && After(h[..|h| - 1]).avgUs == Intended(h[..|h| - 1]) == STALLED
  {
    hide After;
    hide Intended;
    hide Average;
    hide Early;
    var h := Ticks(LAST_EXACT + 2);
    var front := h[..|h| - 1];
    TicksUniform(|h|);
    UniformFront(h, 1000);
    MillisecondAverage(h);
    MillisecondAverage(front);
    ExactFront(front);
    IntendedLast(h);
    QuotientIs(STALLED * |front| + 1000, |front| + 1, STALLED);
  }

  lemma {:induction false} ExactFront(history: seq<Cycle>)
    requires Steady(history) && Uniform(history, 1000) && 1 <= |history| <= LAST_EXACT + 1
    ensures After(history).avgUs == Intended(history)
    decreases |history|
  {
    hide After;
    hide Intended;
    hide Average;
    hide Early;
    if |history| == 1 {
      FirstIsZero(history);
    } else {
      var front := history[..|history| - 1];
      UniformFront(history, 1000);
      ExactFront(front);
      MillisecondAverage(front);
      EarlyAtMost(|front|);
      SumFits(Intended(front), |front|);
      assert SamplesFit(history) && IntendedFits(history, |front|);
      hide IntendedFits;
      hide Steady;
      hide SamplesFit;
      hide Uniform;
      LastExactIff(history);
    }
  }

  lemma SumFits(a: int, n: nat)
    requires a <= STALLED && n <= LAST_EXACT
    ensures a * n + 1000 < TWO32
  {
    Monotone(a, STALLED, n);
  }

  lemma EarlyAtMost(n: nat)
    ensures Early(n) <= STALLED
  {
  }

  lemma EarlyEnds()
    ensures Early(1) == 0 && Early(36) == STALLED
  {
  }

  // ---------- The average and the minimum ----------

  lemma {:induction false} UniformTotals(history: seq<Cycle>, e: int)
    requires Steady(history) && Uniform(history, e) && e > 0 && |history| >= 2
    ensures Total(history) == (|history| - 1) * e && MinSinceZero(history) == e
    decreases |history|
  {
    var front := history[..|history| - 1];
    if |history| > 2 {
      UniformFront(history, e);
      UniformTotals(front, e);
      assert (|front| - 1) * e + e == (|history| - 1) * e;
    }
  }

  /** With equal samples the average is always below the minimum: the first cycle is counted without one. */
  lemma UniformAverageBelowMin(history: seq<Cycle>, e: int)
    requires Steady(history) && Uniform(history, e) && e > 0 && 2 <= |history| < TWO32 && Total(history) < TWO32
    ensures After(history).avgUs < After(history).minUs == e
  {
    hide After;
    UniformTotals(history, e);
    ExtremesExact(history);
    InvariantHolds(history);
    BelowWhole(After(history).avgUs, e, |history|);
  }

  lemma BelowWhole(avg: nat, e: int, n: nat)
    requires n >= 1 && e > 0 && avg * n <= (n - 1) * e
    ensures avg < e
  {
    assert (n - 1) * e == n * e - e;
    Monotone(e, avg, n);
  }

  /** A single step: the minimum is at most the average exactly if it is in the sum before the division. */
  lemma MinBelowAverageIff(s: Stats, elapsed: nat)
    requires s.cycleCount + 1 < TWO32 && s.avgUs * s.cycleCount + elapsed < TWO32
    ensures var t := Timed(s, elapsed);
            t.minUs <= t.avgUs <==> t.minUs * (s.cycleCount + 1) <= s.avgUs * s.cycleCount + elapsed
  {
    hide Average;
    var t := Timed(s, elapsed);
    NoWrap(s.avgUs, s.cycleCount, elapsed);
    AtMostQuotientIff(t.minUs, s.avgUs * s.cycleCount + elapsed, s.cycleCount + 1);
  }

  lemma AtMostQuotientIff(m: nat, x: nat, d: nat)
    requires d > 0
    ensures m <= x / d <==> m * d <= x
  {
    Remainder(x, d, x / d);
    Monotone(m, x / d, d);
    Monotone(x / d + 1, m, d);
    assert (x / d + 1) * d == x / d * d + d;
  }

  /** Over histories: the minimum is at most the average exactly if, counted for every cycle, it is at most
      the sum the average was last divided from. */
  lemma MinBelowAverageOverHistory(history: seq<Cycle>)
    requires Steady(history) && 2 <= |history| < TWO32 && Total(history) < TWO32
    ensures var front := history[..|history| - 1];
            After(history).minUs <= After(history).avgUs <==>
              MinSinceZero(history) * |history| <= After(front).avgUs * |front| + Sample(history, |history| - 1)
  {
    var front, last := history[..|history| - 1], history[|history| - 1];
    var s, e := After(front), Sample(history, |history| - 1);
    AfterLast(history);
    LastElapsed(history);
    CountersExact(front);
    ExtremesExact(history);
    LastFits(history);
    hide After;
    hide Timed;
    hide MinSinceZero;
    assert After(history).minUs == Timed(s, e).minUs && After(history).avgUs == Timed(s, e).avgUs;
    MinBelowAverageIff(s, e);
  }
}
