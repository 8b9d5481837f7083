/** Polynomials over GF(2), as the finite sets of the exponents whose coefficient is one, and
    division by the generator x^8 + x^2 + x + 1 of the SII checksum (ETG.1000.6, Table 16). */
module Gf2Polynomials {

  type Poly = set<nat>

  /** Addition of polynomials over GF(2). */
  function Xor(a: Poly, b: Poly): Poly { (a - b) + (b - a) }

  /** Multiplication by x^k. */
  function Shift(a: Poly, k: nat): Poly { set i | i in a :: i + k }

  /** Multiplication by the generator x^8 + x^2 + x + 1. */
  function TimesGenerator(q: Poly): Poly {
    Xor(Xor(Shift(q, 8), Shift(q, 2)), Xor(Shift(q, 1), q))
  }

  ghost predicate Divisible(a: Poly) { exists q :: a == TimesGenerator(q) }

  ghost predicate Congruent(a: Poly, b: Poly) { Divisible(Xor(a, b)) }

  /** r is a remainder of a: it has degree below 8 and differs from a by a multiple of the generator. */
  ghost predicate IsRemainder(a: Poly, r: Poly) {
    (forall i | i in r :: i < 8) && Congruent(a, r)
  }

  // ---------- Algebra of shifts and sums ----------

  lemma InShift(a: Poly, k: nat, i: nat)
    ensures i in Shift(a, k) <==> i >= k && i - k in a
  {
    if i >= k && i - k in a {
      var j: nat := i - k;
      assert j in a && j + k == i;
    }
  }

  lemma ShiftShift(a: Poly, j: nat, k: nat)
    ensures Shift(Shift(a, j), k) == Shift(a, j + k)
  {
    forall i: nat ensures i in Shift(Shift(a, j), k) <==> i in Shift(a, j + k) {
      InShift(Shift(a, j), k, i);
      InShift(a, j + k, i);
      if i >= k { InShift(a, j, i - k); }
    }
  }

  lemma ShiftByZero(a: Poly)
    ensures Shift(a, 0) == a
  {
    forall i: nat ensures i in Shift(a, 0) <==> i in a { InShift(a, 0, i); }
  }

  lemma ShiftPair(a: nat, b: nat, k: nat)
    ensures Shift({a, b}, k) == {a + k, b + k}
  {
    forall i: nat ensures i in Shift({a, b}, k) <==> i in {a + k, b + k} { InShift({a, b}, k, i); }
  }

  lemma ShiftXor(a: Poly, b: Poly, k: nat)
    ensures Shift(Xor(a, b), k) == Xor(Shift(a, k), Shift(b, k))
  {
    forall i: nat ensures i in Shift(Xor(a, b), k) <==> i in Xor(Shift(a, k), Shift(b, k)) {
      InShift(Xor(a, b), k, i);
      InShift(a, k, i);
      InShift(b, k, i);
    }
  }

  lemma ShiftInjective(a: Poly, b: Poly, k: nat)
    requires Shift(a, k) == Shift(b, k)
    ensures a == b
  {
    forall i: nat ensures i in a <==> i in b {
      InShift(a, k, i + k);
      InShift(b, k, i + k);
    }
  }

  lemma InTimesGenerator(q: Poly, i: nat)
    ensures i in TimesGenerator(q) <==>
              (((i >= 8 && i - 8 in q) != (i >= 2 && i - 2 in q)) != ((i >= 1 && i - 1 in q) != (i in q)))
  {
    InShift(q, 8, i);
    InShift(q, 2, i);
    InShift(q, 1, i);
  }

  lemma TimesGeneratorXor(a: Poly, b: Poly)
    ensures TimesGenerator(Xor(a, b)) == Xor(TimesGenerator(a), TimesGenerator(b))
  {
    ShiftXor(a, b, 8);
    ShiftXor(a, b, 2);
    ShiftXor(a, b, 1);
  }

  lemma TimesGeneratorShift(q: Poly, k: nat)
    ensures TimesGenerator(Shift(q, k)) == Shift(TimesGenerator(q), k)
  {
    ShiftXor(Xor(Shift(q, 8), Shift(q, 2)), Xor(Shift(q, 1), q), k);
    ShiftXor(Shift(q, 8), Shift(q, 2), k);
    ShiftXor(Shift(q, 1), q, k);
    ShiftShift(q, 8, k); ShiftShift(q, k, 8);
    ShiftShift(q, 2, k); ShiftShift(q, k, 2);
    ShiftShift(q, 1, k); ShiftShift(q, k, 1);
  }

  // ---------- Divisibility ----------

  lemma DivisibleXor(a: Poly, b: Poly)
    requires Divisible(a) && Divisible(b)
    ensures Divisible(Xor(a, b))
  {
    var p :| a == TimesGenerator(p);
    var q :| b == TimesGenerator(q);
    TimesGeneratorXor(p, q);
  }

  lemma DivisibleShift(a: Poly, k: nat)
    requires Divisible(a)
    ensures Divisible(Shift(a, k))
  {
    var q :| a == TimesGenerator(q);
    TimesGeneratorShift(q, k);
  }

  lemma CongruentReflexive(a: Poly)
    ensures Congruent(a, a)
  {
    assert Xor(a, a) == TimesGenerator({});
  }

  lemma CongruentSymmetric(a: Poly, b: Poly)
    requires Congruent(a, b)
    ensures Congruent(b, a)
  {
    assert Xor(b, a) == Xor(a, b);
  }

  lemma CongruentTransitive(a: Poly, b: Poly, c: Poly)
    requires Congruent(a, b) && Congruent(b, c)
    ensures Congruent(a, c)
  {
    DivisibleXor(Xor(a, b), Xor(b, c));
    assert Xor(Xor(a, b), Xor(b, c)) == Xor(a, c);
  }

  lemma CongruentXor(a: Poly, b: Poly, c: Poly, d: Poly)
    requires Congruent(a, b) && Congruent(c, d)
    ensures Congruent(Xor(a, c), Xor(b, d))
  {
    DivisibleXor(Xor(a, b), Xor(c, d));
    assert Xor(Xor(a, b), Xor(c, d)) == Xor(Xor(a, c), Xor(b, d));
  }

  lemma CongruentShift(a: Poly, b: Poly, k: nat)
    requires Congruent(a, b)
    ensures Congruent(Shift(a, k), Shift(b, k))
  {
    DivisibleShift(Xor(a, b), k);
    ShiftXor(a, b, k);
  }

  /** A factor x can be cancelled: the generator has the constant term one. */
  lemma CancelX(a: Poly)
    requires Divisible(Shift(a, 1))
    ensures Divisible(a)
  {
    var q :| Shift(a, 1) == TimesGenerator(q);
    InShift(a, 1, 0);
    InTimesGenerator(q, 0);
    hide TimesGenerator;
    hide Shift;
    var p := Lowered(q);
    TimesGeneratorShift(p, 1);
    ShiftInjective(a, TimesGenerator(p), 1);
  }

  /** A polynomial without constant term, divided by x. */
  lemma Lowered(q: Poly) returns (p: Poly)
    requires 0 !in q
    ensures q == Shift(p, 1)
  {
    p := set i | i in q :: i - 1;
    forall i: nat ensures i in q <==> i in Shift(p, 1) {
      InShift(p, 1, i);
      if i >= 1 && i in q { assert i - 1 in p; }
    }
  }

  lemma {:induction false} CancelShift(a: Poly, k: nat)
    requires Divisible(Shift(a, k))
    ensures Divisible(a)
    decreases k
  {
    if k == 0 {
      ShiftByZero(a);
    } else {
      ShiftShift(a, k - 1, 1);
      CancelX(Shift(a, k - 1));
      CancelShift(a, k - 1);
    }
  }

  // ---------- Degree and uniqueness of the remainder ----------

  lemma {:induction false} Maximum(q: Poly) returns (m: nat)
    requires q != {}
    ensures m in q && forall i | i in q :: i <= m
    decreases |q|
  {
    var x :| x in q;
    if q == {x} {
      m := x;
    } else {
      var rest := q - {x};
      m := Maximum(rest);
      if m < x { m := x; }
      forall i | i in q ensures i <= m { assert i == x || i in rest; }
    }
  }

  /** A non-zero multiple of the generator has degree at least 8. */
  lemma MultipleHasDegree(q: Poly)
    requires q != {}
    ensures exists i :: i in TimesGenerator(q) && i >= 8
  {
    var m := Maximum(q);
    InTimesGenerator(q, m + 8);
    assert m + 8 in TimesGenerator(q);
  }

  lemma SmallDivisibleIsZero(a: Poly)
    requires Divisible(a) && forall i | i in a :: i < 8
    ensures a == {}
  {
    var q :| a == TimesGenerator(q);
    if q != {} { MultipleHasDegree(q); }
  }

  lemma RemainderUnique(a: Poly, r: Poly, s: Poly)
    requires IsRemainder(a, r) && IsRemainder(a, s)
    ensures r == s
  {
    CongruentSymmetric(a, r);
    CongruentTransitive(r, a, s);
    SmallDivisibleIsZero(Xor(r, s));
    forall i ensures i in r <==> i in s { assert i !in Xor(r, s); }
  }

  // ---------- Parity ----------

  lemma XorParity(a: Poly, b: Poly)
    ensures |Xor(a, b)| % 2 == (|a| + |b|) % 2
  {
    assert (a - b) * (b - a) == {};
    assert a == (a - b) + a * b && b == (b - a) + a * b;
  }

  lemma {:induction false} ShiftSize(a: Poly, k: nat)
    ensures |Shift(a, k)| == |a|
    decreases |a|
  {
    if a != {} {
      var x :| x in a;
      var rest := a - {x};
      ShiftSize(rest, k);
      InShift(rest, k, x + k);
      forall i: nat ensures i in Shift(a, k) <==> i in Shift(rest, k) + {x + k} {
        InShift(a, k, i);
        InShift(rest, k, i);
      }
      assert Shift(a, k) == Shift(rest, k) + {x + k};
    }
  }

  lemma XorOfFourEqualSizes(a: Poly, b: Poly, c: Poly, d: Poly)
    requires |a| == |b| == |c| == |d|
    ensures |Xor(Xor(a, b), Xor(c, d))| % 2 == 0
  {
    hide Xor;
    XorParity(a, b);
    XorParity(c, d);
    XorParity(Xor(a, b), Xor(c, d));
  }

  /** Every multiple of the generator has an even number of terms: x + 1 is a factor of it. */
  lemma MultipleIsEven(q: Poly)
    ensures |TimesGenerator(q)| % 2 == 0
  {
    ShiftSize(q, 8);
    ShiftSize(q, 2);
    ShiftSize(q, 1);
    XorOfFourEqualSizes(Shift(q, 8), Shift(q, 2), Shift(q, 1), q);
  }

  // ---------- Order of x modulo the generator ----------

  /** x^e is congruent to one. */
  ghost predicate Period(e: nat) { Congruent({e}, {0}) }

  lemma PeriodDifference(a: nat, b: nat)
    requires Period(a) && Period(b) && a >= b
    ensures Period(a - b)
  {
    hide Divisible;
    CongruentSymmetric({b}, {0});
    CongruentTransitive({a}, {0}, {b});
    assert Shift({a - b}, b) == {a} by { InShift({a - b}, b, a); }
    assert Shift({0}, b) == {b} by { InShift({0}, b, b); }
    ShiftXor({a - b}, {0}, b);
    CancelShift(Xor({a - b}, {0}), b);
  }

  lemma {:induction false} PeriodRemainder(a: nat, g: nat) returns (q: nat, r: nat)
    requires Period(a) && Period(g) && g > 0
    ensures a == g * q + r && r < g && Period(r)
    decreases a
  {
    hide Period;
    if a < g {
      q, r := 0, a;
    } else {
      PeriodDifference(a, g);
      var b: nat := a - g;
      var p: nat;
      p, r := PeriodRemainder(b, g);
      q := p + 1;
      OneMoreTime(g, p);
    }
  }

  lemma OneMoreTime(g: nat, p: nat)
    ensures g * (p + 1) == g * p + g
  {
  }

  lemma LeastPeriod(d: nat) returns (g: nat)
    requires 0 < d && Period(d)
    ensures 0 < g <= d && Period(g) && forall e | 0 < e < g :: !Period(e)
  {
    g := 1;
    while !Period(g)
      invariant 0 < g <= d
      invariant forall e | 0 < e < g :: !Period(e)
      decreases d - g
    {
      g := g + 1;
    }
  }

  lemma Prime127(g: nat, q: nat)
    requires 2 <= g <= 126
    ensures g * q != 127
  {
    if q <= 10 {
      assert q == 0 || q == 1 || q == 2 || q == 3 || q == 4 || q == 5 || q == 6 || q == 7 || q == 8 || q == 9
          || q == 10;
    } else if g <= 11 {
      assert g == 2 || g == 3 || g == 4 || g == 5 || g == 6 || g == 7 || g == 8 || g == 9 || g == 10 || g == 11;
    } else {
      MultiplyMonotone(12, g, 11, q);
    }
  }

  lemma MultiplyMonotone(a: nat, b: nat, c: nat, d: nat)
    requires a <= b && c <= d
    ensures a * c <= b * d
  {
    assert a * c <= b * c by { assert (b - a) * c >= 0; }
    assert b * c <= b * d by { assert b * (d - c) >= 0; }
  }

  lemma NotPeriodOne()
    ensures !Period(1)
  {
    if Period(1) {
      assert Xor({1}, {0}) == {1, 0};
      SmallDivisibleIsZero({1, 0});
    }
  }

  /** With x^127 congruent to one, no smaller positive power of x is. */
  lemma NoSmallPeriod(d: nat)
    requires 0 < d < 127 && Period(127)
    ensures !Period(d)
  {
    hide Period;
    if Period(d) {
      var g := LeastPeriod(d);
      var q, r := PeriodRemainder(127, g);
      if g >= 2 {
        Prime127(g, q);
      } else {
        NotPeriodOne();
      }
    }
  }

  // ---------- The generator itself ----------

  /** One times the generator is x^8 + x^2 + x + 1. */
  lemma GeneratorTerms()
    ensures TimesGenerator({0}) == {8, 2, 1, 0}
  {
    assert Shift({0}, 8) == {8} && Shift({0}, 2) == {2} && Shift({0}, 1) == {1};
  }
}
