/** The checksum of the SII configuration area: the loop of the image generator, its meaning as a
    remainder of polynomials over GF(2), and the errors it detects. */
module SiiChecksum {
  import opened Gf2Polynomials

  // ---------- The loop ----------

  /** One turn of the bit loop. */
  function Step(crc: bv8): bv8 {
    if crc & 0x80 != 0 then (crc << 1) ^ 0x07 else crc << 1
  }

  function Steps(crc: bv8, n: nat): bv8 {
    if n == 0 then crc else Step(Steps(crc, n - 1))
  }

  /** The register after the bytes of a message. */
  function Register(init: bv8, message: seq<bv8>): bv8 {
    if message == [] then init
    else Steps(Register(init, message[..|message| - 1]) ^ message[|message| - 1], 8)
  }

  function Checksum(message: seq<bv8>): bv8 { Register(0xFF, message) }

  method CalcCrcByte(crc: bv8, byte: bv8) returns (result: bv8)
    ensures result == Steps(crc ^ byte, 8)
  {
    result := crc ^ byte;
    for k := 0 to 8
      invariant result == Steps(crc ^ byte, k)
    {
      if result & 0x80 != 0 {
        result := (result << 1) ^ 0x07;
      } else {
        result := result << 1;
      }
    }
  }

  /** The checksum of the first 14 bytes (of all the bytes of a shorter buffer). */
  method SiiCrc(buf: seq<bv8>) returns (crc: bv8)
    ensures crc == Checksum(buf[..if |buf| < 14 then |buf| else 14])
  {
    crc := 0xFF;
    var area := buf[..if |buf| < 14 then |buf| else 14];
    for k := 0 to |area|
      invariant crc == Register(0xFF, area[..k])
    {
      assert area[..k + 1][..k] == area[..k];
      crc := CalcCrcByte(crc, area[k]);
    }
    assert area[..|area|] == area;
  }

  // ---------- Bytes and messages as polynomials ----------

  predicate Bit(b: bv8, i: nat)
    requires i < 8
  {
    if i == 0 then b & 0x01 != 0
    else if i == 1 then b & 0x02 != 0
    else if i == 2 then b & 0x04 != 0
    else if i == 3 then b & 0x08 != 0
    else if i == 4 then b & 0x10 != 0
    else if i == 5 then b & 0x20 != 0
    else if i == 6 then b & 0x40 != 0
    else b & 0x80 != 0
  }

  ghost function BytePoly(b: bv8): Poly { set i: nat | i < 8 && Bit(b, i) }

  /** A message as a polynomial: its last bit is the constant term. */
  ghost function MessagePoly(message: seq<bv8>): Poly {
    if message == [] then {}
    else Xor(Shift(MessagePoly(message[..|message| - 1]), 8), BytePoly(message[|message| - 1]))
  }

  /** The coefficient of x^i in a message is bit i mod 8 of the byte i div 8 from its end. */
  lemma {:induction false} MessagePolyBit(message: seq<bv8>, i: nat)
    ensures i in MessagePoly(message) <==>
              i < 8 * |message| && Bit(message[|message| - 1 - i / 8], i % 8)
    decreases |message|
  {
    if message != [] {
      var front := message[..|message| - 1];
      InShift(MessagePoly(front), 8, i);
      if i >= 8 {
        MessagePolyBit(front, i - 8);
        assert (i - 8) / 8 == i / 8 - 1 && (i - 8) % 8 == i % 8;
      }
    }
  }

  lemma BytePolyXor(a: bv8, b: bv8)
    ensures BytePoly(a ^ b) == Xor(BytePoly(a), BytePoly(b))
  {
    forall i: nat | i < 8 ensures Bit(a ^ b, i) == (Bit(a, i) != Bit(b, i)) { XorBit(a, b, i); }
  }

  lemma XorBit(a: bv8, b: bv8, i: nat)
    requires i < 8
    ensures Bit(a ^ b, i) == (Bit(a, i) != Bit(b, i))
  {
    if i < 4 { XorLowBit(a, b, i); } else { XorHighBit(a, b, i); }
  }

  lemma XorLowBit(a: bv8, b: bv8, i: nat)
    requires i < 4
    ensures Bit(a ^ b, i) == (Bit(a, i) != Bit(b, i))
  {
    if i == 0 { assert (a ^ b) & 0x01 == (a & 0x01) ^ (b & 0x01); }
    else if i == 1 { assert (a ^ b) & 0x02 == (a & 0x02) ^ (b & 0x02); }
    else if i == 2 { assert (a ^ b) & 0x04 == (a & 0x04) ^ (b & 0x04); }
    else { assert (a ^ b) & 0x08 == (a & 0x08) ^ (b & 0x08); }
  }

  lemma XorHighBit(a: bv8, b: bv8, i: nat)
    requires 4 <= i < 8
    ensures Bit(a ^ b, i) == (Bit(a, i) != Bit(b, i))
  {
    if i == 4 { assert (a ^ b) & 0x10 == (a & 0x10) ^ (b & 0x10); }
    else if i == 5 { assert (a ^ b) & 0x20 == (a & 0x20) ^ (b & 0x20); }
    else if i == 6 { assert (a ^ b) & 0x40 == (a & 0x40) ^ (b & 0x40); }
    else { assert (a ^ b) & 0x80 == (a & 0x80) ^ (b & 0x80); }
  }

  lemma BytePolyInjective(a: bv8, b: bv8)
    requires BytePoly(a) == BytePoly(b)
    ensures a == b
  {
    forall i: nat | i < 8 ensures Bit(a, i) == Bit(b, i) {
      assert i in BytePoly(a) <==> i in BytePoly(b);
    }
    assert Bit(a, 0) == Bit(b, 0) && Bit(a, 1) == Bit(b, 1) && Bit(a, 2) == Bit(b, 2) && Bit(a, 3) == Bit(b, 3);
    assert Bit(a, 4) == Bit(b, 4) && Bit(a, 5) == Bit(b, 5) && Bit(a, 6) == Bit(b, 6) && Bit(a, 7) == Bit(b, 7);
  }

  // ---------- The register holds a remainder ----------

  /** The bits of Step(b): a shift, and the low terms of the generator when the top bit falls out. */
  lemma StepBit(b: bv8, i: nat)
    requires i < 8
    ensures Bit(Step(b), i) == ((i >= 1 && Bit(b, i - 1)) != (Bit(b, 7) && i <= 2))
  {
    if i == 0 { }
    else if i == 1 { }
    else if i == 2 { }
    else if i == 3 { }
    else if i == 4 { }
    else if i == 5 { }
    else if i == 6 { }
    else { }
  }

  lemma StepIsTimesX(b: bv8)
    ensures Congruent(Shift(BytePoly(b), 1), BytePoly(Step(b)))
  {
    var q: Poly := if Bit(b, 7) then {0} else {};
    var difference := Xor(Shift(BytePoly(b), 1), BytePoly(Step(b)));
    forall i: nat ensures i in difference <==> i in TimesGenerator(q) {
      InShift(BytePoly(b), 1, i);
      InTimesGenerator(q, i);
      if i < 8 { StepBit(b, i); }
    }
    assert difference == TimesGenerator(q);
  }

  lemma StepCongruent(a: Poly, b: bv8)
    requires Congruent(a, BytePoly(b))
    ensures Congruent(Shift(a, 1), BytePoly(Step(b)))
  {
    CongruentShift(a, BytePoly(b), 1);
    StepIsTimesX(b);
    CongruentTransitive(Shift(a, 1), Shift(BytePoly(b), 1), BytePoly(Step(b)));
  }

  lemma {:induction false} StepsIsTimesPower(b: bv8, n: nat)
    ensures Congruent(Shift(BytePoly(b), n), BytePoly(Steps(b, n)))
    decreases n
  {
    if n == 0 {
      ShiftByZero(BytePoly(b));
      CongruentReflexive(BytePoly(b));
    } else {
      var m: nat := n - 1;
      StepsIsTimesPower(b, m);
      StepCongruent(Shift(BytePoly(b), m), Steps(b, m));
      ShiftShift(BytePoly(b), m, 1);
    }
  }

  /** What is divided: the message followed by eight zero bits, with the initial value added to the front. */
  ghost function Dividend(init: bv8, message: seq<bv8>): Poly {
    Xor(Shift(BytePoly(init), 8 * |message|), Shift(MessagePoly(message), 8))
  }

  lemma DividendStep(init: bv8, front: seq<bv8>, last: bv8)
    ensures Dividend(init, front + [last]) == Shift(Xor(Dividend(init, front), BytePoly(last)), 8)
  {
    var i, m, b := BytePoly(init), MessagePoly(front), BytePoly(last);
    assert (front + [last])[..|front|] == front;
    assert MessagePoly(front + [last]) == Xor(Shift(m, 8), b);
    ShiftXor(Dividend(init, front), b, 8);
    ShiftXor(Shift(i, 8 * |front|), Shift(m, 8), 8);
    ShiftShift(i, 8 * |front|, 8);
    ShiftXor(Shift(m, 8), b, 8);
    assert 8 * |front + [last]| == 8 * |front| + 8;
  }

  lemma {:induction false} RegisterCongruent(init: bv8, message: seq<bv8>)
    ensures Congruent(Dividend(init, message), BytePoly(Register(init, message)))
    decreases |message|
  {
    if message == [] {
      StepsIsTimesPower(init, 0);
      assert Shift(MessagePoly([]), 8) == {};
      assert Xor(Shift(BytePoly(init), 0), {}) == Shift(BytePoly(init), 0);
    } else {
      var front, last := message[..|message| - 1], message[|message| - 1];
      var r := Register(init, front);
      assert message == front + [last];
      RegisterCongruent(init, front);
      CongruentReflexive(BytePoly(last));
      CongruentXor(Dividend(init, front), BytePoly(r), BytePoly(last), BytePoly(last));
      BytePolyXor(r, last);
      CongruentShift(Xor(Dividend(init, front), BytePoly(last)), BytePoly(r ^ last), 8);
      DividendStep(init, front, last);
      StepsIsTimesPower(r ^ last, 8);
      CongruentTransitive(Dividend(init, message), Shift(BytePoly(r ^ last), 8), BytePoly(Register(init, message)));
    }
  }

  /** The checksum is the one remainder of the message modulo x^8 + x^2 + x + 1, initial value 0xFF. */
  lemma ChecksumIsRemainder(message: seq<bv8>, r: Poly)
    ensures IsRemainder(Dividend(0xFF, message), r) <==> r == BytePoly(Checksum(message))
  {
    RegisterCongruent(0xFF, message);
    assert IsRemainder(Dividend(0xFF, message), BytePoly(Checksum(message)));
    if IsRemainder(Dividend(0xFF, message), r) {
      RemainderUnique(Dividend(0xFF, message), r, BytePoly(Checksum(message)));
    }
  }

  // ---------- Error detection ----------

  /** The exponents at which two messages differ. */
  ghost function Flipped(m: seq<bv8>, n: seq<bv8>): Poly { Xor(MessagePoly(m), MessagePoly(n)) }

  /** Two messages of one length have the same checksum exactly when the generator divides their difference. */
  lemma UndetectedIffDivisible(m: seq<bv8>, n: seq<bv8>)
    requires |m| == |n|
    ensures Checksum(m) == Checksum(n) <==> Divisible(Flipped(m, n))
  {
    var d, e := Dividend(0xFF, m), Dividend(0xFF, n);
    var r, s := BytePoly(Checksum(m)), BytePoly(Checksum(n));
    RegisterCongruent(0xFF, m);
    RegisterCongruent(0xFF, n);
    ShiftXor(MessagePoly(m), MessagePoly(n), 8);
    assert Xor(d, e) == Shift(Flipped(m, n), 8);
    if Checksum(m) == Checksum(n) {
      CongruentSymmetric(e, s);
      CongruentTransitive(d, r, e);
      CancelShift(Flipped(m, n), 8);
    }
    if Divisible(Flipped(m, n)) {
      DivisibleShift(Flipped(m, n), 8);
      CongruentTransitive(d, e, s);
      RemainderUnique(d, r, s);
      BytePolyInjective(Checksum(m), Checksum(n));
    }
  }

  lemma OddFlipsDetected(m: seq<bv8>, n: seq<bv8>)
    requires |m| == |n| && |Flipped(m, n)| % 2 == 1
    ensures Checksum(m) != Checksum(n)
  {
    UndetectedIffDivisible(m, n);
    if Divisible(Flipped(m, n)) {
      var q :| Flipped(m, n) == TimesGenerator(q);
      MultipleIsEven(q);
    }
  }

  lemma BurstDetected(m: seq<bv8>, n: seq<bv8>, low: nat)
    requires |m| == |n| && m != n
    requires forall i | i in Flipped(m, n) :: low <= i < low + 8
    ensures Checksum(m) != Checksum(n)
  {
    var burst: Poly := set i | i in Flipped(m, n) :: i - low;
    forall i: nat ensures i in Flipped(m, n) <==> i in Shift(burst, low) {
      InShift(burst, low, i);
      if i in Flipped(m, n) { assert i - low in burst; }
    }
    assert Flipped(m, n) == Shift(burst, low);
    UndetectedIffDivisible(m, n);
    if Divisible(Flipped(m, n)) {
      CancelShift(burst, low);
      SmallDivisibleIsZero(burst);
      assert Flipped(m, n) == {};
      DifferentMessagesDiffer(m, n);
    }
  }

  lemma DifferentMessagesDiffer(m: seq<bv8>, n: seq<bv8>)
    requires |m| == |n| && m != n
    ensures Flipped(m, n) != {}
  {
    var k :| 0 <= k < |m| && m[k] != n[k];
    var bit: nat :| bit < 8 && Bit(m[k], bit) != Bit(n[k], bit) by {
      if forall i: nat | i < 8 :: Bit(m[k], i) == Bit(n[k], i) {
        assert BytePoly(m[k]) == BytePoly(n[k]);
        BytePolyInjective(m[k], n[k]);
      }
    }
    var e: nat := 8 * (|m| - 1 - k) + bit;
    assert e / 8 == |m| - 1 - k && e % 8 == bit;
    MessagePolyBit(m, e);
    MessagePolyBit(n, e);
    assert e in Flipped(m, n);
  }

  lemma BytePower(e: nat, b: bv8, c: bv8)
    requires Congruent({e}, BytePoly(b)) && c == Steps(b, 8)
    ensures Congruent({e + 8}, BytePoly(c))
  {
    StepsIsTimesPower(b, 8);
    CongruentShift({e}, BytePoly(b), 8);
    ShiftPair(e, e, 8);
    CongruentTransitive({e + 8}, Shift(BytePoly(b), 8), BytePoly(c));
  }

  lemma EightSteps(b: bv8)
    ensures Steps(b, 8) == Step(Step(Step(Step(Step(Step(Step(Step(b))))))))
  {
    assert Steps(b, 1) == Step(b);
    assert Steps(b, 2) == Step(Steps(b, 1));
    assert Steps(b, 3) == Step(Steps(b, 2));
    assert Steps(b, 4) == Step(Steps(b, 3));
    assert Steps(b, 5) == Step(Steps(b, 4));
    assert Steps(b, 6) == Step(Steps(b, 5));
    assert Steps(b, 7) == Step(Steps(b, 6));
  }

  /** The register after 1 has been run through k zero bytes, up to x^128. */
  function Power(k: nat): bv8 {
    match k
    case 0 => 0x01
    case 1 => 0x07
    case 2 => 0x15
    case 3 => 0x6B
    case 4 => 0x16
    case 5 => 0x62
    case 6 => 0x29
    case 7 => 0xDF
    case 8 => 0x13
    case 9 => 0x79
    case 10 => 0x68
    case 11 => 0x1F
    case 12 => 0x5D
    case 13 => 0x94
    case 14 => 0xE5
    case 15 => 0xB5
    case _ => 0x02
  }

  lemma NextPower(k: nat)
    requires k < 16
    ensures Steps(Power(k), 8) == Power(k + 1)
  {
    EightSteps(Power(k));
  }

  lemma PowerZero()
    ensures Congruent({0}, BytePoly(0x01))
  {
    assert BytePoly(0x01) == {0};
    CongruentReflexive({0});
  }

  lemma {:induction false} PowerOfX(k: nat)
    requires k <= 16
    ensures Congruent({8 * k}, BytePoly(Power(k)))
  {
    if k == 0 {
      PowerZero();
    } else {
      var j: nat := k - 1;
      PowerOfX(j);
      NextPower(j);
      BytePower(8 * j, Power(j), Power(k));
      assert 8 * j + 8 == 8 * k;
    }
  }

  /** The order of x divides 127: sixteen zero bytes turn 1 into x. */
  lemma PeriodIs127()
    ensures Period(127)
  {
    PowerOfX(16);
    assert BytePoly(0x02) == {1};
    ShiftPair(127, 0, 1);
    assert Xor({128}, {1}) == {127 + 1, 0 + 1};
    assert Xor({127}, {0}) == {127, 0};
    CancelX({127, 0});
  }

  /** In the 14 bytes that the configuration area protects, this is every two-bit error. */
  lemma TwoFlipsDetected(m: seq<bv8>, n: seq<bv8>, low: nat, high: nat)
    requires |m| == |n| && low < high < low + 127
    requires Flipped(m, n) == {low, high}
    ensures Checksum(m) != Checksum(n)
  {
    UndetectedIffDivisible(m, n);
    if Divisible(Flipped(m, n)) {
      var d: nat := high - low;
      ShiftPair(d, 0, low);
      assert {low, high} == {d + low, 0 + low};
      CancelShift({d, 0}, low);
      assert Xor({d}, {0}) == {d, 0};
      PeriodIs127();
      NoSmallPeriod(d);
    }
  }

  /** A two-bit error 127 bits apart goes unnoticed: the bound above is exact. */
  lemma TwoFlips127ApartUndetected(m: seq<bv8>, n: seq<bv8>, low: nat)
    requires |m| == |n| && Flipped(m, n) == {low, low + 127}
    ensures Checksum(m) == Checksum(n)
  {
    hide Checksum;
    hide Divisible;
    hide Shift;
    UndetectedIffDivisible(m, n);
    PeriodIs127();
    assert Xor({127}, {0}) == {127, 0};
    DivisibleShift({127, 0}, low);
    ShiftPair(127, 0, low);
    assert {low, low + 127} == {127 + low, 0 + low};
  }
}
