/** Concatenation of a sequence of sequences: the shape of every printed list. */
module Flattening {

  function Flatten<T>(ss: seq<seq<T>>): seq<T> {
    if ss == [] then [] else Flatten(ss[..|ss| - 1]) + ss[|ss| - 1]
  }

  lemma FlattenLast<T>(ss: seq<seq<T>>, last: seq<T>)
    ensures Flatten(ss + [last]) == Flatten(ss) + last
  {
    assert (ss + [last])[..|ss|] == ss;
  }

  lemma FlattenStep<T>(ss: seq<seq<T>>, k: nat)
    requires k < |ss|
    ensures Flatten(ss[..k + 1]) == Flatten(ss[..k]) + ss[k]
  {
    assert ss[..k + 1] == ss[..k] + [ss[k]];
    FlattenLast(ss[..k], ss[k]);
  }

  lemma Associative<T>(a: seq<T>, b: seq<T>, c: seq<T>)
    ensures (a + b) + c == a + (b + c)
  {
  }

  lemma {:induction false} FlattenAppend<T>(a: seq<seq<T>>, b: seq<seq<T>>)
    ensures Flatten(a + b) == Flatten(a) + Flatten(b)
    decreases |b|
  {
    if b == [] {
      assert a + b == a;
      assert Flatten(b) == [];
    } else {
      var front, last := b[..|b| - 1], b[|b| - 1];
      FlattenAppend(a, front);
      Associative(a, front, [last]);
      assert b == front + [last];
      FlattenLast(a + front, last);
      Associative(Flatten(a), Flatten(front), last);
    }
  }

  lemma FlattenFront<T>(ss: seq<seq<T>>)
    requires ss != []
    ensures Flatten(ss) == ss[0] + Flatten(ss[1..])
  {
    FlattenAppend([ss[0]], ss[1..]);
    assert ss == [ss[0]] + ss[1..];
    FlattenLast([], ss[0]);
    assert [] + [ss[0]] == [ss[0]] && Flatten<T>([]) == [];
  }

  lemma FlattenSplit<T>(ss: seq<seq<T>>, k: nat)
    requires k <= |ss|
    ensures Flatten(ss) == Flatten(ss[..k]) + Flatten(ss[k..])
  {
    FlattenAppend(ss[..k], ss[k..]);
    assert ss == ss[..k] + ss[k..];
  }

  /** Blocks of one length. */
  lemma {:induction false} FlattenLength<T>(ss: seq<seq<T>>, n: nat)
    requires forall i | 0 <= i < |ss| :: |ss[i]| == n
    ensures |Flatten(ss)| == n * |ss|
    decreases |ss|
  {
    if ss != [] {
      FlattenLength(ss[..|ss| - 1], n);
      assert n * |ss| == n * (|ss| - 1) + n;
    }
  }

  lemma {:induction false} FlattenBound<T>(ss: seq<seq<T>>, n: nat)
    requires forall i | 0 <= i < |ss| :: |ss[i]| <= n
    ensures |Flatten(ss)| <= n * |ss|
    decreases |ss|
  {
    if ss != [] {
      FlattenBound(ss[..|ss| - 1], n);
      assert n * |ss| == n * (|ss| - 1) + n;
    }
  }
}
