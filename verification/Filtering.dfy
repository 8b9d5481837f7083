/** The elements of a trace that count for something. */
module Filtering {

  function Filter<T>(keep: T -> bool, s: seq<T>): (r: seq<T>)
    ensures forall e | e in r :: keep(e)
  {
    if s == [] then []
    else Filter(keep, s[..|s| - 1]) + (if keep(s[|s| - 1]) then [s[|s| - 1]] else [])
  }

  lemma {:induction false} FilterAppend<T>(keep: T -> bool, a: seq<T>, b: seq<T>)
    ensures Filter(keep, a + b) == Filter(keep, a) + Filter(keep, b)
    decreases |b|
  {
    if b == [] {
      assert a + b == a;
    } else {
      assert (a + b)[..|a + b| - 1] == a + b[..|b| - 1];
      FilterAppend(keep, a, b[..|b| - 1]);
    }
  }

  lemma FilterOne<T>(keep: T -> bool, e: T)
    ensures Filter(keep, [e]) == if keep(e) then [e] else []
  {
    assert [e][..0] == [];
  }

  lemma {:induction false} FilterNone<T>(keep: T -> bool, s: seq<T>)
    requires forall e | e in s :: !keep(e)
    ensures Filter(keep, s) == []
    decreases |s|
  {
    if s != [] { FilterNone(keep, s[..|s| - 1]); }
  }
}
