/** Order-preserving selections from a sequence, as Python's filtering comprehensions build them. */
module Sequences {
  function Elements<T>(s: seq<T>): set<T> {
    set x | x in s
  }

  predicate Distinct<T(==)>(s: seq<T>) {
    forall i, j :: 0 <= i < j < |s| ==> s[i] != s[j]
  }

  /** The elements of `s` outside `out`, in order. */
  function Without<T>(s: seq<T>, out: set<T>): seq<T> {
    if s == [] then []
    else Without(s[..|s| - 1], out) + (if s[|s| - 1] in out then [] else [s[|s| - 1]])
  }

  /** The elements of `s` inside `keep`, in order. */
  function Within<T>(s: seq<T>, keep: set<T>): seq<T> {
    if s == [] then []
    else Within(s[..|s| - 1], keep) + (if s[|s| - 1] in keep then [s[|s| - 1]] else [])
  }

  lemma WithoutSnoc<T>(s: seq<T>, x: T, out: set<T>)
    ensures Without(s + [x], out) == Without(s, out) + (if x in out then [] else [x])
    ensures Within(s + [x], out) == Within(s, out) + (if x in out then [x] else [])
  {
    assert (s + [x])[..|s|] == s;
  }

  lemma {:induction false} WithoutConcat<T>(a: seq<T>, b: seq<T>, out: set<T>)
    ensures Without(a + b, out) == Without(a, out) + Without(b, out)
    ensures Within(a + b, out) == Within(a, out) + Within(b, out)
    decreases |b|
  {
    if b == [] {
      assert a + b == a;
    } else {
      var c, x := b[..|b| - 1], b[|b| - 1];
      assert a + b == (a + c) + [x] && b == c + [x];
      WithoutConcat(a, c, out);
      WithoutSnoc(a + c, x, out);
      WithoutSnoc(c, x, out);
    }
  }

  /** Both selections keep every occurrence: together they are a rearrangement of the whole. */
  lemma {:induction false} SplitConserves<T>(s: seq<T>, out: set<T>)
    ensures multiset(s) == multiset(Without(s, out)) + multiset(Within(s, out))
    ensures |s| == |Without(s, out)| + |Within(s, out)|
    decreases |s|
  {
    if s != [] {
      assert s == s[..|s| - 1] + [s[|s| - 1]];
      SplitConserves(s[..|s| - 1], out);
    }
  }

  lemma {:induction false} SelectionMembers<T>(s: seq<T>, out: set<T>)
    ensures forall x :: x in Without(s, out) <==> x in s && x !in out
    ensures forall x :: x in Within(s, out) <==> x in s && x in out
    decreases |s|
  {
    if s != [] {
      assert s == s[..|s| - 1] + [s[|s| - 1]];
      SelectionMembers(s[..|s| - 1], out);
    }
  }

  lemma {:induction false} SelectionDistinct<T>(s: seq<T>, out: set<T>)
    requires Distinct(s)
    ensures Distinct(Without(s, out)) && Distinct(Within(s, out))
    decreases |s|
  {
    if s != [] {
      var r, x := s[..|s| - 1], s[|s| - 1];
      SelectionDistinct(r, out);
      SelectionMembers(r, out);
      forall i | 0 <= i < |Without(r, out)| ensures Without(r, out)[i] != x {
        assert Without(r, out)[i] in Without(r, out);
      }
      forall i | 0 <= i < |Within(r, out)| ensures Within(r, out)[i] != x {
        assert Within(r, out)[i] in Within(r, out);
      }
    }
  }

  /** Selecting everything outside, or inside what lies outside, are the same selection. */
  lemma {:induction false} WithinComplement<T>(s: seq<T>, out: set<T>, keep: set<T>)
    requires forall x :: x in s ==> (x in keep <==> x !in out)
    ensures Within(s, keep) == Without(s, out)
    decreases |s|
  {
    if s != [] {
      assert s[|s| - 1] in s;
      forall x | x in s[..|s| - 1] ensures x in s {}
      WithinComplement(s[..|s| - 1], out, keep);
    }
  }

  /** Selecting twice selects the intersection, so a selection of a selection keeps the outer order. */
  lemma {:induction false} WithinWithin<T>(s: seq<T>, keep: set<T>, outer: set<T>, sel: set<T>)
    requires forall x :: x in s ==> (x in sel <==> x in keep && x !in outer)
    ensures Within(Without(s, outer), keep) == Within(s, sel)
    decreases |s|
  {
    if s != [] {
      var r, x := s[..|s| - 1], s[|s| - 1];
      assert x in s;
      forall y | y in r ensures y in s {}
      WithinWithin(r, keep, outer, sel);
      if x !in outer {
        WithoutSnoc(Without(r, outer), x, keep);
      } else {
        assert Without(r, outer) + [] == Without(r, outer);
      }
    }
  }

  lemma {:induction false} DistinctCount<T>(s: seq<T>)
    requires Distinct(s)
    ensures |Elements(s)| == |s|
    decreases |s|
  {
    if s != [] {
      var r, x := s[..|s| - 1], s[|s| - 1];
      DistinctCount(r);
      assert s == r + [x];
      assert Elements(s) == Elements(r) + {x};
      assert x !in r;
    }
  }

  /** Pigeonhole: distinct items drawn from `plan`, as many as `plan` has, are exactly `plan`. */
  lemma Pigeonhole<T>(items: seq<T>, plan: seq<T>)
    requires Distinct(items) && Distinct(plan) && |items| == |plan|
    requires forall x :: x in items ==> x in plan
    ensures Elements(items) == Elements(plan)
  {
    DistinctCount(items);
    DistinctCount(plan);
    SubsetSameSize(Elements(items), Elements(plan));
  }

  lemma SubsetSameSize<T>(a: set<T>, b: set<T>)
    requires a <= b && |a| == |b|
    ensures a == b
  {
    assert b == a + (b - a);
    assert |b| == |a| + |b - a|;
  }
}
