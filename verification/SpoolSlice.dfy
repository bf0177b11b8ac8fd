/**
 Indexing a spool that can only be read forwards (tools/perf_base1_worker.py,
 `_SpoolSequence.__getitem__`): one scan from the start with an early stop must give what a list
 would give.
 */
module SpoolSlice {
  import opened Wrappers

  datatype Error = ZeroStep | OutOfRange

  /** Is `x` still before the stop, in the direction of the step? */
  predicate Before(x: int, stop: int, step: int) {
    if step > 0 then x < stop else x > stop
  }

  function Distance(x: int, stop: int, step: int): nat {
    if !Before(x, stop, step) then 0 else if step > 0 then stop - x else x - stop
  }

  /** Python's `range`, as a sequence. */
  function Range(start: int, stop: int, step: int): seq<int>
    requires step != 0
    decreases Distance(start, stop, step)
  {
    if Before(start, stop, step) then [start] + Range(start + step, stop, step) else []
  }

  /** A bound counted from the end when negative. */
  function FromEnd(bound: int, length: nat): int {
    if bound < 0 then bound + length else bound
  }

  /** `slice.indices`: a bound brought into the range that the step's direction allows. */
  function Clamp(bound: int, length: nat, step: int): int {
    var b := FromEnd(bound, length);
    if b < 0 then (if step < 0 then -1 else 0)
    else if b >= length then (if step < 0 then length - 1 else length)
    else b
  }

  function Start(start: Option<int>, length: nat, step: int): int {
    if start.Some? then Clamp(start.value, length, step) else if step < 0 then length - 1 else 0
  }

  function Stop(stop: Option<int>, length: nat, step: int): int {
    if stop.Some? then Clamp(stop.value, length, step) else if step < 0 then -1 else length
  }

  function Indices(start: Option<int>, stop: Option<int>, step: int, length: nat): seq<int>
    requires step != 0
  {
    Range(Start(start, length, step), Stop(stop, length, step), step)
  }

  // ----- what a list slice is

  /** The index `n` steps away. */
  function Nth(start: int, step: int, n: nat): int {
    if n == 0 then start else Nth(start, step, n - 1) + step
  }

  lemma {:induction false} NthIsProduct(start: int, step: int, n: nat)
    ensures Nth(start, step, n) == start + n * step
  {
    if n > 0 {
      NthIsProduct(start, step, n - 1);
      assert n * step == (n - 1) * step + step;
    }
  }

  lemma {:induction false} NthShift(start: int, step: int, n: nat)
    ensures Nth(start + step, step, n) == Nth(start, step, n + 1)
  {
    if n > 0 {
      NthShift(start, step, n - 1);
    }
  }

  /** Where a list slice begins: the given position, brought to the nearest place the direction allows. */
  ghost predicate BeginsAt(start: Option<int>, length: nat, step: int, x: int) {
    if start.None? then x == if step > 0 then 0 else length - 1
    else
      var from := if start.value >= 0 then start.value else length + start.value;
      var low, high := if step > 0 then 0 else -1, if step > 0 then length else length - 1;
      low <= x <= high && (from < low ==> x == low) && (from > high ==> x == high) && (low <= from <= high ==> x == from)
  }

  /** An index that a list slice may still take: inside the list, and not yet at the stop. */
  ghost predicate MayTake(stop: Option<int>, length: nat, step: int, x: int) {
    && 0 <= x < length
    && (stop.Some? ==>
          var to := if stop.value >= 0 then stop.value else length + stop.value;
          (step > 0 ==> x < to) && (step < 0 ==> x > to))
  }

  /**
   Element `n` of a list slice is `n` steps from the starting index; the slice ends before the
   first such index that is outside the list or no longer before the stop.
   */
  ghost predicate IsListSlice<T>(items: seq<T>, start: Option<int>, stop: Option<int>, step: int, r: seq<T>) {
    exists s :: BeginsAt(start, |items|, step, s) && TakesFrom(items, stop, step, s, r)
  }

  ghost predicate TakesFrom<T>(items: seq<T>, stop: Option<int>, step: int, s: int, r: seq<T>) {
    && (forall n: nat :: n < |r| ==> MayTake(stop, |items|, step, Nth(s, step, n)) && r[n] == items[Nth(s, step, n)])
    && !MayTake(stop, |items|, step, Nth(s, step, |r|))
  }

  predicate InSlice(start: Option<int>, stop: Option<int>, step: int, length: nat, n: nat) {
    var x := Nth(Start(start, length, step), step, n);
    && 0 <= x < length
    && (stop.Some? ==> Before(x, FromEnd(stop.value, length), step))
  }

  lemma StartBegins(start: Option<int>, length: nat, step: int, x: int)
    requires step != 0
    ensures BeginsAt(start, length, step, x) <==> x == Start(start, length, step)
  {
  }

  lemma TakenIsInSlice(start: Option<int>, stop: Option<int>, step: int, length: nat, n: nat)
    requires step != 0
    ensures MayTake(stop, length, step, Nth(Start(start, length, step), step, n)) <==> InSlice(start, stop, step, length, n)
  {
  }

  lemma {:induction false} RangeElements(start: int, stop: int, step: int)
    requires step != 0
    ensures
      var r := Range(start, stop, step);
      && (forall n :: 0 <= n < |r| ==> r[n] == Nth(start, step, n) && Before(r[n], stop, step))
      && !Before(Nth(start, step, |r|), stop, step)
    decreases Distance(start, stop, step)
  {
    if Before(start, stop, step) {
      var rest, r := Range(start + step, stop, step), Range(start, stop, step);
      RangeElements(start + step, stop, step);
      NthShift(start, step, |rest|);
      forall n | 0 <= n < |r| ensures r[n] == Nth(start, step, n) && Before(r[n], stop, step) {
        if n > 0 {
          assert r[n] == rest[n - 1];
          NthShift(start, step, n - 1);
        }
      }
    }
  }

  /** A stepped index that has passed neither the start nor the stop is inside the list. */
  lemma {:induction false} StaysInside(start: Option<int>, stop: Option<int>, step: int, length: nat, n: nat)
    requires step != 0
    ensures
      var s, t := Start(start, length, step), Stop(stop, length, step);
      Before(Nth(s, step, n), t, step) ==> 0 <= Nth(s, step, n) < length
    decreases n
  {
    if n > 0 {
      StaysInside(start, stop, step, length, n - 1);
    }
  }

  lemma BeforeMeansInSlice(start: Option<int>, stop: Option<int>, step: int, length: nat, n: nat)
    requires step != 0
    ensures Before(Nth(Start(start, length, step), step, n), Stop(stop, length, step), step) <==>
            InSlice(start, stop, step, length, n)
  {
    StaysInside(start, stop, step, length, n);
  }

  function Picked<T>(items: seq<T>, indices: seq<int>): seq<T>
    requires forall i :: 0 <= i < |indices| ==> 0 <= indices[i] < |items|
  {
    seq(|indices|, i requires 0 <= i < |indices| => items[indices[i]])
  }

  /** Picking the items of `slice.indices` is the list slice, for every start, stop and nonzero step. */
  lemma PickedIsListSlice<T>(items: seq<T>, start: Option<int>, stop: Option<int>, step: int)
    requires step != 0
    ensures
      var indices := Indices(start, stop, step, |items|);
      && (forall i :: 0 <= i < |indices| ==> 0 <= indices[i] < |items|)
      && IsListSlice(items, start, stop, step, Picked(items, indices))
  {
    var s, t := Start(start, |items|, step), Stop(stop, |items|, step);
    var indices := Indices(start, stop, step, |items|);
    RangeElements(s, t, step);
    forall n | 0 <= n < |indices|
      ensures InSlice(start, stop, step, |items|, n) && indices[n] == Nth(s, step, n)
    {
      BeforeMeansInSlice(start, stop, step, |items|, n);
    }
    BeforeMeansInSlice(start, stop, step, |items|, |indices|);
    forall n: nat ensures MayTake(stop, |items|, step, Nth(s, step, n)) <==> InSlice(start, stop, step, |items|, n) {
      TakenIsInSlice(start, stop, step, |items|, n);
    }
    StartBegins(start, |items|, step, s);
    assert TakesFrom(items, stop, step, s, Picked(items, indices));
  }

  /** A list slice is unique. */
  lemma ListSliceUnique<T>(items: seq<T>, start: Option<int>, stop: Option<int>, step: int, a: seq<T>, b: seq<T>)
    requires step != 0 && IsListSlice(items, start, stop, step, a) && IsListSlice(items, start, stop, step, b)
    ensures a == b
  {
    var s :| BeginsAt(start, |items|, step, s) && TakesFrom(items, stop, step, s, a);
    var t :| BeginsAt(start, |items|, step, t) && TakesFrom(items, stop, step, t, b);
    StartBegins(start, |items|, step, s);
    StartBegins(start, |items|, step, t);
    assert |a| == |b|;
  }

  // ----- two familiar slices

  /** A plain slice between two positions of the list. */
  lemma PlainSlice<T>(items: seq<T>, a: nat, b: nat)
    requires a <= b <= |items|
    ensures IsListSlice(items, Some(a), Some(b), 1, items[a..b])
  {
    forall n: nat ensures Nth(a, 1, n) == a + n {
      NthIsProduct(a, 1, n);
    }
    assert BeginsAt(Some(a), |items|, 1, a) && TakesFrom(items, Some(b), 1, a, items[a..b]);
  }

  /** The slice with step -1 is the list backwards. */
  lemma ReversedSlice<T>(items: seq<T>)
    ensures IsListSlice(items, None, None, -1, seq(|items|, i requires 0 <= i < |items| => items[|items| - 1 - i]))
  {
    var back := seq(|items|, i requires 0 <= i < |items| => items[|items| - 1 - i]);
    var last, step := |items| - 1, -1;
    forall n: nat ensures Nth(last, step, n) == last - n {
      NthIsProduct(last, step, n);
    }
    assert BeginsAt(None, |items|, -1, last) && TakesFrom(items, None, -1, last, back);
  }

  // ----- the forward scan

  method Largest(indices: seq<int>) returns (m: int)
    requires indices != []
    ensures m in indices && forall x :: x in indices ==> x <= m
  {
    m := indices[0];
    for i := 1 to |indices|
      invariant m in indices && forall j :: 0 <= j < i ==> indices[j] <= m
    {
      if indices[i] > m {
        m := indices[i];
      }
    }
  }

  /** One pass from the front that stops at the largest wanted index has met every wanted item. */
  method Scan<T>(spool: seq<T>, wanted: set<int>, largest: int) returns (collected: map<int, T>)
    requires largest in wanted && forall x :: x in wanted ==> 0 <= x <= largest < |spool|
    ensures forall x :: x in wanted ==> x in collected && collected[x] == spool[x]
  {
    collected := map[];
    for i := 0 to |spool|
      invariant forall x :: x in wanted && x < i ==> x in collected && collected[x] == spool[x]
      invariant i <= largest + 1
    {
      if i in wanted {
        collected := collected[i := spool[i]];
      }
      if i >= largest {
        break;
      }
    }
  }

  method GetSlice<T>(spool: seq<T>, start: Option<int>, stop: Option<int>, step: Option<int>)
    returns (r: Result<seq<T>, Error>)
    ensures r.Failure? <==> step == Some(0)
    ensures r.Failure? ==> r.error == ZeroStep
    ensures r.Success? ==> IsListSlice(spool, start, stop, if step.Some? then step.value else 1, r.value)
  {
    var k := if step.Some? then step.value else 1;
    if k == 0 {
      return Failure(ZeroStep);
    }
    var indices := Indices(start, stop, k, |spool|);
    PickedIsListSlice(spool, start, stop, k);
    if indices == [] {
      assert Picked(spool, indices) == [];
      return Success([]);
    }
    var largest := Largest(indices);
    var wanted := set x | x in indices;
    var collected := Scan(spool, wanted, largest);
    var items := seq(|indices|, i requires 0 <= i < |indices| && indices[i] in collected => collected[indices[i]]);
    assert items == Picked(spool, indices);
    return Success(items);
  }

  /** Integer indexing: from the end when negative, an error exactly outside the list. */
  method GetItem<T>(spool: seq<T>, index: int) returns (r: Result<T, Error>)
    ensures r.Failure? <==> index < -|spool| || index >= |spool|
    ensures r.Failure? ==> r.error == OutOfRange
    ensures r.Success? ==> r.value == if index < 0 then spool[index + |spool|] else spool[index]
  {
    var target := FromEnd(index, |spool|);
    if target < 0 || target >= |spool| {
      return Failure(OutOfRange);
    }
    for i := 0 to |spool|
      invariant i <= target
    {
      if i == target {
        return Success(spool[i]);
      }
    }
    return Failure(OutOfRange);
  }
}
