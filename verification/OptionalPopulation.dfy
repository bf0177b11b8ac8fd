/**
 The optional-owner exclusion record. The child removes excluded nodes from the raw
 collection and records each one's raw index (tools/runner_staging_discovery_child.py); the
 parent reinserts them with Python's clamping `list.insert` and checks the result
 (tools/runner_staging_discovery_contract.py).
 */
module OptionalPopulation {
  import opened Wrappers
  import opened Sequences

  datatype Exclusion<T> = Exclusion(nodeid: T, rawIndex: int)

  datatype Record<T> = Record(excluded: seq<Exclusion<T>>, count: int, rawCount: int, reason: string)

  /** `list.insert`: a negative index counts from the end, and both ends clamp. */
  function PyInsert<T>(s: seq<T>, i: int, x: T): (r: seq<T>)
    ensures |r| == |s| + 1
  {
    var p := if i >= |s| then |s| else if i >= 0 then i else if i + |s| >= 0 then i + |s| else 0;
    s[..p] + [x] + s[p..]
  }

  /** Where the new element comes to stand, for every index. */
  lemma PyInsertMeans<T>(s: seq<T>, i: int, x: T)
    ensures 0 <= i <= |s| ==> PyInsert(s, i, x) == s[..i] + [x] + s[i..]
    ensures i > |s| ==> PyInsert(s, i, x) == s + [x]
    ensures -|s| <= i < 0 ==> PyInsert(s, i, x) == s[..|s| + i] + [x] + s[|s| + i..]
    ensures i < -|s| ==> PyInsert(s, i, x) == [x] + s
  {
    assert s[..|s|] == s && s[|s|..] == [] && s[..0] == [] && s[0..] == s;
  }

  /** The parent's reinsertion, entry by entry. */
  function Rebuild<T>(collected: seq<T>, excluded: seq<Exclusion<T>>): (r: seq<T>)
    ensures |r| == |collected| + |excluded|
  {
    if excluded == [] then collected
    else
      var n := |excluded| - 1;
      PyInsert(Rebuild(collected, excluded[..n]), excluded[n].rawIndex, excluded[n].nodeid)
  }

  function Ids<T>(excluded: seq<Exclusion<T>>): seq<T> {
    seq(|excluded|, i requires 0 <= i < |excluded| => excluded[i].nodeid)
  }

  /** The child's enumeration of the excluded nodes of a raw collection. */
  function Exclusions<T>(raw: seq<T>, out: set<T>): seq<Exclusion<T>> {
    if raw == [] then []
    else
      var n := |raw| - 1;
      Exclusions(raw[..n], out) + (if raw[n] in out then [Exclusion(raw[n], n)] else [])
  }

  predicate Ascending<T(==)>(excluded: seq<Exclusion<T>>) {
    && (forall i :: 0 <= i < |excluded| ==> excluded[i].rawIndex >= 0)
    && (forall i, j :: 0 <= i < j < |excluded| ==> excluded[i].rawIndex < excluded[j].rawIndex)
  }

  /** No insertion clamps: each index is within the list it is inserted into. */
  predicate InRange<T(==)>(excluded: seq<Exclusion<T>>, collected: seq<T>) {
    forall k :: 0 <= k < |excluded| ==> excluded[k].rawIndex <= |collected| + k
  }

  predicate Fresh<T(==)>(excluded: seq<Exclusion<T>>, collected: seq<T>) {
    Distinct(Ids(excluded)) && forall k :: 0 <= k < |excluded| ==> excluded[k].nodeid !in collected
  }

  /** The parent's final lookup: every excluded node sits at its recorded index. */
  predicate SitsAt<T(==)>(raw: seq<T>, excluded: seq<Exclusion<T>>) {
    forall k :: 0 <= k < |excluded| ==>
      0 <= excluded[k].rawIndex < |raw| && raw[excluded[k].rawIndex] == excluded[k].nodeid
  }

  /** `raw` is a collection from which this record and this collected list were made. */
  ghost predicate IsRawFor<T>(raw: seq<T>, excluded: seq<Exclusion<T>>, collected: seq<T>) {
    && Distinct(Ids(excluded))
    && Exclusions(raw, Elements(Ids(excluded))) == excluded
    && Without(raw, Elements(Ids(excluded))) == collected
  }

  // ----- enumeration lemmas

  lemma ExclusionsSnoc<T>(raw: seq<T>, x: T, out: set<T>)
    ensures Exclusions(raw + [x], out) == Exclusions(raw, out) + (if x in out then [Exclusion(x, |raw|)] else [])
  {
    assert (raw + [x])[..|raw|] == raw;
  }

  lemma {:induction false} ExclusionsTail<T>(raw: seq<T>, tail: seq<T>, out: set<T>)
    requires forall x :: x in tail ==> x !in out
    ensures Exclusions(raw + tail, out) == Exclusions(raw, out)
    decreases |tail|
  {
    if tail == [] {
      assert raw + tail == raw;
    } else {
      var init, x := tail[..|tail| - 1], tail[|tail| - 1];
      assert x in tail && raw + tail == raw + init + [x];
      forall y | y in init ensures y in tail {}
      ExclusionsTail(raw, init, out);
      ExclusionsSnoc(raw + init, x, out);
    }
  }

  /** A record of ascending indices inside the raw list, each with its own node, beside `kept` other nodes. */
  ghost predicate Shape<T>(raw: seq<T>, kept: nat, ex: seq<Exclusion<T>>, out: set<T>) {
    && Ascending(ex) && SitsAt(raw, ex)
    && (forall k :: 0 <= k < |ex| ==> ex[k].nodeid in out && ex[k].rawIndex <= kept + k)
    && |raw| == kept + |ex|
  }

  lemma {:induction false} ExclusionsShape<T>(raw: seq<T>, out: set<T>)
    ensures Shape(raw, |Without(raw, out)|, Exclusions(raw, out), out)
    decreases |raw|
  {
    if raw != [] {
      var init, x := raw[..|raw| - 1], raw[|raw| - 1];
      assert raw == init + [x];
      ExclusionsShape(init, out);
      ExclusionsSnoc(init, x, out);
      WithoutSnoc(init, x, out);
      assert Exclusions(init, out) + [] == Exclusions(init, out) && Without(init, out) + [] == Without(init, out);
    }
  }

  lemma {:induction false} ExclusionIds<T>(raw: seq<T>, out: set<T>)
    ensures Ids(Exclusions(raw, out)) == Within(raw, out)
    decreases |raw|
  {
    if raw != [] {
      ExclusionIds(raw[..|raw| - 1], out);
    }
  }

  // ----- the round trip from the child to the parent

  lemma {:induction false} RebuildAppend<T>(collected: seq<T>, excluded: seq<Exclusion<T>>, x: T)
    requires Ascending(excluded) && InRange(excluded, collected)
    ensures Rebuild(collected + [x], excluded) == Rebuild(collected, excluded) + [x]
    decreases |excluded|
  {
    if excluded != [] {
      var n := |excluded| - 1;
      RebuildAppend(collected, excluded[..n], x);
      InsertBeforeLast(Rebuild(collected, excluded[..n]), excluded[n].rawIndex, excluded[n].nodeid, x);
    }
  }

  lemma InsertBeforeLast<T>(r: seq<T>, i: int, y: T, x: T)
    requires 0 <= i <= |r|
    ensures PyInsert(r + [x], i, y) == PyInsert(r, i, y) + [x]
  {
    assert (r + [x])[..i] == r[..i] && (r + [x])[i..] == r[i..] + [x];
  }

  lemma RebuildSnoc<T>(collected: seq<T>, excluded: seq<Exclusion<T>>, e: Exclusion<T>)
    ensures Rebuild(collected, excluded + [e]) == PyInsert(Rebuild(collected, excluded), e.rawIndex, e.nodeid)
  {
    assert (excluded + [e])[..|excluded|] == excluded;
  }

  /** Whatever the raw list and the excluded set, reinserting the enumerated exclusions restores it. */
  lemma {:induction false} RebuildRestores<T>(raw: seq<T>, out: set<T>)
    ensures Rebuild(Without(raw, out), Exclusions(raw, out)) == raw
    decreases |raw|
  {
    if raw != [] {
      var init, x := raw[..|raw| - 1], raw[|raw| - 1];
      assert raw == init + [x];
      RebuildRestores(init, out);
      RestoreOne(init, x, out);
    }
  }

  lemma RestoreOne<T>(init: seq<T>, x: T, out: set<T>)
    requires Rebuild(Without(init, out), Exclusions(init, out)) == init
    ensures Rebuild(Without(init + [x], out), Exclusions(init + [x], out)) == init + [x]
  {
    var kept, ex := Without(init, out), Exclusions(init, out);
    ExclusionsSnoc(init, x, out);
    WithoutSnoc(init, x, out);
    if x in out {
      assert kept + [] == kept;
      RebuildSnoc(kept, ex, Exclusion(x, |init|));
    } else {
      assert ex + [] == ex;
      ExclusionsShape(init, out);
      RebuildAppend(kept, ex, x);
    }
  }

  // ----- from the parent's acceptance back to the raw list

  /** From the first clamped insertion on, every insertion appends. */
  lemma {:induction false} ClampedAppends<T>(collected: seq<T>, excluded: seq<Exclusion<T>>, k: nat)
    requires Ascending(excluded) && k < |excluded| && excluded[k].rawIndex > |collected| + k
    ensures Rebuild(collected, excluded) == Rebuild(collected, excluded[..k]) + Ids(excluded)[k..]
    decreases |excluded|
  {
    var n := |excluded| - 1;
    var init, e := excluded[..n], excluded[n];
    assert excluded == init + [e];
    IndexGap(excluded, k, n);
    RebuildSnoc(collected, init, e);
    InsertClamped(Rebuild(collected, init), e.rawIndex, e.nodeid);
    IdsTail(init, e, k);
    assert init[..k] == excluded[..k];
    if k < n {
      ClampedAppends(collected, init, k);
    } else {
      assert init[..k] == init;
    }
  }

  lemma InsertClamped<T>(r: seq<T>, i: int, x: T)
    requires i >= |r|
    ensures PyInsert(r, i, x) == r + [x]
  {
  }

  lemma IdsTail<T>(excluded: seq<Exclusion<T>>, e: Exclusion<T>, k: nat)
    requires k <= |excluded|
    ensures Ids(excluded + [e])[k..] == Ids(excluded)[k..] + [e.nodeid]
    ensures k == |excluded| ==> Ids(excluded)[k..] == []
  {
  }

  lemma {:induction false} IndexGap<T>(excluded: seq<Exclusion<T>>, k: nat, m: nat)
    requires Ascending(excluded) && k <= m < |excluded|
    ensures excluded[m].rawIndex >= excluded[k].rawIndex + (m - k)
    decreases m - k
  {
    if k < m {
      IndexGap(excluded, k, m - 1);
    }
  }

  /** If every excluded node is found at its index, no insertion clamped. */
  lemma {:induction false} FoundMeansInRange<T>(collected: seq<T>, excluded: seq<Exclusion<T>>)
    requires Ascending(excluded) && Fresh(excluded, collected)
    requires SitsAt(Rebuild(collected, excluded), excluded)
    ensures InRange(excluded, collected)
  {
    forall k | 0 <= k < |excluded| ensures excluded[k].rawIndex <= |collected| + k {
      if excluded[k].rawIndex > |collected| + k {
        ClampedAppends(collected, excluded, k);
        LaterElement(Rebuild(collected, excluded[..k]), Ids(excluded), k, excluded[k].rawIndex);
        assert false;
      }
    }
  }

  /** A clamped node sits before its index; the node at its index, if any, is a later one. */
  lemma LaterElement<T>(r: seq<T>, ids: seq<T>, k: nat, i: nat)
    requires Distinct(ids) && k < |ids| && |r| < i < |r| + |ids| - k
    ensures (r + ids[k..])[i] != ids[k]
  {
    assert (r + ids[k..])[i] == ids[k + (i - |r|)];
  }

  lemma InsertEnumerated<T>(a: seq<T>, b: seq<T>, x: T, out: set<T>)
    requires x in out && forall y :: y in b ==> y !in out
    ensures Exclusions(a + [x] + b, out) == Exclusions(a + b, out) + [Exclusion(x, |a|)]
  {
    ExclusionsTail(a, b, out);
    ExclusionsTail(a + [x], b, out);
    ExclusionsSnoc(a, x, out);
  }

  lemma InsertRemoved<T>(a: seq<T>, b: seq<T>, x: T, out: set<T>)
    requires x in out
    ensures Without(a + [x] + b, out) == Without(a + b, out)
  {
    WithoutConcat(a, b, out);
    WithoutConcat(a + [x], b, out);
    WithoutSnoc(a, x, out);
  }

  /** `r` enumerates to `excluded` and keeps `collected`; everything past the last index is collected. */
  ghost predicate Enumerates<T>(r: seq<T>, excluded: seq<Exclusion<T>>, collected: seq<T>, out: set<T>) {
    && Exclusions(r, out) == excluded && Without(r, out) == collected
    && forall q :: 0 <= q < |r| && (excluded == [] || excluded[|excluded| - 1].rawIndex < q) ==> r[q] !in out
  }

  lemma InsertExclusion<T>(r: seq<T>, excluded: seq<Exclusion<T>>, collected: seq<T>, e: Exclusion<T>, out: set<T>)
    requires Enumerates(r, excluded, collected, out) && 0 <= e.rawIndex <= |r| && e.nodeid in out
    requires excluded != [] ==> excluded[|excluded| - 1].rawIndex < e.rawIndex
    ensures Enumerates(PyInsert(r, e.rawIndex, e.nodeid), excluded + [e], collected, out)
  {
    var a, b := r[..e.rawIndex], r[e.rawIndex..];
    var s := PyInsert(r, e.rawIndex, e.nodeid);
    assert s == a + [e.nodeid] + b && r == a + b;
    forall y | y in b ensures y !in out {
      var q :| 0 <= q < |b| && b[q] == y;
      assert r[e.rawIndex + q] == y;
    }
    forall q | e.rawIndex < q < |s| ensures s[q] !in out {
      assert s[q] == b[q - e.rawIndex - 1];
    }
    InsertEnumerated(a, b, e.nodeid, out);
    InsertRemoved(a, b, e.nodeid, out);
  }

  /** Unclamped ascending insertions rebuild a list that enumerates back to the same record. */
  lemma {:induction false} RebuildEnumerates<T>(collected: seq<T>, excluded: seq<Exclusion<T>>, out: set<T>)
    requires Ascending(excluded) && InRange(excluded, collected)
    requires forall k :: 0 <= k < |excluded| ==> excluded[k].nodeid in out
    requires forall x :: x in collected ==> x !in out
    ensures Enumerates(Rebuild(collected, excluded), excluded, collected, out)
    decreases |excluded|
  {
    if excluded == [] {
      NothingExcluded(collected, out);
    } else {
      RebuildEnumerates(collected, excluded[..|excluded| - 1], out);
      OneMoreExcluded(collected, excluded, out);
    }
  }

  lemma NothingExcluded<T>(collected: seq<T>, out: set<T>)
    requires forall x :: x in collected ==> x !in out
    ensures Enumerates(collected, [], collected, out)
  {
    ExclusionsTail([], collected, out);
    assert [] + collected == collected;
    KeepAll(collected, out);
  }

  lemma OneMoreExcluded<T>(collected: seq<T>, excluded: seq<Exclusion<T>>, out: set<T>)
    requires excluded != [] && Ascending(excluded) && InRange(excluded, collected)
    requires excluded[|excluded| - 1].nodeid in out
    requires
      var init := excluded[..|excluded| - 1];
      Enumerates(Rebuild(collected, init), init, collected, out)
    ensures Enumerates(Rebuild(collected, excluded), excluded, collected, out)
  {
    var init, e := excluded[..|excluded| - 1], excluded[|excluded| - 1];
    assert excluded == init + [e];
    InsertExclusion(Rebuild(collected, init), init, collected, e, out);
  }

  lemma {:induction false} KeepAll<T>(s: seq<T>, out: set<T>)
    requires forall x :: x in s ==> x !in out
    ensures Without(s, out) == s
    decreases |s|
  {
    if s != [] {
      assert s[|s| - 1] in s;
      forall x | x in s[..|s| - 1] ensures x in s {}
      KeepAll(s[..|s| - 1], out);
      assert s == s[..|s| - 1] + [s[|s| - 1]];
    }
  }

  /** The parent's list conditions, as they are checked. */
  predicate Reconciles<T(==)>(excluded: seq<Exclusion<T>>, collected: seq<T>) {
    Ascending(excluded) && Fresh(excluded, collected) && SitsAt(Rebuild(collected, excluded), excluded)
  }

  /**
   The parent's checks hold exactly when the record and the collected list come from one raw
   collection; that collection is the rebuilt one and no other.
   */
  lemma ReconcilesIffRaw<T>(excluded: seq<Exclusion<T>>, collected: seq<T>)
    ensures Reconciles(excluded, collected) <==> IsRawFor(Rebuild(collected, excluded), excluded, collected)
    ensures forall raw :: IsRawFor(raw, excluded, collected) ==> raw == Rebuild(collected, excluded)
  {
    var out := Elements(Ids(excluded));
    forall raw | IsRawFor(raw, excluded, collected) ensures raw == Rebuild(collected, excluded) {
      RebuildRestores(raw, out);
    }
    if Reconciles(excluded, collected) {
      FoundMeansInRange(collected, excluded);
      forall k | 0 <= k < |excluded| ensures excluded[k].nodeid in out {
        assert Ids(excluded)[k] in Ids(excluded);
      }
      RebuildEnumerates(collected, excluded, out);
    }
    if IsRawFor(Rebuild(collected, excluded), excluded, collected) {
      ExclusionsShape(Rebuild(collected, excluded), out);
      SelectionMembers(Rebuild(collected, excluded), out);
      forall k | 0 <= k < |excluded| ensures excluded[k].nodeid !in collected {
        assert Ids(excluded)[k] in Ids(excluded);
      }
    }
  }

  /** The whole acceptance condition of the parent, with the raw list it rebuilds. */
  ghost predicate Accepts<T>(record: Record<T>, collected: seq<T>, required: Option<nat>, raw: seq<T>) {
    && 0 < |record.reason| <= 256
    && IsRawFor(raw, record.excluded, collected)
    && record.count == |record.excluded| && record.rawCount == |raw|
    && (required.Some? ==> |record.excluded| == required.value)
  }

  /** `validate_optional_population`: reinsert in a loop, then compare. */
  method ValidateOptionalPopulation<T(==)>(record: Record<T>, collected: seq<T>, required: Option<nat>)
    returns (ok: bool, raw: seq<T>)
    ensures raw == Rebuild(collected, record.excluded)
    ensures ok <==> Accepts(record, collected, required, raw)
  {
    raw := collected;
    for k := 0 to |record.excluded|
      invariant raw == Rebuild(collected, record.excluded[..k])
    {
      raw := PyInsert(raw, record.excluded[k].rawIndex, record.excluded[k].nodeid);
      assert record.excluded[..k + 1][..k] == record.excluded[..k];
    }
    assert record.excluded[..|record.excluded|] == record.excluded;
    ReconcilesIffRaw(record.excluded, collected);
    ok := && 0 < |record.reason| <= 256
          && Ascending(record.excluded)
          && Fresh(record.excluded, collected)
          && SitsAt(raw, record.excluded)
          && record.count == |record.excluded| && record.rawCount == |raw|
          && (required.Some? ==> |record.excluded| == required.value);
  }

  /**
   The child's rebase: keep of the whole collection what the collector saw plus the exclusions,
   refuse if that does not give back the collected list, then enumerate the exclusions.
   */
  function ChildRecord<T>(whole: seq<T>, out: set<T>, collected: seq<T>, count: int, reason: string)
    : Result<Record<T>, ()>
  {
    var raw := Within(whole, out + Elements(collected));
    if Without(raw, out) != collected then Failure(())
    else Success(Record(Exclusions(raw, out), count, |raw|, reason))
  }

  lemma {:induction false} SameExclusions<T>(raw: seq<T>, a: set<T>, b: set<T>)
    requires forall x :: x in raw ==> (x in a <==> x in b)
    ensures Exclusions(raw, a) == Exclusions(raw, b) && Without(raw, a) == Without(raw, b)
    decreases |raw|
  {
    if raw != [] {
      assert raw[|raw| - 1] in raw;
      forall x | x in raw[..|raw| - 1] ensures x in raw {}
      SameExclusions(raw[..|raw| - 1], a, b);
    }
  }

  /** A record the child writes makes the parent accept and rebuild the child's raw list exactly. */
  lemma ChildRecordRoundTrip<T>(whole: seq<T>, out: set<T>, collected: seq<T>, count: int, reason: string)
    requires Distinct(whole) && ChildRecord(whole, out, collected, count, reason).Success?
    requires 0 < |reason| <= 256
    ensures
      var raw := Within(whole, out + Elements(collected));
      var record := ChildRecord(whole, out, collected, count, reason).value;
      && Rebuild(collected, record.excluded) == raw
      && (Accepts(record, collected, None, raw) <==> count == |Within(whole, out)|)
  {
    var raw := Within(whole, out + Elements(collected));
    var ex := Exclusions(raw, out);
    RebuildRestores(raw, out);
    ExclusionIds(raw, out);
    SelectionMembers(raw, out);
    SelectionDistinct(whole, out + Elements(collected));
    SelectionDistinct(raw, out);
    SameExclusions(raw, out, Elements(Ids(ex)));
    WithinNested(whole, out, out + Elements(collected));
    assert |ex| == |Ids(ex)|;
  }

  lemma {:induction false} WithinNested<T>(s: seq<T>, inner: set<T>, outer: set<T>)
    requires inner <= outer
    ensures Within(Within(s, outer), inner) == Within(s, inner)
    decreases |s|
  {
    if s != [] {
      var r, x := s[..|s| - 1], s[|s| - 1];
      WithinNested(r, inner, outer);
      if x in outer {
        WithoutSnoc(Within(r, outer), x, inner);
      } else {
        assert Within(r, outer) + [] == Within(r, outer);
      }
    }
  }
}
