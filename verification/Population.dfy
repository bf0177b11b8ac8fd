/**
 The sealed population of tools/runner_integration_population.py and its discovery in
 tools/runner_staging_discovery.py: an order-preserving partition of the collected nodes
 that accounts for every raw node.
 */
module Population {
  import opened Wrappers
  import opened Sequences
  import opened OptionalPopulation

  type NodeId = string

  datatype PopulationError =
    | DuplicateNodes
    | EligibleMismatch
    | DeferredAbsent
    | DuplicateDeclarations
    | StaleDeclarations
    | UnknownParameterCases
    | EmptyMeasuredLeg
    | EmptyAbruptLeg
    | InvalidPartition
    | InvalidOptionalRecord
    | UnregisteredOptional

  datatype Partition = Partition(
    all: seq<NodeId>,
    measured: seq<NodeId>,
    abrupt: seq<NodeId>,
    deferred: seq<NodeId>,
    collected: seq<NodeId>)

  function FirstBracket(nodeid: NodeId, i: nat): nat
    requires i <= |nodeid|
    decreases |nodeid| - i
  {
    if i == |nodeid| || nodeid[i] == '[' then i else FirstBracket(nodeid, i + 1)
  }

  /** The node without its parameter case: `test[case]` and `test` share a base. */
  function BaseNodeId(nodeid: NodeId): (base: NodeId)
    ensures base <= nodeid
    ensures base < nodeid ==> nodeid[|base|] == '[' && nodeid[|nodeid| - 1] == ']'
    ensures nodeid != [] && nodeid[|nodeid| - 1] == ']' ==> '[' !in base
  {
    if nodeid != [] && nodeid[|nodeid| - 1] == ']' then
      FirstBracketFound(nodeid, 0);
      nodeid[..FirstBracket(nodeid, 0)]
    else nodeid
  }

  lemma {:induction false} FirstBracketFound(nodeid: NodeId, i: nat)
    requires i <= |nodeid|
    ensures i <= FirstBracket(nodeid, i) <= |nodeid|
    ensures forall k :: i <= k < FirstBracket(nodeid, i) ==> nodeid[k] != '['
    ensures FirstBracket(nodeid, i) < |nodeid| ==> nodeid[FirstBracket(nodeid, i)] == '['
    decreases |nodeid| - i
  {
    if i < |nodeid| && nodeid[i] != '[' {
      FirstBracketFound(nodeid, i + 1);
    }
  }

  /** `validate_partition` */
  predicate ValidPartition(p: Partition) {
    && Distinct(p.collected) && Distinct(p.deferred)
    && p.deferred == Within(p.collected, Elements(p.deferred))
    && p.all == Without(p.collected, Elements(p.deferred))
    && Distinct(p.all) && Distinct(p.measured) && Distinct(p.abrupt)
    && (forall x :: x in p.deferred ==> x in p.collected)
    && (forall x :: x in p.measured ==> x !in p.abrupt)
    && Elements(p.measured) + Elements(p.abrupt) == Elements(p.all)
    && p.measured == Within(p.all, Elements(p.measured))
    && p.abrupt == Within(p.all, Elements(p.abrupt))
  }

  predicate KnownCases(eligible: seq<NodeId>, declared: seq<NodeId>) {
    forall x, d :: x in eligible && d in declared && BaseNodeId(x) == BaseNodeId(d) ==> x in declared
  }

  predicate AllIn(some: seq<NodeId>, all: seq<NodeId>) {
    forall x :: x in some ==> x in all
  }

  function Sealed(collected: seq<NodeId>, deferred: seq<NodeId>, declared: seq<NodeId>): Partition {
    var eligible := Without(collected, Elements(deferred));
    Partition(eligible, Without(eligible, Elements(declared)), Within(eligible, Elements(declared)),
              deferred, collected)
  }

  /** `partition_population`, check by check; `canonical` is an unscoped int or staging run. */
  function PartitionPopulation(supplied: seq<NodeId>, raw: Option<seq<NodeId>>, deferred: seq<NodeId>,
                               declared: seq<NodeId>, scoped: bool, canonical: bool)
    : Result<Partition, PopulationError>
  {
    var collected := if raw.Some? then raw.value else supplied;
    var p := Sealed(collected, deferred, declared);
    if !Distinct(supplied) || !Distinct(deferred) || !Distinct(collected) then Failure(DuplicateNodes)
    else if raw.Some? && supplied != p.all then Failure(EligibleMismatch)
    else if !AllIn(deferred, collected) then Failure(DeferredAbsent)
    else if !Distinct(declared) then Failure(DuplicateDeclarations)
    else if !scoped && !AllIn(declared, p.all) then Failure(StaleDeclarations)
    else if !KnownCases(p.all, declared) then Failure(UnknownParameterCases)
    else if !scoped && canonical && p.measured == [] then Failure(EmptyMeasuredLeg)
    else if !scoped && canonical && p.abrupt == [] then Failure(EmptyAbruptLeg)
    else if !ValidPartition(p) then Failure(InvalidPartition)
    else Success(p)
  }

  /** A list divided in two: disjoint, complete and in order. */
  lemma LegsFit<T>(all: seq<T>, declared: set<T>)
    requires Distinct(all)
    ensures
      var measured, abrupt := Without(all, declared), Within(all, declared);
      && Distinct(measured) && Distinct(abrupt) && (forall x :: x in measured ==> x !in abrupt)
      && Elements(measured) + Elements(abrupt) == Elements(all)
      && measured == Within(all, Elements(measured)) && abrupt == Within(all, Elements(abrupt))
  {
    SelectionDistinct(all, declared);
    SelectionMembers(all, declared);
    WithinComplement(all, declared, Elements(Without(all, declared)));
    WithinSame(all, declared, Elements(Within(all, declared)));
  }

  /** Of the final re-validation only the order of the deferred list can still fail. */
  lemma SealedIsValid(collected: seq<NodeId>, deferred: seq<NodeId>, declared: seq<NodeId>)
    requires Distinct(collected) && Distinct(deferred)
    requires forall x :: x in deferred ==> x in collected
    ensures ValidPartition(Sealed(collected, deferred, declared)) <==>
            deferred == Within(collected, Elements(deferred))
  {
    SelectionDistinct(collected, Elements(deferred));
    LegsFit(Without(collected, Elements(deferred)), Elements(declared));
  }

  /** On a scoped run without declarations, distinct nodes are sealed exactly if the deferrals are in order. */
  lemma DeferredOrderDecides(collected: seq<NodeId>, deferred: seq<NodeId>)
    requires Distinct(collected) && Distinct(deferred) && forall x :: x in deferred ==> x in collected
    ensures
      var r := PartitionPopulation(Without(collected, Elements(deferred)), Some(collected), deferred, [], true, false);
      if deferred == Within(collected, Elements(deferred)) then r.Success? else r == Failure(InvalidPartition)
  {
    SelectionDistinct(collected, Elements(deferred));
    SealedIsValid(collected, deferred, []);
  }

  /** Deferrals out of collection order pass every earlier check and fail only the re-validation. */
  lemma DisorderedDeferral()
    ensures PartitionPopulation(["c"], Some(["a", "b", "c"]), ["b", "a"], [], true, false) == Failure(InvalidPartition)
  {
    var a, b, c: NodeId := "a", "b", "c";
    assert a[0] != b[0] && b[0] != c[0] && a[0] != c[0];
    assert Elements([b, a]) == {a, b};
    SplitTwo(a, b, c, {a, b});
    assert [a, b][0] != [b, a][0];
    DeferredOrderDecides([a, b, c], [b, a]);
  }

  lemma SplitTwo<T>(a: T, b: T, c: T, out: set<T>)
    requires a in out && b in out && c !in out
    ensures Within([a, b, c], out) == [a, b] && Without([a, b, c], out) == [c]
  {
    assert [a, b, c][..2] == [a, b] && [a, b][..1] == [a] && [a][..0] == [];
    assert Within([a], out) == [a] && Without([a], out) == [];
    assert Within([a, b], out) == [a, b] && Without([a, b], out) == [];
  }

  lemma {:induction false} WithinSame<T>(s: seq<T>, a: set<T>, b: set<T>)
    requires forall x :: x in s ==> (x in a <==> x in b)
    ensures Within(s, a) == Within(s, b)
    decreases |s|
  {
    if s != [] {
      assert s[|s| - 1] in s;
      forall x | x in s[..|s| - 1] ensures x in s {}
      WithinSame(s[..|s| - 1], a, b);
    }
  }

  /** Which nodes go where: deferred nodes to neither leg, declared ones to the abrupt leg, the rest to the measured. */
  ghost predicate Assigned(p: Partition, collected: seq<NodeId>, deferred: seq<NodeId>, declared: seq<NodeId>) {
    && p.collected == collected && p.deferred == deferred
    && (forall x :: x in p.all <==> x in collected && x !in deferred)
    && (forall x :: x in p.abrupt <==> x in collected && x !in deferred && x in declared)
    && (forall x :: x in p.measured <==> x in collected && x !in deferred && x !in declared)
  }

  lemma SealedAssigns(collected: seq<NodeId>, deferred: seq<NodeId>, declared: seq<NodeId>)
    ensures Assigned(Sealed(collected, deferred, declared), collected, deferred, declared)
  {
    SelectionMembers(collected, Elements(deferred));
    SelectionMembers(Without(collected, Elements(deferred)), Elements(declared));
  }

  ghost predicate NoneStale(collected: seq<NodeId>, deferred: seq<NodeId>, declared: seq<NodeId>) {
    forall d :: d in declared ==> d in collected && d !in deferred
  }

  ghost predicate NoStrayCase(collected: seq<NodeId>, deferred: seq<NodeId>, declared: seq<NodeId>) {
    forall x, d :: x in collected && x !in deferred && d in declared && BaseNodeId(x) == BaseNodeId(d) ==> x in declared
  }

  ghost predicate SomeMeasured(collected: seq<NodeId>, deferred: seq<NodeId>, declared: seq<NodeId>) {
    exists x :: x in collected && x !in deferred && x !in declared
  }

  ghost predicate SomeAbrupt(collected: seq<NodeId>, deferred: seq<NodeId>, declared: seq<NodeId>) {
    exists x :: x in collected && x !in deferred && x in declared
  }

  /**
   What a caller must supply: distinct nodes, ordered deferrals, live declarations, no undeclared case of
   a declared test, and a node for each leg where both are required.
   */
  ghost predicate Sealable(supplied: seq<NodeId>, raw: Option<seq<NodeId>>, deferred: seq<NodeId>,
                           declared: seq<NodeId>, scoped: bool, canonical: bool) {
    var collected := if raw.Some? then raw.value else supplied;
    && Distinct(collected) && Distinct(declared)
    && (raw.Some? ==> supplied == Without(raw.value, Elements(deferred)))
    && deferred == Within(collected, Elements(deferred))
    && (!scoped ==> NoneStale(collected, deferred, declared)) && NoStrayCase(collected, deferred, declared)
    && (!scoped && canonical ==> SomeMeasured(collected, deferred, declared) && SomeAbrupt(collected, deferred, declared))
  }

  /** The two quantified checks and the two legs, in terms of the nodes. */
  lemma ChecksMean(collected: seq<NodeId>, deferred: seq<NodeId>, declared: seq<NodeId>)
    ensures
      var p := Sealed(collected, deferred, declared);
      && (AllIn(declared, p.all) <==> NoneStale(collected, deferred, declared))
      && (KnownCases(p.all, declared) <==> NoStrayCase(collected, deferred, declared))
      && (p.measured != [] <==> SomeMeasured(collected, deferred, declared))
      && (p.abrupt != [] <==> SomeAbrupt(collected, deferred, declared))
  {
    var p := Sealed(collected, deferred, declared);
    SealedAssigns(collected, deferred, declared);
    assert p.measured != [] ==> p.measured[0] in p.measured;
    assert p.abrupt != [] ==> p.abrupt[0] in p.abrupt;
  }

  /** Distinct nodes and deferrals in collection order leave nothing else to fail. */
  lemma OrderedIsValid(collected: seq<NodeId>, deferred: seq<NodeId>, declared: seq<NodeId>)
    requires Distinct(collected)
    ensures deferred == Within(collected, Elements(deferred)) <==>
            && Distinct(deferred) && AllIn(deferred, collected)
            && ValidPartition(Sealed(collected, deferred, declared))
    ensures Distinct(Without(collected, Elements(deferred)))
  {
    SelectionDistinct(collected, Elements(deferred));
    SelectionMembers(collected, Elements(deferred));
    if Distinct(deferred) && AllIn(deferred, collected) {
      SealedIsValid(collected, deferred, declared);
    }
  }

  lemma SealedIffSealable(supplied: seq<NodeId>, raw: Option<seq<NodeId>>, deferred: seq<NodeId>,
                          declared: seq<NodeId>, scoped: bool, canonical: bool)
    ensures PartitionPopulation(supplied, raw, deferred, declared, scoped, canonical).Success? <==>
            Sealable(supplied, raw, deferred, declared, scoped, canonical)
  {
    var collected := if raw.Some? then raw.value else supplied;
    ChecksMean(collected, deferred, declared);
    if Distinct(collected) {
      OrderedIsValid(collected, deferred, declared);
    }
  }

  /** The population is sealed exactly for sealable inputs, and then every node is in the leg it was declared for. */
  lemma PartitionSuccess(supplied: seq<NodeId>, raw: Option<seq<NodeId>>, deferred: seq<NodeId>,
                         declared: seq<NodeId>, scoped: bool, canonical: bool)
    ensures
      var r := PartitionPopulation(supplied, raw, deferred, declared, scoped, canonical);
      && (r.Success? <==> Sealable(supplied, raw, deferred, declared, scoped, canonical))
      && (r.Success? ==> r.value == Sealed(r.value.collected, deferred, declared))
      && (r.Success? ==> Assigned(r.value, if raw.Some? then raw.value else supplied, deferred, declared))
  {
    SealedIffSealable(supplied, raw, deferred, declared, scoped, canonical);
    SealedAssigns(if raw.Some? then raw.value else supplied, deferred, declared);
  }

  /** A refusal names a rule that is broken, and every rule tested before it holds. */
  lemma PartitionRefusal(supplied: seq<NodeId>, raw: Option<seq<NodeId>>, deferred: seq<NodeId>,
                         declared: seq<NodeId>, scoped: bool, canonical: bool)
    ensures
      var r := PartitionPopulation(supplied, raw, deferred, declared, scoped, canonical);
      var collected := if raw.Some? then raw.value else supplied;
      var distinct := Distinct(supplied) && Distinct(deferred) && Distinct(collected);
      var eligible := raw.Some? ==> supplied == Without(raw.value, Elements(deferred));
      var present := forall x :: x in deferred ==> x in collected;
      var declaredOnce := Distinct(declared);
      var live := !scoped ==> NoneStale(collected, deferred, declared);
      var known := NoStrayCase(collected, deferred, declared);
      var measured := !scoped && canonical ==> SomeMeasured(collected, deferred, declared);
      var abrupt := !scoped && canonical ==> SomeAbrupt(collected, deferred, declared);
      && (r == Failure(DuplicateNodes) <==> !distinct)
      && (r == Failure(EligibleMismatch) <==> distinct && !eligible)
      && (r == Failure(DeferredAbsent) <==> distinct && eligible && !present)
      && (r == Failure(DuplicateDeclarations) <==> distinct && eligible && present && !declaredOnce)
      && (r == Failure(StaleDeclarations) <==> distinct && eligible && present && declaredOnce && !live)
      && (r == Failure(UnknownParameterCases) <==> distinct && eligible && present && declaredOnce && live && !known)
      && (r == Failure(EmptyMeasuredLeg) <==>
            distinct && eligible && present && declaredOnce && live && known && !measured)
      && (r == Failure(EmptyAbruptLeg) <==>
            distinct && eligible && present && declaredOnce && live && known && measured && !abrupt)
      && (r == Failure(InvalidPartition) <==>
            && distinct && eligible && present && declaredOnce && live && known && measured && abrupt
            && deferred != Within(collected, Elements(deferred)))
  {
    var collected := if raw.Some? then raw.value else supplied;
    ChecksMean(collected, deferred, declared);
    if Distinct(collected) {
      OrderedIsValid(collected, deferred, declared);
    }
  }

  /** Every raw node is in exactly one of the four lists, each in raw collection order. */
  ghost predicate Conserves(raw: seq<NodeId>, p: Partition, optional: seq<NodeId>) {
    && Distinct(raw)
    && multiset(raw) == multiset(p.measured) + multiset(p.abrupt) + multiset(p.deferred) + multiset(optional)
    && |raw| == |p.measured| + |p.abrupt| + |p.deferred| + |optional|
    && p.measured == Within(raw, Elements(p.measured))
    && p.abrupt == Within(raw, Elements(p.abrupt))
    && p.deferred == Within(raw, Elements(p.deferred))
    && optional == Within(raw, Elements(optional))
  }

  lemma {:induction false} WithoutTwice<T>(s: seq<T>, a: set<T>, b: set<T>)
    ensures Without(Without(s, a), b) == Without(s, a + b)
    decreases |s|
  {
    if s != [] {
      var r, x := s[..|s| - 1], s[|s| - 1];
      WithoutTwice(r, a, b);
      if x in a {
        assert Without(r, a) + [] == Without(r, a);
      } else {
        WithoutSnoc(Without(r, a), x, b);
      }
    }
  }

  lemma MultisetDistinct<T>(s: seq<T>)
    ensures Distinct(s) <==> forall x :: multiset(s)[x] <= 1
  {
    if Distinct(s) {
      forall x ensures multiset(s)[x] <= 1 {
        OccursOnce(s, x);
      }
    } else {
      var i, j :| 0 <= i < j < |s| && s[i] == s[j];
      assert s == s[..i] + [s[i]] + s[i + 1..j] + [s[j]] + s[j + 1..];
      assert multiset(s)[s[i]] >= 2;
    }
  }

  lemma {:induction false} OccursOnce<T>(s: seq<T>, x: T)
    requires Distinct(s)
    ensures multiset(s)[x] <= 1
    decreases |s|
  {
    if s != [] {
      var r := s[..|s| - 1];
      assert s == r + [s[|s| - 1]];
      OccursOnce(r, x);
      if x == s[|s| - 1] {
        assert x !in r;
      }
    }
  }

  /** The raw list an accepted optional record rebuilds is the disjoint union of the four lists. */
  lemma PartitionConserves(p: Partition, excluded: seq<Exclusion<NodeId>>, raw: seq<NodeId>, declared: seq<NodeId>)
    requires p == Sealed(p.collected, p.deferred, declared) && ValidPartition(p)
    requires IsRawFor(raw, excluded, p.collected)
    ensures Conserves(raw, p, Ids(excluded))
  {
    var ids := Elements(Ids(excluded));
    ExclusionIds(raw, ids);
    SplitConserves(raw, ids);
    SplitConserves(p.collected, Elements(p.deferred));
    SplitConserves(p.all, Elements(declared));
    RawDistinct(raw, ids, p.collected);
    OrderOfParts(p, raw, ids, declared);
  }

  lemma RawDistinct(raw: seq<NodeId>, ids: set<NodeId>, collected: seq<NodeId>)
    requires Distinct(collected) && Distinct(Within(raw, ids)) && collected == Without(raw, ids)
    ensures Distinct(raw)
  {
    SplitConserves(raw, ids);
    SelectionMembers(raw, ids);
    MultisetDistinct(raw);
    MultisetDistinct(collected);
    MultisetDistinct(Within(raw, ids));
    forall x ensures multiset(raw)[x] <= 1 {
      assert x in collected ==> x !in Within(raw, ids);
    }
  }

  lemma OrderOfParts(p: Partition, raw: seq<NodeId>, ids: set<NodeId>, declared: seq<NodeId>)
    requires p == Sealed(p.collected, p.deferred, declared) && ValidPartition(p)
    requires p.collected == Without(raw, ids)
    ensures p.measured == Within(raw, Elements(p.measured))
    ensures p.abrupt == Within(raw, Elements(p.abrupt))
    ensures p.deferred == Within(raw, Elements(p.deferred))
  {
    var d := Elements(p.deferred);
    SelectionMembers(raw, ids);
    WithinWithin(raw, d, ids, d);
    WithoutTwice(raw, ids, d);
    SelectionMembers(raw, ids + d);
    SelectionMembers(p.all, Elements(declared));
    WithinWithin(raw, Elements(declared), ids + d, Elements(p.abrupt));
    WithoutTwice(raw, ids + d, Elements(declared));
    WithinComplement(raw, ids + d + Elements(declared), Elements(p.measured));
  }

  // ----- one accepted discovery

  datatype Receipt = Receipt(
    collected: seq<NodeId>, eligible: seq<NodeId>, deferred: seq<NodeId>, optional: Record<NodeId>)

  const OPTIONAL_REASON: string := "optional D12 core-image owner runs only under --d12-core-image-profile"

  predicate RegisteredOptional(record: Record<NodeId>, scoped: bool, registered: seq<NodeId>) {
    && record.reason == OPTIONAL_REASON
    && (forall x :: x in Ids(record.excluded) ==> x in registered)
    && (!scoped ==> Ids(record.excluded) == registered)
  }

  /** What a discovery must be: a record some raw collection gives, a sealable population, registered exclusions. */
  ghost predicate Acceptable(receipt: Receipt, declared: seq<NodeId>, registered: seq<NodeId>, scoped: bool,
                             canonical: bool) {
    && (exists raw :: Accepts(receipt.optional, receipt.collected, None, raw))
    && Sealable(receipt.eligible, Some(receipt.collected), receipt.deferred, declared, scoped, canonical)
    && receipt.optional.reason == OPTIONAL_REASON
    && (forall e :: e in receipt.optional.excluded ==> e.nodeid in registered)
    && (!scoped ==> Ids(receipt.optional.excluded) == registered)
  }

  lemma RegisteredMeans(record: Record<NodeId>, scoped: bool, registered: seq<NodeId>)
    ensures RegisteredOptional(record, scoped, registered) <==>
            && record.reason == OPTIONAL_REASON && (forall e :: e in record.excluded ==> e.nodeid in registered)
            && (!scoped ==> Ids(record.excluded) == registered)
  {
    assert forall i :: 0 <= i < |record.excluded| ==> Ids(record.excluded)[i] == record.excluded[i].nodeid;
    forall e | e in record.excluded ensures e.nodeid in Ids(record.excluded) {
      var i :| 0 <= i < |record.excluded| && record.excluded[i] == e;
      assert Ids(record.excluded)[i] == e.nodeid;
    }
  }

  /** Which errors the partition of a receipt can give. */
  lemma PartitionErrors(eligible: seq<NodeId>, collected: seq<NodeId>, deferred: seq<NodeId>,
                        declared: seq<NodeId>, scoped: bool, canonical: bool)
    ensures
      var r := PartitionPopulation(eligible, Some(collected), deferred, declared, scoped, canonical);
      && (r == Failure(DuplicateNodes) <==> !(Distinct(collected) && Distinct(eligible) && Distinct(deferred)))
      && r != Failure(InvalidOptionalRecord) && r != Failure(UnregisteredOptional)
      && (r.Success? ==>
            && r.value.collected == collected && r.value.deferred == deferred
            && r.value == Sealed(collected, deferred, declared) && ValidPartition(r.value))
  {
  }

  /** A record is accepted with the list it rebuilds or not at all. */
  lemma OnlyTheRebuilt(record: Record<NodeId>, collected: seq<NodeId>)
    ensures forall raw :: Accepts(record, collected, None, raw) ==> raw == Rebuild(collected, record.excluded)
  {
    forall raw | Accepts(record, collected, None, raw) ensures raw == Rebuild(collected, record.excluded) {
      RebuildRestores(raw, Elements(Ids(record.excluded)));
    }
  }

  lemma DiscoveryConserves(receipt: Receipt, p: Partition, raw: seq<NodeId>, declared: seq<NodeId>)
    requires p == Sealed(receipt.collected, receipt.deferred, declared) && ValidPartition(p)
    requires Accepts(receipt.optional, receipt.collected, None, raw)
    ensures Conserves(raw, p, Ids(receipt.optional.excluded))
    ensures receipt.optional.rawCount ==
            |p.measured| + |p.abrupt| + |p.deferred| + |receipt.optional.excluded|
  {
    PartitionConserves(p, receipt.optional.excluded, raw, declared);
    assert |Ids(receipt.optional.excluded)| == |receipt.optional.excluded|;
  }

  /** Receipt checks, partition and registration, as discovery composes them. */
  method AcceptDiscovery(receipt: Receipt, declared: seq<NodeId>, registered: seq<NodeId>, scoped: bool, canonical: bool)
    returns (r: Result<Partition, PopulationError>, raw: seq<NodeId>)
    ensures r.Success? <==> Acceptable(receipt, declared, registered, scoped, canonical)
    ensures r.Success? ==>
      && r == PartitionPopulation(receipt.eligible, Some(receipt.collected), receipt.deferred, declared, scoped, canonical)
      && Accepts(receipt.optional, receipt.collected, None, raw)
      && Conserves(raw, r.value, Ids(receipt.optional.excluded))
      && Assigned(r.value, receipt.collected, receipt.deferred, declared)
      && receipt.optional.rawCount ==
           |r.value.measured| + |r.value.abrupt| + |r.value.deferred| + |receipt.optional.excluded|
      && (!scoped ==> Ids(receipt.optional.excluded) == registered)
    ensures
      var distinct := Distinct(receipt.collected) && Distinct(receipt.eligible) && Distinct(receipt.deferred);
      var recorded := exists whole :: Accepts(receipt.optional, receipt.collected, None, whole);
      var sealed := PartitionPopulation(receipt.eligible, Some(receipt.collected), receipt.deferred, declared, scoped, canonical);
      && (r == Failure(DuplicateNodes) <==> !distinct)
      && (r == Failure(InvalidOptionalRecord) <==> distinct && !recorded)
      && (r == Failure(UnregisteredOptional) <==>
            distinct && recorded && sealed.Success? && !Acceptable(receipt, declared, registered, scoped, canonical))
      && (distinct && recorded && sealed.Failure? ==> r == sealed)
  {
    PartitionErrors(receipt.eligible, receipt.collected, receipt.deferred, declared, scoped, canonical);
    PartitionSuccess(receipt.eligible, Some(receipt.collected), receipt.deferred, declared, scoped, canonical);
    var ok;
    ok, raw := ValidateOptionalPopulation(receipt.optional, receipt.collected, None);
    if !Distinct(receipt.collected) || !Distinct(receipt.eligible) || !Distinct(receipt.deferred) {
      return Failure(DuplicateNodes), raw;
    }
    if !ok {
      OnlyTheRebuilt(receipt.optional, receipt.collected);
      return Failure(InvalidOptionalRecord), raw;
    }
    r := PartitionPopulation(receipt.eligible, Some(receipt.collected), receipt.deferred, declared, scoped, canonical);
    if r.Failure? {
      return;
    }
    RegisteredMeans(receipt.optional, scoped, registered);
    if !RegisteredOptional(receipt.optional, scoped, registered) {
      return Failure(UnregisteredOptional), raw;
    }
    DiscoveryConserves(receipt, r.value, raw, declared);
  }
}
