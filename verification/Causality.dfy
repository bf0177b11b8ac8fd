/**
 The failure causality ledger (tools/actual_refresh_failure_causality.py). The key index is an
 insertion-ordered dictionary, kept here as a sequence; the exception index holds copies of the
 same candidates. `Ledger` and its functions say what each call does; the class does it.
 */
module Causality {
  import opened Wrappers
  import opened Decimals

  datatype Request = Request(code: string, owner: string, boundary: string, beforeRelease: bool,
                             injected: bool, secondary: bool)

  datatype Candidate = Candidate(request: Request, causal: nat, observation: Option<nat>, clock: int, key: string)

  datatype Error = InvalidText | Conflict | Frozen | InvalidClock | Unknown

  datatype Ledger = Ledger(entries: seq<Candidate>, nextCausal: nat, nextObservation: nat,
                           byError: map<nat, Candidate>, snapshot: Option<seq<Candidate>>)

  datatype Outcome = Outcome(ledger: Ledger, result: Result<Candidate, Error>)

  const EMPTY := Ledger([], 1, 1, map[], None)

  predicate Bounded(text: string) {
    0 < |text| <= 128
  }

  predicate WellFormed(codes: set<string>, r: Request) {
    r.code in codes && Bounded(r.owner) && Bounded(r.boundary)
  }

  /** The position of a key, or the number of entries when it is absent. */
  function Find(entries: seq<Candidate>, key: string): (i: nat)
    ensures i <= |entries|
    ensures i < |entries| ==> entries[i].key == key
    ensures forall j :: 0 <= j < i ==> entries[j].key != key
  {
    if entries == [] then 0 else if entries[0].key == key then 0 else 1 + Find(entries[1..], key)
  }

  function AutoKey(n: nat): string {
    "source-" + Decimal(n)
  }

  function KeyFor(l: Ledger, key: string): string {
    if key != "" then key else AutoKey(l.nextCausal)
  }

  function RecordCode(l: Ledger, codes: set<string>, r: Request, key: string, clock: int): Outcome {
    if !WellFormed(codes, r) then Outcome(l, Failure(InvalidText))
    else if l.snapshot.Some? then Outcome(l, Failure(Frozen))
    else
      var k := KeyFor(l, key);
      var i := Find(l.entries, k);
      if i < |l.entries| then
        Outcome(l, if l.entries[i].request == r then Success(l.entries[i]) else Failure(Conflict))
      else if clock < 0 then Outcome(l, Failure(InvalidClock))
      else if !Bounded(k) then Outcome(l, Failure(InvalidText))
      else
        var c := Candidate(r, l.nextCausal, None, clock, k);
        Outcome(l.(entries := l.entries + [c], nextCausal := l.nextCausal + 1), Success(c))
  }

  function RecordException(l: Ledger, codes: set<string>, error: nat, r: Request, clock: int): Outcome {
    if error in l.byError then
      Outcome(l, if r.code !in codes then Failure(InvalidText)
                 else if l.byError[error].request == r then Success(l.byError[error]) else Failure(Conflict))
    else
      var o := RecordCode(l, codes, r, "", clock);
      if o.result.Failure? then o
      else Outcome(o.ledger.(byError := o.ledger.byError[error := o.result.value]), o.result)
  }

  function Rebind(byError: map<nat, Candidate>, observed: Candidate): map<nat, Candidate> {
    map e | e in byError :: if byError[e].key == observed.key then observed else byError[e]
  }

  function Observe(l: Ledger, c: Candidate): Outcome {
    var i := Find(l.entries, c.key);
    if i == |l.entries| || l.entries[i].causal != c.causal then Outcome(l, Failure(Unknown))
    else if l.entries[i].observation.Some? then Outcome(l, Success(l.entries[i]))
    else if l.snapshot.Some? then Outcome(l, Failure(Frozen))
    else
      var observed := l.entries[i].(observation := Some(l.nextObservation));
      Outcome(l.(entries := l.entries[i := observed], nextObservation := l.nextObservation + 1,
                 byError := Rebind(l.byError, observed)), Success(observed))
  }

  function Freeze(l: Ledger): Ledger {
    if l.snapshot.None? then l.(snapshot := Some(l.entries)) else l
  }

  class FailureCausalityAuthority {
    const codes: set<string>
    var entries: seq<Candidate>
    var nextCausal: nat
    var nextObservation: nat
    var byError: map<nat, Candidate>
    var snapshot: Option<seq<Candidate>>

    function View(): Ledger
      reads this
    {
      Ledger(entries, nextCausal, nextObservation, byError, snapshot)
    }

    constructor (codes: set<string>)
      ensures this.codes == codes && View() == EMPTY
    {
      this.codes := codes;
      entries, nextCausal, nextObservation, byError, snapshot := [], 1, 1, map[], None;
    }

    method RecordSource(r: Request, key: string, clock: int) returns (result: Result<Candidate, Error>)
      modifies this
      ensures Outcome(View(), result) == RecordCode(old(View()), codes, r, key, clock)
    {
      if !WellFormed(codes, r) {
        return Failure(InvalidText);
      }
      if snapshot.Some? {
        return Failure(Frozen);
      }
      var k := if key != "" then key else AutoKey(nextCausal);
      var i := Find(entries, k);
      if i < |entries| {
        return if entries[i].request == r then Success(entries[i]) else Failure(Conflict);
      }
      if clock < 0 {
        return Failure(InvalidClock);
      }
      if !Bounded(k) {
        return Failure(InvalidText);
      }
      var candidate := Candidate(r, nextCausal, None, clock, k);
      nextCausal := nextCausal + 1;
      entries := entries + [candidate];
      return Success(candidate);
    }

    method BindException(error: nat, r: Request, clock: int) returns (result: Result<Candidate, Error>)
      modifies this
      ensures Outcome(View(), result) == RecordException(old(View()), codes, error, r, clock)
    {
      if error in byError {
        if r.code !in codes {
          return Failure(InvalidText);
        }
        return if byError[error].request == r then Success(byError[error]) else Failure(Conflict);
      }
      result := RecordSource(r, "", clock);
      if result.Success? {
        byError := byError[error := result.value];
      }
    }

    method ObserveCandidate(c: Candidate) returns (result: Result<Candidate, Error>)
      modifies this
      ensures Outcome(View(), result) == Observe(old(View()), c)
    {
      var i := Find(entries, c.key);
      if i == |entries| || entries[i].causal != c.causal {
        return Failure(Unknown);
      }
      if entries[i].observation.Some? {
        return Success(entries[i]);
      }
      if snapshot.Some? {
        return Failure(Frozen);
      }
      var observed := entries[i].(observation := Some(nextObservation));
      nextObservation := nextObservation + 1;
      entries := entries[i := observed];
      var todo := byError.Keys;
      while todo != {}
        invariant todo <= old(byError).Keys && byError.Keys == old(byError).Keys
        invariant entries == old(entries)[i := observed] && snapshot == old(snapshot)
        invariant nextCausal == old(nextCausal) && nextObservation == old(nextObservation) + 1
        invariant forall e :: e in todo ==> byError[e] == old(byError)[e]
        invariant forall e :: e in byError && e !in todo ==> byError[e] == Rebind(old(byError), observed)[e]
        decreases |todo|
      {
        var e :| e in todo;
        if byError[e].key == observed.key {
          byError := byError[e := observed];
        }
        todo := todo - {e};
      }
      assert byError == Rebind(old(byError), observed);
      return Success(observed);
    }

    method FreezeSnapshot() returns (s: seq<Candidate>)
      modifies this`snapshot
      ensures View() == Freeze(old(View())) && snapshot == Some(s)
    {
      if snapshot.None? {
        snapshot := Some(entries);
      }
      return snapshot.value;
    }
  }

  // ----- runs

  datatype Action =
    | Records(r: Request, key: string, clock: int)
    | Binds(error: nat, r: Request, clock: int)
    | Observes(c: Candidate)
    | ObservesError(error: nat)
    | Freezes

  function Apply(l: Ledger, codes: set<string>, a: Action): Ledger {
    match a
    case Records(r, key, clock) => RecordCode(l, codes, r, key, clock).ledger
    case Binds(error, r, clock) => RecordException(l, codes, error, r, clock).ledger
    case Observes(c) => Observe(l, c).ledger
    case ObservesError(error) => if error in l.byError then Observe(l, l.byError[error]).ledger else l
    case Freezes => Freeze(l)
  }

  function Exec(l: Ledger, codes: set<string>, actions: seq<Action>): Ledger
    decreases |actions|
  {
    if actions == [] then l else Exec(Apply(l, codes, actions[0]), codes, actions[1..])
  }

  /** Causal numbers are the positions; keys are distinct. */
  ghost predicate Ordered(entries: seq<Candidate>, nextCausal: nat) {
    && nextCausal == |entries| + 1
    && (forall i :: 0 <= i < |entries| ==> entries[i].causal == i + 1)
    && (forall i, j :: 0 <= i < j < |entries| ==> entries[i].key != entries[j].key)
  }

  ghost predicate HoldsNumber(entries: seq<Candidate>, i: nat, n: nat) {
    i < |entries| && entries[i].observation == Some(n)
  }

  ghost predicate Given(entries: seq<Candidate>, n: nat) {
    exists i: nat :: HoldsNumber(entries, i, n)
  }

  /** Each observation number below the next belongs to exactly one entry, and no other number is used. */
  ghost predicate Gapless(entries: seq<Candidate>, next: nat) {
    && next >= 1
    && (forall n: nat :: 1 <= n < next ==> Given(entries, n))
    && (forall i: nat, n: nat :: HoldsNumber(entries, i, n) ==> 1 <= n < next)
    && (forall i: nat, j: nat, n: nat :: HoldsNumber(entries, i, n) && HoldsNumber(entries, j, n) ==> i == j)
  }

  /** A candidate is the entry of its causal number. */
  ghost predicate Held(entries: seq<Candidate>, c: Candidate) {
    1 <= c.causal <= |entries| && entries[c.causal - 1] == c
  }

  /** The exception index agrees with the key index. */
  ghost predicate IndexAgrees(entries: seq<Candidate>, byError: map<nat, Candidate>) {
    forall e :: e in byError ==> Held(entries, byError[e])
  }

  ghost predicate Inv(l: Ledger) {
    && Ordered(l.entries, l.nextCausal) && Gapless(l.entries, l.nextObservation)
    && IndexAgrees(l.entries, l.byError)
    && (l.snapshot.Some? ==> l.snapshot.value == l.entries)
  }

  lemma AppendGapless(entries: seq<Candidate>, next: nat, c: Candidate)
    requires Gapless(entries, next) && c.observation.None?
    ensures Gapless(entries + [c], next)
  {
    forall i: nat, n: nat ensures HoldsNumber(entries + [c], i, n) <==> HoldsNumber(entries, i, n) {
    }
    forall n: nat | 1 <= n < next ensures Given(entries + [c], n) {
      assert Given(entries, n);
      var i: nat :| HoldsNumber(entries, i, n);
      assert HoldsNumber(entries + [c], i, n);
    }
  }

  lemma ObserveGapless(entries: seq<Candidate>, next: nat, k: nat)
    requires Gapless(entries, next) && k < |entries| && entries[k].observation.None?
    ensures Gapless(entries[k := entries[k].(observation := Some(next))], next + 1)
  {
    var t := entries[k := entries[k].(observation := Some(next))];
    forall i: nat, n: nat
      ensures HoldsNumber(t, i, n) <==> HoldsNumber(entries, i, n) || (i == k && n == next)
    {
    }
    forall n: nat | 1 <= n < next + 1 ensures Given(t, n) {
      if n < next {
        assert Given(entries, n);
        var i: nat :| HoldsNumber(entries, i, n);
        assert HoldsNumber(t, i, n);
      } else {
        assert HoldsNumber(t, k, n);
      }
    }
  }

  lemma RebindAgrees(entries: seq<Candidate>, nextCausal: nat, byError: map<nat, Candidate>, k: nat, observed: Candidate)
    requires Ordered(entries, nextCausal) && IndexAgrees(entries, byError) && k < |entries|
    requires observed.key == entries[k].key && observed.causal == entries[k].causal
    ensures IndexAgrees(entries[k := observed], Rebind(byError, observed))
  {
    forall e | e in byError ensures Held(entries[k := observed], Rebind(byError, observed)[e]) {
      assert Held(entries, byError[e]);
    }
  }

  lemma ObserveKeepsInv(l: Ledger, c: Candidate)
    requires Inv(l)
    ensures Inv(Observe(l, c).ledger)
  {
    var o := Observe(l, c);
    if o.ledger != l {
      var k := Find(l.entries, c.key);
      ObserveGapless(l.entries, l.nextObservation, k);
      RebindAgrees(l.entries, l.nextCausal, l.byError, k, o.result.value);
    }
  }

  lemma RecordKeepsInv(l: Ledger, codes: set<string>, r: Request, key: string, clock: int)
    requires Inv(l)
    ensures Inv(RecordCode(l, codes, r, key, clock).ledger)
    ensures
      var o := RecordCode(l, codes, r, key, clock);
      o.result.Success? ==> Held(o.ledger.entries, o.result.value)
  {
    var o := RecordCode(l, codes, r, key, clock);
    if o.ledger != l {
      AppendGapless(l.entries, l.nextObservation, o.result.value);
      forall e | e in l.byError ensures Held(o.ledger.entries, l.byError[e]) {
        assert Held(l.entries, l.byError[e]);
      }
    }
  }

  lemma StepKeepsInv(l: Ledger, codes: set<string>, a: Action)
    requires Inv(l)
    ensures Inv(Apply(l, codes, a))
  {
    match a
    case Records(r, key, clock) => RecordKeepsInv(l, codes, r, key, clock);
    case Binds(error, r, clock) => RecordKeepsInv(l, codes, r, "", clock);
    case Observes(c) => ObserveKeepsInv(l, c);
    case ObservesError(error) =>
      if error in l.byError {
        ObserveKeepsInv(l, l.byError[error]);
      }
    case Freezes =>
  }

  /** Every run keeps causal order, gapless observation numbers, agreeing indexes and the frozen snapshot. */
  lemma {:induction false} RunKeepsInv(l: Ledger, codes: set<string>, actions: seq<Action>)
    requires Inv(l)
    ensures Inv(Exec(l, codes, actions))
    decreases |actions|
  {
    if actions != [] {
      StepKeepsInv(l, codes, actions[0]);
      RunKeepsInv(Apply(l, codes, actions[0]), codes, actions[1..]);
    }
  }

  /** A call that fails leaves the whole ledger as it was. */
  lemma FailuresChangeNothing(l: Ledger, codes: set<string>, r: Request, key: string, clock: int, error: nat, c: Candidate)
    ensures RecordCode(l, codes, r, key, clock).result.Failure? ==> RecordCode(l, codes, r, key, clock).ledger == l
    ensures RecordException(l, codes, error, r, clock).result.Failure? ==>
              RecordException(l, codes, error, r, clock).ledger == l
    ensures Observe(l, c).result.Failure? ==> Observe(l, c).ledger == l
  {
  }

  /** After a freeze nothing changes again, and the entries are the snapshot. */
  lemma {:induction false} FrozenForever(l: Ledger, codes: set<string>, actions: seq<Action>)
    requires l.snapshot.Some?
    ensures Exec(l, codes, actions) == l
    decreases |actions|
  {
    if actions != [] {
      assert Apply(l, codes, actions[0]) == l;
      FrozenForever(l, codes, actions[1..]);
    }
  }

  /** A later state of an entry: the same candidate, with an observation number that once given stays. */
  ghost predicate Continues(l: Ledger, t: Ledger) {
    && |l.entries| <= |t.entries|
    && (forall i :: 0 <= i < |l.entries| ==>
          && t.entries[i].(observation := None) == l.entries[i].(observation := None)
          && (l.entries[i].observation.Some? ==> t.entries[i] == l.entries[i]))
  }

  lemma StepContinues(l: Ledger, codes: set<string>, a: Action)
    ensures Continues(l, Apply(l, codes, a))
  {
  }

  /** No run reorders, alters or drops an entry, or reassigns an observation number. */
  lemma {:induction false} RunContinues(l: Ledger, codes: set<string>, actions: seq<Action>)
    ensures Continues(l, Exec(l, codes, actions))
    decreases |actions|
  {
    if actions != [] {
      StepContinues(l, codes, actions[0]);
      RunContinues(Apply(l, codes, actions[0]), codes, actions[1..]);
    }
  }

  // ----- what each call answers

  /** A request the ledger may take: a known code, and an owner and a boundary of 1 to 128 characters. */
  ghost predicate Admissible(codes: set<string>, r: Request) {
    r.code in codes && r.owner != "" && |r.owner| <= 128 && r.boundary != "" && |r.boundary| <= 128
  }

  /** The key of a record: the one named, or `source-` and the next causal number. */
  ghost predicate NamedOrNext(l: Ledger, key: string, k: string) {
    if key == "" then k == "source-" + Decimal(|l.entries| + 1) else k == key
  }

  /**
   Recording: an entry with the key answers if it was made by the same request, and any other is a
   conflict; without one a new entry is appended under the next causal number, unobserved.
   */
  lemma RecordAnswers(l: Ledger, codes: set<string>, r: Request, key: string, clock: int, k: string)
    requires Inv(l) && NamedOrNext(l, key, k)
    ensures
      var o := RecordCode(l, codes, r, key, clock);
      && (!Admissible(codes, r) ==> o == Outcome(l, Failure(InvalidText)))
      && (Admissible(codes, r) && l.snapshot.Some? ==> o == Outcome(l, Failure(Frozen)))
      && (Admissible(codes, r) && l.snapshot.None? ==>
            && (forall j :: 0 <= j < |l.entries| && l.entries[j].key == k ==>
                  && o.ledger == l
                  && o.result == if l.entries[j].request == r then Success(l.entries[j]) else Failure(Conflict))
            && ((forall j :: 0 <= j < |l.entries| ==> l.entries[j].key != k) ==>
                  if clock < 0 then o == Outcome(l, Failure(InvalidClock))
                  else if k == "" || |k| > 128 then o == Outcome(l, Failure(InvalidText))
                  else
                    var c := Candidate(r, |l.entries| + 1, None, clock, k);
                    o.result == Success(c) && o.ledger == l.(entries := l.entries + [c], nextCausal := |l.entries| + 2)))
  {
    var i := Find(l.entries, k);
  }

  /** Binding: an exception bound before is answered from its binding, a new one is recorded under the next key. */
  lemma BindAnswers(l: Ledger, codes: set<string>, error: nat, r: Request, clock: int)
    ensures
      var o := RecordException(l, codes, error, r, clock);
      && (error in l.byError ==> o.ledger == l)
      && (error in l.byError ==>
            o.result == if r.code !in codes then Failure(InvalidText)
                        else if l.byError[error].request == r then Success(l.byError[error])
                        else Failure(Conflict))
      && (error !in l.byError ==> o.result == RecordCode(l, codes, r, "", clock).result)
      && (error !in l.byError && o.result.Success? ==>
            && o.ledger.byError == l.byError[error := o.result.value]
            && o.ledger.(byError := l.byError) == RecordCode(l, codes, r, "", clock).ledger)
  {
  }

  /** Observing: only an entry with this key and number is known; the first observation takes the next number. */
  lemma ObserveAnswers(l: Ledger, c: Candidate)
    requires Inv(l)
    ensures
      var o := Observe(l, c);
      && (o.result == Failure(Unknown) <==>
            forall i :: 0 <= i < |l.entries| ==> !(l.entries[i].key == c.key && l.entries[i].causal == c.causal))
      && (forall i :: 0 <= i < |l.entries| && l.entries[i].key == c.key && l.entries[i].causal == c.causal ==>
            if l.entries[i].observation.Some? then o.ledger == l && o.result == Success(l.entries[i])
            else if l.snapshot.Some? then o.ledger == l && o.result == Failure(Frozen)
            else
              && o.result == Success(l.entries[i].(observation := Some(l.nextObservation)))
              && o.ledger.entries == l.entries[i := o.result.value]
              && o.ledger.nextObservation == l.nextObservation + 1 && o.ledger.nextCausal == l.nextCausal)
  {
    var j := Find(l.entries, c.key);
    forall i | 0 <= i < |l.entries| && l.entries[i].key == c.key ensures i == j {
    }
  }

  // ----- bindings and observations over runs

  /** The same candidate: its number, request, clock and key, and its observation once made. */
  ghost predicate SameCandidate(c: Candidate, d: Candidate) {
    d.(observation := None) == c.(observation := None) && (c.observation.Some? ==> d == c)
  }

  /** Two candidates with one number, one in a ledger and one in a continuation of it. */
  lemma SameEntry(l: Ledger, t: Ledger, c: Candidate, d: Candidate)
    requires Continues(l, t) && Held(l.entries, c) && Held(t.entries, d) && c.causal == d.causal
    ensures SameCandidate(c, d)
  {
  }

  lemma BoundStep(l: Ledger, codes: set<string>, a: Action, error: nat)
    requires Inv(l) && error in l.byError
    ensures error in Apply(l, codes, a).byError
    ensures SameCandidate(l.byError[error], Apply(l, codes, a).byError[error])
  {
    var t := Apply(l, codes, a);
    StepKeepsInv(l, codes, a);
    StepContinues(l, codes, a);
    BoundKeepsNumber(l, codes, a, error);
    SameEntry(l, t, l.byError[error], t.byError[error]);
  }

  lemma BoundKeepsNumber(l: Ledger, codes: set<string>, a: Action, error: nat)
    requires Inv(l) && error in l.byError
    ensures
      var t := Apply(l, codes, a);
      error in t.byError && t.byError[error].causal == l.byError[error].causal
  {
    assert Held(l.entries, l.byError[error]);
  }

  /** A bound exception keeps its candidate through every run. */
  lemma {:induction false} BindingStands(l: Ledger, codes: set<string>, actions: seq<Action>, error: nat)
    requires Inv(l) && error in l.byError
    ensures error in Exec(l, codes, actions).byError
    ensures SameCandidate(l.byError[error], Exec(l, codes, actions).byError[error])
    decreases |actions|
  {
    if actions != [] {
      StepKeepsInv(l, codes, actions[0]);
      BoundStep(l, codes, actions[0], error);
      BindingStands(Apply(l, codes, actions[0]), codes, actions[1..], error);
    }
  }

  /** An entry observed later has a number that was not yet given: observation numbers follow the order of observing. */
  lemma {:induction false} LaterNumbersLarger(l: Ledger, codes: set<string>, actions: seq<Action>, i: nat)
    requires Inv(l) && i < |Exec(l, codes, actions).entries|
    requires i < |l.entries| ==> l.entries[i].observation.None?
    ensures
      var t := Exec(l, codes, actions);
      t.entries[i].observation.Some? ==> l.nextObservation <= t.entries[i].observation.value < t.nextObservation
    decreases |actions|
  {
    if actions != [] {
      var t := Apply(l, codes, actions[0]);
      StepKeepsInv(l, codes, actions[0]);
      StepNumbers(l, codes, actions[0]);
      if i < |t.entries| && t.entries[i].observation.Some? {
        RunContinues(t, codes, actions[1..]);
        RunKeepsInv(t, codes, actions[1..]);
        assert HoldsNumber(Exec(t, codes, actions[1..]).entries, i, t.entries[i].observation.value);
      } else {
        LaterNumbersLarger(t, codes, actions[1..], i);
      }
    }
  }

  /** A step gives at most the next number, and counts it. */
  lemma StepNumbers(l: Ledger, codes: set<string>, a: Action)
    ensures
      var t := Apply(l, codes, a);
      && l.nextObservation <= t.nextObservation
      && (forall i :: 0 <= i < |t.entries| && t.entries[i].observation.Some? ==>
            || t.entries[i].observation.value == l.nextObservation
            || (i < |l.entries| && l.entries[i].observation.Some?))
  {
  }

  // ----- fresh causal numbers

  ghost predicate Taken(l: Ledger, key: string) {
    exists i :: 0 <= i < |l.entries| && l.entries[i].key == key
  }

  /** A new exception gets a causal number of its own exactly when no entry already has its automatic key. */
  lemma FreshNumberIff(l: Ledger, codes: set<string>, error: nat, r: Request, clock: int)
    requires Inv(l) && error !in l.byError && WellFormed(codes, r) && l.snapshot.None? && clock >= 0
    requires |AutoKey(l.nextCausal)| <= 128
    ensures
      var o := RecordException(l, codes, error, r, clock);
      o.result.Success? && o.result.value.causal == l.nextCausal <==> !Taken(l, AutoKey(l.nextCausal))
  {
    var i := Find(l.entries, AutoKey(l.nextCausal));
    if i < |l.entries| {
      assert l.entries[i].causal == i + 1;
    }
  }

  predicate NamesNoKey(a: Action) {
    !a.Records? || a.key == ""
  }

  lemma TakenStep(l: Ledger, codes: set<string>, a: Action)
    requires Taken(l, AutoKey(l.nextCausal)) && NamesNoKey(a)
    ensures
      var t := Apply(l, codes, a);
      |t.entries| == |l.entries| && t.nextCausal == l.nextCausal && Taken(t, AutoKey(t.nextCausal))
  {
    var t := Apply(l, codes, a);
    StepContinues(l, codes, a);
    var i :| 0 <= i < |l.entries| && l.entries[i].key == AutoKey(l.nextCausal);
    assert t.nextCausal == l.nextCausal && |t.entries| == |l.entries|;
    assert t.entries[i].(observation := None) == l.entries[i].(observation := None);
    assert t.entries[i].key == l.entries[i].key;
  }

  /** Once the automatic key is taken, no run without an explicit key ever adds an entry again. */
  lemma {:induction false} TakenKeyBlocks(l: Ledger, codes: set<string>, actions: seq<Action>)
    requires Taken(l, AutoKey(l.nextCausal)) && forall a :: a in actions ==> NamesNoKey(a)
    ensures |Exec(l, codes, actions).entries| == |l.entries|
    ensures Exec(l, codes, actions).nextCausal == l.nextCausal
    decreases |actions|
  {
    if actions != [] {
      assert NamesNoKey(actions[0]) && forall a :: a in actions[1..] ==> a in actions;
      TakenStep(l, codes, actions[0]);
      TakenKeyBlocks(Apply(l, codes, actions[0]), codes, actions[1..]);
    }
  }

  /** One explicit key suffices: the next exception is given the older candidate. */
  lemma ExplicitKeyCollides(codes: set<string>, r: Request, error: nat, clock: int)
    requires WellFormed(codes, r) && clock >= 0
    ensures
      var l := RecordCode(EMPTY, codes, r, "source-2", clock).ledger;
      var o := RecordException(l, codes, error, r, clock);
      && |l.entries| == 1 && l.nextCausal == 2
      && o.result == Success(l.entries[0]) && o.result.value.causal == 1
  {
    assert Decimal(2) == "2";
    assert AutoKey(2) == "source-2";
  }

  /** Every key is the automatic one of its causal number. */
  ghost predicate Automatic(l: Ledger) {
    forall i :: 0 <= i < |l.entries| ==> l.entries[i].key == AutoKey(l.entries[i].causal)
  }

  lemma AutoKeyInjective(m: nat, n: nat)
    requires AutoKey(m) == AutoKey(n)
    ensures m == n
  {
    assert AutoKey(m)[7..] == Decimal(m) && AutoKey(n)[7..] == Decimal(n);
    DecimalInjective(m, n);
  }

  lemma {:induction false} RunStaysAutomatic(l: Ledger, codes: set<string>, actions: seq<Action>)
    requires Automatic(l) && forall a :: a in actions ==> NamesNoKey(a)
    ensures Automatic(Exec(l, codes, actions))
    decreases |actions|
  {
    if actions != [] {
      assert NamesNoKey(actions[0]);
      assert forall a :: a in actions[1..] ==> a in actions;
      RunStaysAutomatic(Apply(l, codes, actions[0]), codes, actions[1..]);
    }
  }

  /** In a run that never names a key, no automatic key is ever taken, so every new exception is numbered afresh. */
  lemma UnnamedRunsStayFresh(codes: set<string>, actions: seq<Action>)
    requires forall a :: a in actions ==> NamesNoKey(a)
    ensures
      var l := Exec(EMPTY, codes, actions);
      !Taken(l, AutoKey(l.nextCausal))
  {
    RunKeepsInv(EMPTY, codes, actions);
    RunStaysAutomatic(EMPTY, codes, actions);
    var l := Exec(EMPTY, codes, actions);
    forall i | 0 <= i < |l.entries| ensures l.entries[i].key != AutoKey(l.nextCausal) {
      if l.entries[i].key == AutoKey(l.nextCausal) {
        AutoKeyInjective(l.entries[i].causal, l.nextCausal);
      }
    }
  }
}
