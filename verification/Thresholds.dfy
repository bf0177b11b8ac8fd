/**
 Sampled metrics and what a sample history says about one of them. Everything here is a
 direct definition over the whole history; the online bookkeeping is in ThresholdMonitor.
 Source: tools/scale11_threshold_models.py and tools/scale11_threshold_incremental.py.
 */
module Thresholds {
  import opened Strings
  import opened Wrappers

  datatype MetricSpec = MetricSpec(category: string, limit: nat, priority: nat, counter: bool, lowerBound: bool)

  datatype Sample = Sample(
    timestamp: real,
    values: map<string, Option<nat>>,
    cancelled: bool,
    exclusive: bool,
    terminal: bool)

  /** One accepted sample with the operation it is attributed to. */
  datatype Obs = Obs(sample: Sample, operation: Option<string>, exact: bool)

  type History = seq<Obs>

  datatype Timing = NoCrossing | BeforeCancellation | AfterCancellation | TerminalOnly

  function ValueAt(spec: MetricSpec, o: Obs): Option<nat> {
    if spec.category in o.sample.values then o.sample.values[spec.category] else None
  }

  predicate Observed(spec: MetricSpec, o: Obs) {
    ValueAt(spec, o).Some?
  }

  predicate Crosses(spec: MetricSpec, o: Obs) {
    Observed(spec, o) &&
    var v := ValueAt(spec, o).value;
    if spec.lowerBound then v < spec.limit else v > spec.limit
  }

  function TimingOf(o: Obs): Timing {
    if o.sample.terminal then TerminalOnly
    else if o.sample.cancelled then AfterCancellation
    else BeforeCancellation
  }

  // ----- the meaning of each retained field

  datatype Window = Every | PreCancel | Terminal

  predicate InWindow(w: Window, o: Obs) {
    match w
    case Every => true
    case PreCancel => !o.sample.terminal && !o.sample.cancelled
    case Terminal => o.sample.terminal
  }

  ghost predicate IsMaximum(spec: MetricSpec, h: History, w: Window, m: Option<nat>) {
    && (forall i :: 0 <= i < |h| && InWindow(w, h[i]) && Observed(spec, h[i]) ==>
          m.Some? && ValueAt(spec, h[i]).value <= m.value)
    && (m.Some? ==> exists i :: 0 <= i < |h| && InWindow(w, h[i]) && ValueAt(spec, h[i]) == m)
  }

  ghost predicate FirstCrossing(spec: MetricSpec, h: History, k: int) {
    && 0 <= k < |h| && Crosses(spec, h[k])
    && forall j :: 0 <= j < k ==> !Crosses(spec, h[j])
  }

  ghost predicate NeverCrosses(spec: MetricSpec, h: History) {
    forall i :: 0 <= i < |h| ==> !Crosses(spec, h[i])
  }

  ghost predicate CrossesWhen(spec: MetricSpec, h: History, t: Timing) {
    exists i :: 0 <= i < |h| && Crosses(spec, h[i]) && TimingOf(h[i]) == t
  }

  /** `m` is the most recent observed value. */
  ghost predicate IsLatest(spec: MetricSpec, h: History, m: Option<nat>) {
    && (m.None? ==> forall i :: 0 <= i < |h| ==> !Observed(spec, h[i]))
    && (m.Some? ==> exists i :: IsLatestAt(spec, h, i) && ValueAt(spec, h[i]) == m)
  }

  ghost predicate IsLatestAt(spec: MetricSpec, h: History, i: int) {
    0 <= i < |h| && Observed(spec, h[i]) && forall j :: i < j < |h| ==> !Observed(spec, h[j])
  }

  /** Two successive observed values decrease between samples `i` and `j`. */
  ghost predicate DropsBetween(spec: MetricSpec, h: History, i: int, j: int) {
    && 0 <= i < j < |h| && Observed(spec, h[i]) && Observed(spec, h[j])
    && (forall k :: i < k < j ==> !Observed(spec, h[k]))
    && ValueAt(spec, h[j]).value < ValueAt(spec, h[i]).value
  }

  ghost predicate CounterDrops(spec: MetricSpec, h: History) {
    spec.counter && exists i, j :: DropsBetween(spec, h, i, j)
  }

  ghost function ObservedIndices(spec: MetricSpec, h: History): set<int> {
    set i | 0 <= i < |h| && Observed(spec, h[i])
  }

  /** `m` is the reading of the most recent terminal sample. */
  ghost predicate IsTerminalReading(spec: MetricSpec, h: History, m: Option<nat>) {
    && ((forall i :: 0 <= i < |h| ==> !h[i].sample.terminal) ==> m.None?)
    && forall i :: 0 <= i < |h| && h[i].sample.terminal && (forall j :: i < j < |h| ==> !h[j].sample.terminal) ==>
         m == ValueAt(spec, h[i])
  }

  ghost predicate AllExclusive(h: History) {
    forall i :: 0 <= i < |h| ==> h[i].sample.exclusive
  }

  ghost predicate AllExact(h: History) {
    forall i :: 0 <= i < |h| ==> h[i].exact
  }

  // ----- one more sample

  lemma MaximumSnoc(spec: MetricSpec, h: History, w: Window, m: Option<nat>, o: Obs)
    requires IsMaximum(spec, h, w, m)
    ensures IsMaximum(spec, h + [o], w,
      if !InWindow(w, o) || !Observed(spec, o) || (m.Some? && m.value >= ValueAt(spec, o).value) then m
      else ValueAt(spec, o))
  {
    var h' := h + [o];
    assert forall i :: 0 <= i < |h| ==> h'[i] == h[i];
    assert h'[|h|] == o;
    if m.Some? {
      var i :| 0 <= i < |h| && InWindow(w, h[i]) && ValueAt(spec, h[i]) == m;
      assert h'[i] == h[i];
    }
  }

  lemma LatestSnoc(spec: MetricSpec, h: History, m: Option<nat>, o: Obs)
    requires IsLatest(spec, h, m)
    ensures IsLatest(spec, h + [o], if Observed(spec, o) then ValueAt(spec, o) else m)
  {
    var h' := h + [o];
    assert forall i :: 0 <= i < |h| ==> h'[i] == h[i];
    if Observed(spec, o) {
      assert IsLatestAt(spec, h', |h|);
    } else if m.Some? {
      var i :| IsLatestAt(spec, h, i) && ValueAt(spec, h[i]) == m;
      assert IsLatestAt(spec, h', i);
    }
  }

  /** A drop in the longer history is an old one, or the new reading is below the latest before it. */
  lemma DropIsOldOrNew(spec: MetricSpec, h: History, m: Option<nat>, o: Obs, i: nat, j: nat)
    requires IsLatest(spec, h, m) && DropsBetween(spec, h + [o], i, j)
    ensures DropsBetween(spec, h, i, j) || (Observed(spec, o) && m.Some? && ValueAt(spec, o).value < m.value)
  {
    var h' := h + [o];
    assert forall k :: 0 <= k < |h| ==> h'[k] == h[k];
    if j == |h| {
      assert IsLatestAt(spec, h, i);
    }
  }

  lemma NewDrop(spec: MetricSpec, h: History, m: Option<nat>, o: Obs) returns (i: nat)
    requires IsLatest(spec, h, m) && Observed(spec, o) && m.Some? && ValueAt(spec, o).value < m.value
    ensures DropsBetween(spec, h + [o], i, |h|)
  {
    i :| IsLatestAt(spec, h, i) && ValueAt(spec, h[i]) == m;
  }

  lemma DropsSnoc(spec: MetricSpec, h: History, m: Option<nat>, o: Obs)
    requires IsLatest(spec, h, m)
    ensures CounterDrops(spec, h + [o]) <==>
            CounterDrops(spec, h) ||
            (spec.counter && Observed(spec, o) && m.Some? && ValueAt(spec, o).value < m.value)
  {
    if spec.counter {
      if i, j :| DropsBetween(spec, h, i, j) {
        assert DropsBetween(spec, h + [o], i, j);
      }
      if Observed(spec, o) && m.Some? && ValueAt(spec, o).value < m.value {
        var i := NewDrop(spec, h, m, o);
      }
      if i, j :| DropsBetween(spec, h + [o], i, j) {
        DropIsOldOrNew(spec, h, m, o, i, j);
      }
    }
  }

  lemma CountSnoc(spec: MetricSpec, h: History, o: Obs)
    ensures |ObservedIndices(spec, h + [o])| == |ObservedIndices(spec, h)| + (if Observed(spec, o) then 1 else 0)
  {
    var h' := h + [o];
    assert ObservedIndices(spec, h') == ObservedIndices(spec, h) + (if Observed(spec, o) then {|h|} else {});
  }

  lemma CrossingSnoc(spec: MetricSpec, h: History, o: Obs)
    ensures forall k :: FirstCrossing(spec, h, k) ==> FirstCrossing(spec, h + [o], k)
    ensures NeverCrosses(spec, h) && Crosses(spec, o) ==> FirstCrossing(spec, h + [o], |h|)
    ensures NeverCrosses(spec, h + [o]) <==> NeverCrosses(spec, h) && !Crosses(spec, o)
    ensures forall t :: CrossesWhen(spec, h + [o], t) <==>
                        CrossesWhen(spec, h, t) || (Crosses(spec, o) && TimingOf(o) == t)
  {
    var h' := h + [o];
    assert forall i :: 0 <= i < |h| ==> h'[i] == h[i];
    assert h'[|h|] == o;
    forall t ensures CrossesWhen(spec, h', t) <==> CrossesWhen(spec, h, t) || (Crosses(spec, o) && TimingOf(o) == t) {
      if i :| 0 <= i < |h| && Crosses(spec, h[i]) && TimingOf(h[i]) == t {
        assert h'[i] == h[i];
      }
    }
  }

  lemma TerminalSnoc(spec: MetricSpec, h: History, m: Option<nat>, o: Obs)
    requires IsTerminalReading(spec, h, m)
    ensures IsTerminalReading(spec, h + [o], if o.sample.terminal then ValueAt(spec, o) else m)
  {
    var h' := h + [o];
    assert forall i :: 0 <= i < |h| ==> h'[i] == h[i];
    assert h'[|h|] == o;
    if !o.sample.terminal {
      forall i | 0 <= i < |h'| && h'[i].sample.terminal && (forall j :: i < j < |h'| ==> !h'[j].sample.terminal)
        ensures m == ValueAt(spec, h'[i])
      {
        assert forall j :: i < j < |h| ==> h'[j] == h[j];
      }
      if forall i :: 0 <= i < |h'| ==> !h'[i].sample.terminal {
        assert forall i :: 0 <= i < |h| ==> !h[i].sample.terminal;
      }
    }
  }

  lemma ExclusiveSnoc(h: History, o: Obs)
    ensures AllExclusive(h + [o]) <==> AllExclusive(h) && o.sample.exclusive
    ensures AllExact(h + [o]) <==> AllExact(h) && o.exact
  {
    var h' := h + [o];
    assert forall i :: 0 <= i < |h| ==> h'[i] == h[i];
    assert h'[|h|] == o;
  }

  // ----- accepted histories

  /** Sample `b` may follow sample `a`: time does not go back, cancellation is latched, terminal is last. */
  predicate MayFollow(a: Sample, b: Sample) {
    a.timestamp <= b.timestamp && (a.cancelled ==> b.cancelled) && !a.terminal
  }

  /** What the monitor's checks and its latch guarantee about the samples it accepts. */
  predicate Accepted(h: History) {
    |h| <= 1 || (MayFollow(h[|h| - 2].sample, h[|h| - 1].sample) && Accepted(h[..|h| - 1]))
  }

  lemma {:induction false} AcceptedOrder(h: History, i: nat, j: nat)
    requires Accepted(h) && i < j < |h|
    ensures MayFollow(h[i].sample, h[j].sample)
    decreases |h|
  {
    var g := h[..|h| - 1];
    if j < |g| {
      AcceptedOrder(g, i, j);
    } else if i < |g| - 1 {
      AcceptedOrder(g, i, |g| - 1);
    }
  }

  lemma AcceptedSnoc(h: History, o: Obs)
    requires Accepted(h) && (h != [] ==> MayFollow(h[|h| - 1].sample, o.sample))
    ensures Accepted(h + [o])
  {
    assert (h + [o])[..|h|] == h;
  }

  /** The first crossing is before cancellation iff some crossing is: later samples cannot be earlier. */
  lemma FirstCrossingTiming(spec: MetricSpec, h: History, k: nat)
    requires Accepted(h) && FirstCrossing(spec, h, k)
    ensures TimingOf(h[k]) == BeforeCancellation <==> CrossesWhen(spec, h, BeforeCancellation)
  {
    if i :| 0 <= i < |h| && Crosses(spec, h[i]) && TimingOf(h[i]) == BeforeCancellation {
      if k < i {
        AcceptedOrder(h, k, i);
      }
    }
  }

  // ----- the primary stop

  datatype StopKey = StopKey(timestamp: real, index: int, priority: nat, category: string)

  predicate KeyLess(a: StopKey, b: StopKey) {
    a.timestamp < b.timestamp || (a.timestamp == b.timestamp &&
    (a.index < b.index || (a.index == b.index &&
    (a.priority < b.priority || (a.priority == b.priority && StringLess(a.category, b.category))))))
  }

  lemma KeyOrder(a: StopKey, b: StopKey)
    ensures !(KeyLess(a, b) && KeyLess(b, a))
    ensures a != b ==> KeyLess(a, b) || KeyLess(b, a)
  {
    StringOrder(a.category, b.category);
  }

  lemma KeyTransitive(a: StopKey, b: StopKey, c: StopKey)
    requires KeyLess(a, b) && KeyLess(b, c)
    ensures KeyLess(a, c)
  {
    if StringLess(a.category, b.category) && StringLess(b.category, c.category) {
      StringTransitive(a.category, b.category, c.category);
    }
  }

  function KeyAt(spec: MetricSpec, h: History, k: nat): StopKey
    requires k < |h|
  {
    StopKey(h[k].sample.timestamp, k, spec.priority, spec.category)
  }

  /** Metric `spec` first crosses at sample `k`, before cancellation. */
  ghost predicate StopsAt(spec: MetricSpec, h: History, k: nat) {
    FirstCrossing(spec, h, k) && TimingOf(h[k]) == BeforeCancellation
  }

  ghost predicate IsPrimary(specs: seq<MetricSpec>, h: History, i: nat) {
    && i < |specs|
    && exists k: nat :: StopsAt(specs[i], h, k) && LeastStop(specs, h, i, k)
  }

  ghost predicate LeastStop(specs: seq<MetricSpec>, h: History, i: nat, k: nat)
    requires i < |specs| && k < |h|
  {
    forall j: nat, m: nat :: j < |specs| && j != i && StopsAt(specs[j], h, m) ==>
      KeyLess(KeyAt(specs[i], h, k), KeyAt(specs[j], h, m))
  }

  ghost predicate NoStop(specs: seq<MetricSpec>, h: History) {
    forall j: nat, m: nat :: j < |specs| ==> !StopsAt(specs[j], h, m)
  }

  lemma PrimaryUnique(specs: seq<MetricSpec>, h: History, i: nat, j: nat)
    requires IsPrimary(specs, h, i) && IsPrimary(specs, h, j)
    ensures i == j
  {
    var k: nat :| StopsAt(specs[i], h, k) && LeastStop(specs, h, i, k);
    var m: nat :| StopsAt(specs[j], h, m) && LeastStop(specs, h, j, m);
    KeyOrder(KeyAt(specs[i], h, k), KeyAt(specs[j], h, m));
  }

  lemma FirstCrossingExtends(spec: MetricSpec, h: History, h': History, k: nat)
    requires h <= h'
    ensures FirstCrossing(spec, h, k) ==> FirstCrossing(spec, h', k)
    ensures k < |h| && FirstCrossing(spec, h', k) ==> FirstCrossing(spec, h, k)
  {
    assert forall i :: 0 <= i < |h| ==> h[i] == h'[i];
  }

  /** A primary stop chosen at any time stays the primary stop of every longer accepted history. */
  lemma PrimaryStable(specs: seq<MetricSpec>, h: History, h': History, i: nat)
    requires h <= h' && Accepted(h') && IsPrimary(specs, h, i)
    ensures IsPrimary(specs, h', i)
  {
    var k: nat :| StopsAt(specs[i], h, k) && LeastStop(specs, h, i, k);
    assert forall n :: 0 <= n < |h| ==> h[n] == h'[n];
    FirstCrossingExtends(specs[i], h, h', k);
    assert StopsAt(specs[i], h', k);
    forall j: nat, m: nat | j < |specs| && j != i && StopsAt(specs[j], h', m)
      ensures KeyLess(KeyAt(specs[i], h', k), KeyAt(specs[j], h', m))
    {
      if m < |h| {
        FirstCrossingExtends(specs[j], h, h', m);
        assert StopsAt(specs[j], h, m);
      } else {
        AcceptedOrder(h', k, m);
      }
    }
    assert LeastStop(specs, h', i, k);
  }

  /** If every later sample is cancelled, a history without a stop never acquires one. */
  lemma NoStopAfterCancellation(specs: seq<MetricSpec>, h: History, h': History)
    requires h <= h' && NoStop(specs, h)
    requires forall i :: |h| <= i < |h'| ==> h'[i].sample.cancelled
    ensures NoStop(specs, h')
  {
    forall j: nat, m: nat | j < |specs| ensures !StopsAt(specs[j], h', m) {
      if m < |h| {
        FirstCrossingExtends(specs[j], h, h', m);
        assert !StopsAt(specs[j], h, m);
      }
    }
  }
}
