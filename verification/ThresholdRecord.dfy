/**
 The bookkeeping of `_MetricState` as a value, and its meaning: after any history each
 retained field is the direct definition over the whole of it.
 */
module ThresholdRecord {
  import opened Strings
  import opened Wrappers
  import opened Thresholds

  datatype Maxima = Maxima(all: Option<nat>, preCancel: Option<nat>, terminal: Option<nat>, reading: Option<nat>)
  datatype Counter = Counter(previous: Option<nat>, reset: bool, exclusive: bool, attributed: bool)
  datatype Counts = Counts(observed: nat, missing: nat)
  datatype Crossing = Crossing(
    timestamp: Option<real>, sample: Option<nat>, value: Option<nat>, operation: Option<string>, timing: Timing,
    before: bool, after: bool, terminal: bool)

  datatype Record = Record(maxima: Maxima, counter: Counter, counts: Counts, crossing: Crossing)

  const EMPTY: Record := Record(
    Maxima(None, None, None, None), Counter(None, false, true, true), Counts(0, 0),
    Crossing(None, None, None, None, NoCrossing, false, false, false))

  function Larger(current: Option<nat>, value: nat): Option<nat> {
    if current.Some? && current.value >= value then current else Some(value)
  }

  function NextMaxima(spec: MetricSpec, m: Maxima, o: Obs): Maxima {
    match ValueAt(spec, o)
    case None => if o.sample.terminal then m.(reading := None) else m
    case Some(v) =>
      var n := m.(all := Larger(m.all, v));
      if o.sample.terminal then n.(reading := Some(v), terminal := Larger(m.terminal, v))
      else if !o.sample.cancelled then n.(preCancel := Larger(m.preCancel, v))
      else n
  }

  function NextCounter(spec: MetricSpec, c: Counter, o: Obs): Counter {
    var n := c.(exclusive := c.exclusive && o.sample.exclusive,
                attributed := c.attributed && o.sample.exclusive && o.exact);
    match ValueAt(spec, o)
    case None => n
    case Some(v) =>
      if !spec.counter then n
      else if c.previous.Some? && v < c.previous.value then Counter(Some(v), true, false, false)
      else n.(previous := Some(v))
  }

  function NextCounts(spec: MetricSpec, c: Counts, o: Obs): Counts {
    if Observed(spec, o) then c.(observed := c.observed + 1) else c.(missing := c.missing + 1)
  }

  function NextCrossing(spec: MetricSpec, c: Crossing, o: Obs, index: nat): Crossing {
    if !Crosses(spec, o) then c
    else
      var t := TimingOf(o);
      var n := c.(before := c.before || t == BeforeCancellation, after := c.after || t == AfterCancellation,
                  terminal := c.terminal || t == TerminalOnly);
      if c.sample.Some? then n
      else n.(timestamp := Some(o.sample.timestamp), sample := Some(index), value := ValueAt(spec, o),
              operation := if o.exact then o.operation else None, timing := t)
  }

  function Next(spec: MetricSpec, r: Record, o: Obs, index: nat): Record {
    Record(NextMaxima(spec, r.maxima, o), NextCounter(spec, r.counter, o), NextCounts(spec, r.counts, o),
           NextCrossing(spec, r.crossing, o, index))
  }

  /** The record after feeding a whole history, one sample at a time. */
  function Fold(spec: MetricSpec, h: History): Record {
    if h == [] then EMPTY else Next(spec, Fold(spec, h[..|h| - 1]), h[|h| - 1], |h| - 1)
  }

  lemma FoldSnoc(spec: MetricSpec, h: History, o: Obs)
    ensures Fold(spec, h + [o]) == Next(spec, Fold(spec, h), o, |h|)
  {
    assert (h + [o])[..|h|] == h;
  }

  // ----- the meaning of a record

  ghost predicate MaximaMean(spec: MetricSpec, h: History, m: Maxima) {
    && IsMaximum(spec, h, Every, m.all)
    && IsMaximum(spec, h, PreCancel, m.preCancel)
    && IsMaximum(spec, h, Terminal, m.terminal)
    && IsTerminalReading(spec, h, m.reading)
  }

  ghost predicate CounterMeans(spec: MetricSpec, h: History, c: Counter) {
    && (spec.counter ==> IsLatest(spec, h, c.previous))
    && (c.reset <==> CounterDrops(spec, h))
    && (c.exclusive <==> AllExclusive(h) && !c.reset)
    && (c.attributed <==> AllExclusive(h) && AllExact(h) && !c.reset)
  }

  ghost predicate CountsMean(spec: MetricSpec, h: History, c: Counts) {
    c.observed == |ObservedIndices(spec, h)| && c.observed + c.missing == |h|
  }

  ghost predicate CrossingMeans(spec: MetricSpec, h: History, c: Crossing) {
    && (c.before <==> CrossesWhen(spec, h, BeforeCancellation))
    && (c.after <==> CrossesWhen(spec, h, AfterCancellation))
    && (c.terminal <==> CrossesWhen(spec, h, TerminalOnly))
    && (if c.sample.None? then
          NeverCrosses(spec, h) && c.timing == NoCrossing &&
          c.timestamp.None? && c.value.None? && c.operation.None?
        else FirstCrossing(spec, h, c.sample.value) && DescribesCrossing(spec, h[c.sample.value], c))
  }

  ghost predicate DescribesCrossing(spec: MetricSpec, o: Obs, c: Crossing) {
    c.timing == TimingOf(o) && c.timestamp == Some(o.sample.timestamp) &&
    c.value == ValueAt(spec, o) && c.operation == (if o.exact then o.operation else None)
  }

  /** Every maximum is attained and bounds its window; a terminal reading is the last terminal sample's. */
  lemma {:induction false} FoldMaxima(spec: MetricSpec, h: History)
    ensures MaximaMean(spec, h, Fold(spec, h).maxima)
    decreases |h|
  {
    if h != [] {
      var g, o := h[..|h| - 1], h[|h| - 1];
      assert h == g + [o];
      FoldMaxima(spec, g);
      var m := Fold(spec, g).maxima;
      MaximumSnoc(spec, g, Every, m.all, o);
      MaximumSnoc(spec, g, PreCancel, m.preCancel, o);
      MaximumSnoc(spec, g, Terminal, m.terminal, o);
      TerminalSnoc(spec, g, m.reading, o);
    }
  }

  /** A counter is reset iff two successive observed values decrease; exclusivity is lost by it for ever. */
  lemma {:induction false} FoldCounter(spec: MetricSpec, h: History)
    ensures CounterMeans(spec, h, Fold(spec, h).counter)
    decreases |h|
  {
    if h != [] {
      var g, o := h[..|h| - 1], h[|h| - 1];
      assert h == g + [o];
      FoldCounter(spec, g);
      var c := Fold(spec, g).counter;
      ExclusiveSnoc(g, o);
      if spec.counter {
        LatestSnoc(spec, g, c.previous, o);
        DropsSnoc(spec, g, c.previous, o);
      }
    }
  }

  /** Observed and missing samples are counted exactly and partition the history. */
  lemma {:induction false} FoldCounts(spec: MetricSpec, h: History)
    ensures CountsMean(spec, h, Fold(spec, h).counts)
    decreases |h|
  {
    if h != [] {
      var g, o := h[..|h| - 1], h[|h| - 1];
      assert h == g + [o];
      FoldCounts(spec, g);
      CountSnoc(spec, g, o);
    }
  }

  /** The first crossing is the least crossing index, with that sample's data; the flags say "ever". */
  lemma {:induction false} FoldCrossing(spec: MetricSpec, h: History)
    ensures CrossingMeans(spec, h, Fold(spec, h).crossing)
    decreases |h|
  {
    if h != [] {
      var g, o := h[..|h| - 1], h[|h| - 1];
      assert h == g + [o];
      FoldCrossing(spec, g);
      CrossingSnoc(spec, g, o);
    }
  }

  /** On accepted histories the first crossing's timing is "before" iff some crossing was before cancellation. */
  lemma TimingAgrees(spec: MetricSpec, h: History)
    requires Accepted(h)
    ensures Fold(spec, h).crossing.timing == BeforeCancellation <==> Fold(spec, h).crossing.before
    ensures Fold(spec, h).crossing.before <==> exists k: nat :: StopsAt(spec, h, k)
    ensures forall k: nat :: StopsAt(spec, h, k) ==> Fold(spec, h).crossing.sample == Some(k)
  {
    FoldCrossing(spec, h);
    var c := Fold(spec, h).crossing;
    if c.sample.Some? {
      FirstCrossingTiming(spec, h, c.sample.value);
      forall k: nat | StopsAt(spec, h, k) ensures k == c.sample.value {}
      if c.before {
        assert StopsAt(spec, h, c.sample.value);
      }
    }
  }

  // ----- in terms of readings and limits

  /** The sample has this reading for the metric. */
  predicate Reads(spec: MetricSpec, o: Obs, v: nat) {
    spec.category in o.sample.values && o.sample.values[spec.category] == Some(v)
  }

  /** A sample taken while the operation ran: neither the terminal one nor one after cancellation. */
  predicate Running(o: Obs) {
    !o.sample.terminal && !o.sample.cancelled
  }

  /** Above an upper limit, below a lower one; a reading at the limit is within it. */
  predicate Past(spec: MetricSpec, v: nat) {
    (spec.lowerBound && v < spec.limit) || (!spec.lowerBound && v > spec.limit)
  }

  /**
   What a record says about limits: the first crossing is the first reading past the limit, with its
   value and its time, and there is none exactly if every reading is within the limit.
   */
  lemma CrossingIsPastLimit(spec: MetricSpec, h: History)
    ensures
      var c := Fold(spec, h).crossing;
      && (c.sample.None? ==> forall j, v: nat :: 0 <= j < |h| && Reads(spec, h[j], v) ==> !Past(spec, v))
      && (c.sample.Some? ==>
            && c.sample.value < |h| && c.value.Some? && Past(spec, c.value.value)
            && Reads(spec, h[c.sample.value], c.value.value)
            && c.timestamp == Some(h[c.sample.value].sample.timestamp)
            && (c.timing == BeforeCancellation <==> Running(h[c.sample.value]))
            && forall j, v: nat :: 0 <= j < c.sample.value && Reads(spec, h[j], v) ==> !Past(spec, v))
  {
    FoldCrossing(spec, h);
    var c := Fold(spec, h).crossing;
    forall j, v: nat | 0 <= j < |h| && Reads(spec, h[j], v) ensures Crosses(spec, h[j]) <==> Past(spec, v) {
    }
  }

  /** For an upper bound the recorded maximum decides: nothing crossed exactly if it is at most the limit. */
  lemma MaximumDecides(spec: MetricSpec, h: History)
    ensures
      var r := Fold(spec, h);
      && (!spec.lowerBound ==>
            (r.crossing.sample.None? <==> r.maxima.all.None? || r.maxima.all.value <= spec.limit))
      && (r.maxima.all.None? <==> forall j, v: nat :: 0 <= j < |h| ==> !Reads(spec, h[j], v))
      && (r.maxima.all.Some? ==>
            && (exists j :: 0 <= j < |h| && Reads(spec, h[j], r.maxima.all.value))
            && forall j, v: nat :: 0 <= j < |h| && Reads(spec, h[j], v) ==> v <= r.maxima.all.value)
  {
    FoldMaxima(spec, h);
    CrossingIsPastLimit(spec, h);
    var m := Fold(spec, h).maxima.all;
    if m.Some? {
      var i :| 0 <= i < |h| && InWindow(Every, h[i]) && ValueAt(spec, h[i]) == m;
      assert Reads(spec, h[i], m.value);
    }
    forall j, v: nat | 0 <= j < |h| && Reads(spec, h[j], v) ensures m.Some? && v <= m.value {
      assert InWindow(Every, h[j]) && Observed(spec, h[j]);
    }
  }

  /** The two partial maxima: over the samples before cancellation and over the terminal ones. */
  lemma PartialMaxima(spec: MetricSpec, h: History)
    ensures
      var m := Fold(spec, h).maxima;
      && (forall j, v: nat :: 0 <= j < |h| && Running(h[j]) && Reads(spec, h[j], v) ==>
            m.preCancel.Some? && v <= m.preCancel.value)
      && (m.preCancel.Some? ==> exists j :: 0 <= j < |h| && Running(h[j]) && Reads(spec, h[j], m.preCancel.value))
      && (forall j, v: nat :: 0 <= j < |h| && h[j].sample.terminal && Reads(spec, h[j], v) ==>
            m.terminal.Some? && v <= m.terminal.value)
      && (m.terminal.Some? ==>
            exists j :: 0 <= j < |h| && h[j].sample.terminal && Reads(spec, h[j], m.terminal.value))
  {
    FoldMaxima(spec, h);
    var m := Fold(spec, h).maxima;
    forall j, v: nat | 0 <= j < |h| && Reads(spec, h[j], v)
      ensures Running(h[j]) ==> m.preCancel.Some? && v <= m.preCancel.value
      ensures h[j].sample.terminal ==> m.terminal.Some? && v <= m.terminal.value
    {
      assert Observed(spec, h[j]);
    }
    if m.preCancel.Some? {
      var i :| 0 <= i < |h| && InWindow(PreCancel, h[i]) && ValueAt(spec, h[i]) == m.preCancel;
      assert Reads(spec, h[i], m.preCancel.value);
    }
    if m.terminal.Some? {
      var i :| 0 <= i < |h| && InWindow(Terminal, h[i]) && ValueAt(spec, h[i]) == m.terminal;
      assert Reads(spec, h[i], m.terminal.value);
    }
  }

  // ----- the primary stop in these terms

  ghost predicate PastAt(spec: MetricSpec, o: Obs) {
    exists v :: Reads(spec, o, v) && Past(spec, v)
  }

  /** Of two metrics past their limits at the same sample, the smaller priority number wins, then the name. */
  predicate Outranks(a: MetricSpec, b: MetricSpec) {
    a.priority < b.priority || (a.priority == b.priority && StringLess(a.category, b.category))
  }

  /** Sample `k` is the first running sample at which any metric is past its limit, and `i` outranks the others there. */
  ghost predicate WinsAt(specs: seq<MetricSpec>, h: History, i: nat, k: nat) {
    && i < |specs| && k < |h| && Running(h[k]) && PastAt(specs[i], h[k])
    && (forall j, m :: 0 <= j < |specs| && 0 <= m < k ==> !PastAt(specs[j], h[m]))
    && (forall j :: 0 <= j < |specs| && j != i && PastAt(specs[j], h[k]) ==> Outranks(specs[i], specs[j]))
  }

  ghost predicate NeverPast(specs: seq<MetricSpec>, h: History) {
    forall j, m :: 0 <= j < |specs| && 0 <= m < |h| && Running(h[m]) ==> !PastAt(specs[j], h[m])
  }

  lemma PastIsCrossing(spec: MetricSpec, o: Obs)
    ensures PastAt(spec, o) <==> Crosses(spec, o)
    ensures Running(o) <==> TimingOf(o) == BeforeCancellation
  {
    if Crosses(spec, o) {
      assert Reads(spec, o, ValueAt(spec, o).value);
    }
  }

  lemma AllPastIsCrossing()
    ensures forall spec, o :: PastAt(spec, o) <==> Crosses(spec, o)
    ensures forall o :: Running(o) <==> TimingOf(o) == BeforeCancellation
  {
    forall spec, o ensures PastAt(spec, o) <==> Crosses(spec, o) {
      PastIsCrossing(spec, o);
    }
  }

  lemma EarlierRuns(h: History, m: nat, k: nat)
    requires Accepted(h) && m <= k < |h| && Running(h[k])
    ensures Running(h[m])
  {
    if m < k {
      AcceptedOrder(h, m, k);
    }
  }

  lemma WinnerIsPrimary(specs: seq<MetricSpec>, h: History, i: nat, k: nat)
    requires Accepted(h) && WinsAt(specs, h, i, k)
    ensures IsPrimary(specs, h, i)
  {
    AllPastIsCrossing();
    assert StopsAt(specs[i], h, k);
    forall j: nat, m: nat | j < |specs| && j != i && StopsAt(specs[j], h, m)
      ensures KeyLess(KeyAt(specs[i], h, k), KeyAt(specs[j], h, m))
    {
      assert PastAt(specs[j], h[m]);
      if k < m {
        AcceptedOrder(h, k, m);
      }
    }
    assert LeastStop(specs, h, i, k);
  }

  /** A metric past its limit at a running sample has its stop there or earlier. */
  lemma {:induction false} PastStops(spec: MetricSpec, h: History, m: nat) returns (k: nat)
    requires Accepted(h) && m < |h| && Running(h[m]) && PastAt(spec, h[m])
    ensures k <= m && StopsAt(spec, h, k)
    decreases m
  {
    AllPastIsCrossing();
    if l: nat :| l < m && PastAt(spec, h[l]) {
      EarlierRuns(h, l, m);
      k := PastStops(spec, h, l);
    } else {
      k := m;
    }
  }

  lemma PrimaryWins(specs: seq<MetricSpec>, h: History, i: nat) returns (k: nat)
    requires Accepted(h) && IsPrimary(specs, h, i)
    ensures WinsAt(specs, h, i, k)
  {
    AllPastIsCrossing();
    k :| StopsAt(specs[i], h, k) && LeastStop(specs, h, i, k);
    forall j: nat, m: nat | j < |specs| && m < k ensures !PastAt(specs[j], h[m]) {
      if PastAt(specs[j], h[m]) && j != i {
        EarlierRuns(h, m, k);
        var l := PastStops(specs[j], h, m);
        AcceptedOrder(h, l, k);
      }
    }
    forall j: nat | j < |specs| && j != i && PastAt(specs[j], h[k]) ensures Outranks(specs[i], specs[j]) {
      var l := PastStops(specs[j], h, k);
      assert l == k;
    }
  }

  /** Timestamps drop out: the primary metric wins at the first sample past a limit, and only there. */
  lemma PrimaryIff(specs: seq<MetricSpec>, h: History, i: nat)
    requires Accepted(h)
    ensures IsPrimary(specs, h, i) <==> exists k: nat :: WinsAt(specs, h, i, k)
    ensures NoStop(specs, h) <==> NeverPast(specs, h)
  {
    if IsPrimary(specs, h, i) {
      var k := PrimaryWins(specs, h, i);
    }
    if k: nat :| WinsAt(specs, h, i, k) {
      WinnerIsPrimary(specs, h, i, k);
    }
    NoStopIff(specs, h);
  }

  lemma NoStopIff(specs: seq<MetricSpec>, h: History)
    requires Accepted(h)
    ensures NoStop(specs, h) <==> NeverPast(specs, h)
  {
    AllPastIsCrossing();
    if NoStop(specs, h) {
      forall j: nat, m: nat | j < |specs| && m < |h| && Running(h[m]) ensures !PastAt(specs[j], h[m]) {
        if PastAt(specs[j], h[m]) {
          var k := PastStops(specs[j], h, m);
        }
      }
    }
  }
}
