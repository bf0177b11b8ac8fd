/**
 The online monitor of tools/scale11_threshold_incremental.py and its batch entry point in
 tools/scale11_threshold_evaluator.py. The monitor's `Valid` ties its fields to the whole
 history of samples it has accepted.
 */
module ThresholdMonitor {
  import opened Alphabets
  import opened Wrappers
  import opened Thresholds
  import opened ThresholdRecord

  datatype ThresholdError =
    | InvalidSpecs
    | InvalidSamples
    | TerminalAlreadySeen
    | InvalidSample
    | TimestampRegressed
    | InvalidOperation
    | InvalidOffset

  datatype ActionableStop = ActionableStop(category: string, timestamp: real, value: nat, operation: Option<string>)

  /** `_MetricState`: one metric's fields, updated in place by every sample. */
  class MetricState {
    const spec: MetricSpec
    var firstTimestamp: Option<real>
    var firstSample: Option<nat>
    var firstValue: Option<nat>
    var firstOperation: Option<string>
    var timing: Timing
    var maximum: Option<nat>
    var maximumPreCancel: Option<nat>
    var maximumTerminal: Option<nat>
    var terminalReading: Option<nat>
    var previousCounter: Option<nat>
    var counterReset: bool
    var ownershipExclusive: bool
    var exclusiveAttribution: bool
    var crossedBefore: bool
    var crossedAfter: bool
    var crossedTerminal: bool
    var observed: nat
    var missing: nat

    ghost function View(): Record
      reads this
    {
      Record(Maxima(maximum, maximumPreCancel, maximumTerminal, terminalReading),
             Counter(previousCounter, counterReset, ownershipExclusive, exclusiveAttribution),
             Counts(observed, missing),
             Crossing(firstTimestamp, firstSample, firstValue, firstOperation, timing,
                      crossedBefore, crossedAfter, crossedTerminal))
    }

    constructor (spec: MetricSpec)
      ensures View() == EMPTY && this.spec == spec
    {
      this.spec := spec;
      firstTimestamp, firstSample, firstValue, firstOperation, timing := None, None, None, None, NoCrossing;
      maximum, maximumPreCancel, maximumTerminal, terminalReading, previousCounter := None, None, None, None, None;
      counterReset, ownershipExclusive, exclusiveAttribution := false, true, true;
      crossedBefore, crossedAfter, crossedTerminal := false, false, false;
      observed, missing := 0, 0;
    }

    method Observe(o: Obs, index: nat)
      modifies this
      ensures View() == Next(spec, old(View()), o, index)
    {
      ObserveCounter(o);
      ObserveMaxima(o);
      if ValueAt(spec, o).None? {
        missing := missing + 1;
        return;
      }
      observed := observed + 1;
      if Crosses(spec, o) {
        ObserveCrossing(o, index);
      }
    }

    method ObserveCounter(o: Obs)
      modifies this`previousCounter, this`counterReset, this`ownershipExclusive, this`exclusiveAttribution
      ensures View() == old(View()).(counter := NextCounter(spec, old(View()).counter, o))
    {
      ownershipExclusive := ownershipExclusive && o.sample.exclusive;
      exclusiveAttribution := exclusiveAttribution && o.sample.exclusive && o.exact;
      var value := ValueAt(spec, o);
      if value.Some? && spec.counter {
        if previousCounter.Some? && value.value < previousCounter.value {
          counterReset, ownershipExclusive, exclusiveAttribution := true, false, false;
        }
        previousCounter := value;
      }
    }

    method ObserveMaxima(o: Obs)
      modifies this`maximum, this`maximumPreCancel, this`maximumTerminal, this`terminalReading
      ensures View() == old(View()).(maxima := NextMaxima(spec, old(View()).maxima, o))
    {
      var value := ValueAt(spec, o);
      if o.sample.terminal {
        terminalReading := value;
      }
      if value.None? {
        return;
      }
      maximum := Larger(maximum, value.value);
      if o.sample.terminal {
        maximumTerminal := Larger(maximumTerminal, value.value);
      } else if !o.sample.cancelled {
        maximumPreCancel := Larger(maximumPreCancel, value.value);
      }
    }

    method ObserveCrossing(o: Obs, index: nat)
      requires Crosses(spec, o)
      modifies this`firstTimestamp, this`firstSample, this`firstValue, this`firstOperation, this`timing,
               this`crossedBefore, this`crossedAfter, this`crossedTerminal
      ensures View() == old(View()).(crossing := NextCrossing(spec, old(View()).crossing, o, index))
    {
      var when: Timing;
      if o.sample.terminal {
        when, crossedTerminal := TerminalOnly, true;
      } else if o.sample.cancelled {
        when, crossedAfter := AfterCancellation, true;
      } else {
        when, crossedBefore := BeforeCancellation, true;
      }
      if firstSample.Some? {
        return;
      }
      firstTimestamp, firstSample, firstValue := Some(o.sample.timestamp), Some(index), ValueAt(spec, o);
      firstOperation := if o.exact then o.operation else None;
      timing := when;
    }
  }

  // ----- inputs

  predicate UniqueCategories(specs: seq<MetricSpec>) {
    forall i, j :: 0 <= i < j < |specs| ==> specs[i].category != specs[j].category
  }

  predicate SpecsOk(specs: seq<MetricSpec>) {
    && 1 <= |specs| <= 32 && UniqueCategories(specs)
    && forall i :: 0 <= i < |specs| ==> specs[i].priority < 32
  }

  function Categories(specs: seq<MetricSpec>): set<string> {
    set i | 0 <= i < |specs| :: specs[i].category
  }

  predicate SampleOk(specs: seq<MetricSpec>, sample: Sample) {
    sample.timestamp >= 0.0 && sample.values.Keys <= Categories(specs)
  }

  /** Each sample is valid and may follow the one before it. */
  predicate Ordered(specs: seq<MetricSpec>, samples: seq<Sample>) {
    samples == [] ||
    var n := |samples| - 1;
    && SampleOk(specs, samples[n])
    && (n > 0 ==> MayFollow(samples[n - 1], samples[n]))
    && Ordered(specs, samples[..n])
  }

  predicate SamplesOk(specs: seq<MetricSpec>, samples: seq<Sample>) {
    |samples| <= 4096 && Ordered(specs, samples)
  }

  lemma {:induction false} OrderedAt(specs: seq<MetricSpec>, samples: seq<Sample>, n: nat)
    requires Ordered(specs, samples) && n < |samples|
    ensures SampleOk(specs, samples[n]) && (n > 0 ==> MayFollow(samples[n - 1], samples[n]))
    decreases |samples|
  {
    if n < |samples| - 1 {
      OrderedAt(specs, samples[..|samples| - 1], n);
    }
  }

  /** One to 32 metrics with different names and priorities below 32. */
  ghost predicate SpecsGiven(specs: seq<MetricSpec>) {
    && 0 < |specs| <= 32
    && (forall i, j :: 0 <= i < |specs| && 0 <= j < |specs| && specs[i].category == specs[j].category ==> i == j)
    && (forall spec :: spec in specs ==> spec.priority <= 31)
  }

  /**
   At most 4096 samples, each of known metrics and at a time that is not negative; time does not go back,
   cancellation is not taken back, and nothing follows a terminal sample.
   */
  ghost predicate SamplesGiven(specs: seq<MetricSpec>, samples: seq<Sample>) {
    && |samples| <= 4096
    && (forall n :: 0 <= n < |samples| ==> samples[n].timestamp >= 0.0)
    && (forall n, c :: 0 <= n < |samples| && c in samples[n].values ==> exists i :: 0 <= i < |specs| && specs[i].category == c)
    && (forall m, n :: 0 <= m < n < |samples| && n == m + 1 ==>
          && samples[m].timestamp <= samples[n].timestamp && !samples[m].terminal
          && (samples[m].cancelled ==> samples[n].cancelled))
  }

  lemma SpecsMean(specs: seq<MetricSpec>)
    ensures SpecsOk(specs) <==> SpecsGiven(specs)
  {
    assert forall i :: 0 <= i < |specs| ==> specs[i] in specs;
  }

  lemma SampleMeans(specs: seq<MetricSpec>, sample: Sample)
    ensures SampleOk(specs, sample) <==>
            && sample.timestamp >= 0.0
            && forall c :: c in sample.values ==> exists i :: 0 <= i < |specs| && specs[i].category == c
  {
    forall c ensures c in Categories(specs) <==> exists i :: 0 <= i < |specs| && specs[i].category == c {
    }
  }

  lemma {:induction false} OrderedMeans(specs: seq<MetricSpec>, samples: seq<Sample>)
    ensures Ordered(specs, samples) <==>
            && (forall n :: 0 <= n < |samples| ==> SampleOk(specs, samples[n]))
            && (forall m, n :: 0 <= m < n < |samples| && n == m + 1 ==> MayFollow(samples[m], samples[n]))
    decreases |samples|
  {
    if samples != [] {
      var rest := samples[..|samples| - 1];
      OrderedMeans(specs, rest);
      assert forall n :: 0 <= n < |rest| ==> rest[n] == samples[n];
      if Ordered(specs, samples) {
        forall n | 0 <= n < |samples| ensures SampleOk(specs, samples[n]) {
          assert n < |rest| ==> SampleOk(specs, rest[n]);
        }
        forall m, n | 0 <= m < n < |samples| && n == m + 1 ensures MayFollow(samples[m], samples[n]) {
          assert n < |rest| ==> MayFollow(rest[m], rest[n]);
        }
      }
    }
  }

  lemma SamplesMean(specs: seq<MetricSpec>, samples: seq<Sample>)
    ensures SamplesOk(specs, samples) <==> SamplesGiven(specs, samples)
  {
    OrderedMeans(specs, samples);
    forall n | 0 <= n < |samples|
      ensures SampleOk(specs, samples[n]) <==>
              && samples[n].timestamp >= 0.0
              && forall c :: c in samples[n].values ==> exists i :: 0 <= i < |specs| && specs[i].category == c
    {
      SampleMeans(specs, samples[n]);
    }
  }

  predicate OperationChar(c: char) {
    LowerOrDigit(c) || c == '_' || c == '.'
  }

  /** `[a-z][a-z0-9_.]{0,127}` */
  predicate OperationOk(operation: Option<string>) {
    operation.Some? ==>
      && 1 <= |operation.value| <= 128 && Lower(operation.value[0])
      && forall i :: 1 <= i < |operation.value| ==> OperationChar(operation.value[i])
  }

  const OPERATION_SET := ALNUM + {'_', '.'}

  /** An operation has at most 128 characters and starts with a letter. */
  lemma OperationMeans(operation: string)
    ensures OperationOk(Some(operation)) <==>
            0 < |operation| <= 128 && operation[0] in LOWER && Over(operation, OPERATION_SET)
  {
    if operation != "" {
      forall c
        ensures Lower(c) <==> c in LOWER
        ensures OperationChar(c) <==> c in OPERATION_SET
      {
        LettersMean(c);
      }
      LedOver(operation, Lower, LOWER, OperationChar, OPERATION_SET);
    }
  }

  /** The checks of `observe`, in order. */
  function Rejection(specs: seq<MetricSpec>, terminalSeen: bool, last: Option<real>, sample: Sample,
                     operation: Option<string>): Option<ThresholdError> {
    if terminalSeen then Some(TerminalAlreadySeen)
    else if !SampleOk(specs, sample) then Some(InvalidSample)
    else if last.Some? && sample.timestamp < last.value then Some(TimestampRegressed)
    else if !OperationOk(operation) then Some(InvalidOperation)
    else None
  }

  /** A sample is rejected for the first rule it breaks, and accepted if it breaks none. */
  lemma RejectionMeans(specs: seq<MetricSpec>, terminalSeen: bool, last: Option<real>, sample: Sample,
                       operation: Option<string>)
    ensures
      var r := Rejection(specs, terminalSeen, last, sample, operation);
      var known := sample.timestamp >= 0.0 &&
                   forall c :: c in sample.values ==> exists i :: 0 <= i < |specs| && specs[i].category == c;
      var onTime := forall t :: last == Some(t) ==> t <= sample.timestamp;
      && (r == Some(TerminalAlreadySeen) <==> terminalSeen)
      && (r == Some(InvalidSample) <==> !terminalSeen && !known)
      && (r == Some(TimestampRegressed) <==> !terminalSeen && known && !onTime)
      && (r == Some(InvalidOperation) <==> !terminalSeen && known && onTime && !OperationOk(operation))
      && (r.None? <==> !terminalSeen && known && onTime && OperationOk(operation))
  {
    SampleMeans(specs, sample);
  }

  /** The stop a caller acts on: the primary metric with the data of its first crossing. */
  ghost predicate IsStop(specs: seq<MetricSpec>, h: History, stop: ActionableStop) {
    exists i: nat, k: nat ::
      && i < |specs| && StopsAt(specs[i], h, k) && LeastStop(specs, h, i, k)
      && stop == StopFor(specs[i], h[k])
  }

  function StopFor(spec: MetricSpec, o: Obs): ActionableStop
    requires Observed(spec, o)
  {
    ActionableStop(spec.category, o.sample.timestamp, ValueAt(spec, o).value, if o.exact then o.operation else None)
  }

  /** What a stop says: the winning metric, with the time, the reading and the exactly known operation of its sample. */
  lemma StopMeans(specs: seq<MetricSpec>, h: History, stop: ActionableStop)
    requires Accepted(h) && IsStop(specs, h, stop)
    ensures exists i: nat, k: nat ::
      && WinsAt(specs, h, i, k) && stop.category == specs[i].category && stop.timestamp == h[k].sample.timestamp
      && Reads(specs[i], h[k], stop.value) && Past(specs[i], stop.value)
      && (h[k].exact ==> stop.operation == h[k].operation) && (!h[k].exact ==> stop.operation == None)
  {
    var i: nat, k: nat :| i < |specs| && StopsAt(specs[i], h, k) && LeastStop(specs, h, i, k) &&
                          stop == StopFor(specs[i], h[k]);
    assert IsPrimary(specs, h, i);
    var m := PrimaryWins(specs, h, i);
    AllPastIsCrossing();
    assert PastAt(specs[i], h[m]);
    assert Crosses(specs[i], h[m]) && m == k;
  }

  /** An online stop names the primary metric of every longer accepted history, with the same data. */
  lemma StopStable(specs: seq<MetricSpec>, h: History, h': History, stop: ActionableStop)
    requires h <= h' && Accepted(h') && IsStop(specs, h, stop)
    ensures IsStop(specs, h', stop)
  {
    var i: nat, k: nat :| i < |specs| && StopsAt(specs[i], h, k) && LeastStop(specs, h, i, k) &&
                          stop == StopFor(specs[i], h[k]);
    PrimaryStable(specs, h, h', i);
    var m: nat :| StopsAt(specs[i], h', m) && LeastStop(specs, h', i, m);
    FirstCrossingExtends(specs[i], h, h', k);
    assert m == k && h'[k] == h[k];
  }

  lemma StopUnique(specs: seq<MetricSpec>, h: History, a: ActionableStop, b: ActionableStop)
    requires IsStop(specs, h, a) && IsStop(specs, h, b)
    ensures a == b
  {
    var i: nat, k: nat :| i < |specs| && StopsAt(specs[i], h, k) && LeastStop(specs, h, i, k) &&
                          a == StopFor(specs[i], h[k]);
    var j: nat, m: nat :| j < |specs| && StopsAt(specs[j], h, m) && LeastStop(specs, h, j, m) &&
                          b == StopFor(specs[j], h[m]);
    PrimaryUnique(specs, h, i, j);
  }

  /** The argmin over the metrics looked at so far. */
  ghost predicate LeastSoFar(specs: seq<MetricSpec>, h: History, n: nat, best: Option<(nat, nat)>)
    requires n <= |specs|
  {
    match best
    case None => forall j: nat, m: nat :: j < n ==> !StopsAt(specs[j], h, m)
    case Some((i, k)) =>
      && i < n && StopsAt(specs[i], h, k)
      && forall j: nat, m: nat :: j < n && j != i && StopsAt(specs[j], h, m) ==>
           KeyLess(KeyAt(specs[i], h, k), KeyAt(specs[j], h, m))
  }

  /** One more metric that does not stop, or stops at sample `k` and wins or loses against the best. */
  lemma LeastStep(specs: seq<MetricSpec>, h: History, n: nat, best: Option<(nat, nat)>, here: Option<nat>)
    requires n < |specs| && UniqueCategories(specs) && LeastSoFar(specs, h, n, best)
    requires here.Some? ==> StopsAt(specs[n], h, here.value)
    requires forall m: nat :: StopsAt(specs[n], h, m) ==> here == Some(m)
    ensures LeastSoFar(specs, h, n + 1,
      if here.None? then best
      else if best.None? || KeyLess(KeyAt(specs[n], h, here.value), KeyAt(specs[best.value.0], h, best.value.1))
      then Some((n, here.value)) else best)
  {
    if here.Some? && best.Some? {
      var (i, k) := best.value;
      var a, b := KeyAt(specs[n], h, here.value), KeyAt(specs[i], h, k);
      KeyOrder(a, b);
      if KeyLess(a, b) {
        forall j: nat, m: nat | j < n && StopsAt(specs[j], h, m) ensures KeyLess(a, KeyAt(specs[j], h, m)) {
          if j != i {
            KeyTransitive(a, b, KeyAt(specs[j], h, m));
          }
        }
      } else {
        assert specs[i].category != specs[n].category;
      }
    }
  }

  class IncrementalThresholdMonitor {
    const specs: seq<MetricSpec>
    const states: seq<MetricState>
    var sampleCount: nat
    var lastTimestamp: Option<real>
    var cancellationStarted: bool
    var terminalSeen: bool
    var stop: Option<ActionableStop>
    ghost var history: History

    ghost predicate StatesOk()
      reads this, states
    {
      && |states| == |specs| && UniqueCategories(specs)
      && (forall i, j :: 0 <= i < j < |states| ==> states[i] != states[j])
      && (forall i :: 0 <= i < |states| ==> states[i].spec == specs[i])
      && (forall i :: 0 <= i < |states| ==> states[i].View() == Fold(specs[i], history))
    }

    ghost predicate ClockOk()
      reads this
    {
      && Accepted(history) && sampleCount == |history|
      && (history == [] ==> !terminalSeen)
      && (history != [] ==>
            var last := history[|history| - 1].sample;
            && lastTimestamp.Some? && last.timestamp <= lastTimestamp.value
            && (last.cancelled ==> cancellationStarted) && terminalSeen == last.terminal)
    }

    ghost predicate StopOk()
      reads this
    {
      if stop.None? then NoStop(specs, history) else IsStop(specs, history, stop.value)
    }

    ghost predicate Valid()
      reads this, states
    {
      StatesOk() && ClockOk() && StopOk()
    }

    constructor (specs: seq<MetricSpec>)
      requires SpecsOk(specs)
      ensures Valid() && history == [] && this.specs == specs && fresh(states)
      ensures lastTimestamp.None? && !cancellationStarted
    {
      var built: seq<MetricState> := [];
      for i := 0 to |specs|
        invariant |built| == i && fresh(built)
        invariant forall k :: 0 <= k < i ==> built[k].spec == specs[k] && built[k].View() == EMPTY
        invariant forall k, l :: 0 <= k < l < i ==> built[k] != built[l]
      {
        var state := new MetricState(specs[i]);
        built := built + [state];
      }
      this.specs, states := specs, built;
      sampleCount, lastTimestamp, cancellationStarted, terminalSeen, stop, history := 0, None, false, false, None, [];
    }

    /** `_primary_stop`: the metric whose first crossing before cancellation has the least key. */
    method PrimaryStop() returns (best: Option<(nat, nat)>)
      requires StatesOk() && Accepted(history)
      ensures LeastSoFar(specs, history, |specs|, best)
    {
      best := None;
      for n := 0 to |states|
        invariant LeastSoFar(specs, history, n, best)
      {
        var state := states[n];
        TimingAgrees(specs[n], history);
        FoldCrossing(specs[n], history);
        var here := None;
        if state.timing == BeforeCancellation {
          here := state.firstSample;
        }
        LeastStep(specs, history, n, best, here);
        if here.Some? {
          if best.None? {
            best := Some((n, here.value));
          } else {
            var rival := states[best.value.0];
            FoldCrossing(specs[best.value.0], history);
            TimingAgrees(specs[best.value.0], history);
            if KeyLess(StopKey(state.firstTimestamp.value, here.value, specs[n].priority, specs[n].category),
                       StopKey(rival.firstTimestamp.value, rival.firstSample.value, rival.spec.priority,
                               rival.spec.category)) {
              best := Some((n, here.value));
            }
          }
        }
      }
    }

    /**
     A rejected sample changes nothing. An accepted one is appended with the latched cancellation
     flag; a stop once chosen stays, and none appears after cancellation has started without one.
     */
    method Observe(sample: Sample, operation: Option<string>, exact: bool)
      returns (r: Result<Option<ActionableStop>, ThresholdError>)
      requires Valid()
      modifies this, states
      ensures Valid()
      ensures
        var why := Rejection(specs, old(terminalSeen), old(lastTimestamp), sample, operation);
        if why.Some? then r == Failure(why.value) else r.Success?
      ensures r.Failure? ==> unchanged(this) && forall s <- states :: unchanged(s)
      ensures r.Success? ==>
        && history == old(history) + [Obs(sample.(cancelled := cancellationStarted), operation, exact)]
        && cancellationStarted == (old(cancellationStarted) || sample.cancelled)
        && lastTimestamp == Some(sample.timestamp) && r.value == stop
      ensures old(stop).Some? ==> stop == old(stop)
      ensures old(stop).None? && old(cancellationStarted) ==> stop.None?
    {
      var why := Rejection(specs, terminalSeen, lastTimestamp, sample, operation);
      if why.Some? {
        return Failure(why.value);
      }
      var o := Obs(sample.(cancelled := cancellationStarted || sample.cancelled), operation, exact);
      AcceptedSnoc(history, o);
      Append(o);
      return Success(stop);
    }

    method Append(o: Obs)
      requires Valid() && Accepted(history + [o]) && (cancellationStarted ==> o.sample.cancelled)
      modifies this, states
      ensures Valid() && history == old(history) + [o]
      ensures cancellationStarted == o.sample.cancelled && lastTimestamp == Some(o.sample.timestamp)
      ensures old(stop).Some? ==> stop == old(stop)
      ensures old(stop).None? && o.sample.cancelled ==> stop.None?
    {
      ghost var h, before := history, stop;
      ObserveStates(o);
      assert stop == before;
      AdvanceClock(o);
      assert h <= history;
      SelectActionableStop(h);
    }

    method ObserveStates(o: Obs)
      requires StatesOk() && sampleCount == |history|
      modifies this`history, states
      ensures StatesOk() && history == old(history) + [o]
    {
      for i := 0 to |states|
        modifies states
        invariant forall k :: 0 <= k < i ==> states[k].View() == Fold(specs[k], history + [o])
        invariant forall k :: i <= k < |states| ==> states[k].View() == Fold(specs[k], history)
      {
        states[i].Observe(o, sampleCount);
        FoldSnoc(specs[i], history, o);
      }
      history := history + [o];
    }

    method AdvanceClock(o: Obs)
      requires Accepted(history) && history != [] && sampleCount + 1 == |history| && history[sampleCount] == o
      modifies this`sampleCount, this`lastTimestamp, this`cancellationStarted, this`terminalSeen
      ensures ClockOk()
      ensures cancellationStarted == o.sample.cancelled && lastTimestamp == Some(o.sample.timestamp)
    {
      sampleCount := sampleCount + 1;
      lastTimestamp := Some(o.sample.timestamp);
      cancellationStarted := o.sample.cancelled;
      terminalSeen := o.sample.terminal;
    }

    /** `h` is the history before the sample just appended. */
    method SelectActionableStop(ghost h: History)
      requires StatesOk() && ClockOk() && h <= history
      requires if stop.None? then NoStop(specs, h) else IsStop(specs, h, stop.value)
      modifies this`stop
      ensures Valid()
      ensures old(stop).Some? ==> stop == old(stop)
      ensures old(stop).None? && (forall i :: |h| <= i < |history| ==> history[i].sample.cancelled) ==> stop.None?
    {
      var chosen := ChooseStop(h);
      stop := chosen;
    }

    /** A stop already selected stands; otherwise the current one, of which cancellation allows none. */
    method ChooseStop(ghost h: History) returns (r: Option<ActionableStop>)
      requires StatesOk() && Accepted(history) && h <= history
      requires if stop.None? then NoStop(specs, h) else IsStop(specs, h, stop.value)
      ensures if r.None? then NoStop(specs, history) else IsStop(specs, history, r.value)
      ensures stop.Some? ==> r == stop
      ensures stop.None? && (forall i :: |h| <= i < |history| ==> history[i].sample.cancelled) ==> r.None?
    {
      if stop.Some? {
        StopStable(specs, h, history, stop.value);
        return stop;
      }
      if forall n :: |h| <= n < |history| ==> history[n].sample.cancelled {
        NoStopAfterCancellation(specs, h, history);
      }
      r := CurrentStop();
    }

    /** The stop for the metric that `_primary_stop` names, built from that metric's state. */
    method CurrentStop() returns (r: Option<ActionableStop>)
      requires StatesOk() && Accepted(history)
      ensures if r.None? then NoStop(specs, history) else IsStop(specs, history, r.value)
      ensures NoStop(specs, history) ==> r.None?
    {
      var best := PrimaryStop();
      if best.None? {
        return None;
      }
      var (i, k) := best.value;
      assert LeastStop(specs, history, i, k);
      FoldCrossing(specs[i], history);
      var state := states[i];
      assert state.firstSample == Some(k);
      return Some(ActionableStop(state.spec.category, state.firstTimestamp.value, state.firstValue.value,
                                 state.firstOperation));
    }

    method MarkCancellationStarted(offset: real) returns (r: Option<ThresholdError>)
      requires Valid()
      modifies this`cancellationStarted, this`lastTimestamp
      ensures Valid() && (r.Some? <==> old(lastTimestamp).Some? && offset < old(lastTimestamp).value)
      ensures r.Some? ==> r.value == InvalidOffset
      ensures r.Some? ==> unchanged(this)
      ensures r.None? ==> cancellationStarted && lastTimestamp == Some(offset)
    {
      if lastTimestamp.Some? && offset < lastTimestamp.value {
        return Some(InvalidOffset);
      }
      cancellationStarted := true;
      lastTimestamp := Some(offset);
      return None;
    }

    /** The category `finalize` reports: the stop recorded online. */
    function FinalCategory(): Option<string>
      reads this
    {
      if stop.Some? then Some(stop.value.category) else None
    }

    /** `legacy_evaluation` recomputes the argmin over the final states and agrees with `finalize`. */
    method LegacyCategory() returns (r: Option<string>)
      requires Valid()
      ensures r == FinalCategory()
      ensures r.None? <==> NoStop(specs, history)
      ensures r.Some? ==> exists i: nat :: IsPrimary(specs, history, i) && r.value == specs[i].category
    {
      var current := CurrentStop();
      if current.None? {
        return None;
      }
      if stop.Some? {
        StopUnique(specs, history, stop.value, current.value);
      }
      return Some(current.value.category);
    }
  }

  function BatchHistory(samples: seq<Sample>): History {
    seq(|samples|, i requires 0 <= i < |samples| => Obs(samples[i], None, true))
  }

  /** The monitor has taken exactly the first `n` samples. */
  ghost predicate Tracks(monitor: IncrementalThresholdMonitor, samples: seq<Sample>, n: nat)
    reads monitor
  {
    && n <= |samples| && monitor.history == BatchHistory(samples)[..n]
    && (n == 0 ==> monitor.lastTimestamp.None? && !monitor.cancellationStarted)
    && (n > 0 ==> monitor.lastTimestamp == Some(samples[n - 1].timestamp))
    && (n > 0 ==> monitor.cancellationStarted == samples[n - 1].cancelled)
    && (n > 0 ==> monitor.terminalSeen == samples[n - 1].terminal)
  }

  method FeedBatch(monitor: IncrementalThresholdMonitor, samples: seq<Sample>, n: nat)
    requires monitor.Valid() && n < |samples| && Tracks(monitor, samples, n) && Ordered(monitor.specs, samples)
    modifies monitor, monitor.states
    ensures monitor.Valid() && Tracks(monitor, samples, n + 1)
  {
    OrderedAt(monitor.specs, samples, n);
    assert BatchHistory(samples)[..n + 1] == BatchHistory(samples)[..n] + [Obs(samples[n], None, true)];
    var stop := monitor.Observe(samples[n], None, true);
  }

  method FeedAll(monitor: IncrementalThresholdMonitor, samples: seq<Sample>)
    requires monitor.Valid() && monitor.history == [] && Ordered(monitor.specs, samples)
    requires monitor.lastTimestamp.None? && !monitor.cancellationStarted
    modifies monitor, monitor.states
    ensures monitor.Valid() && monitor.history == BatchHistory(samples)
  {
    for n := 0 to |samples|
      invariant monitor.Valid() && Tracks(monitor, samples, n)
    {
      FeedBatch(monitor, samples, n);
    }
    assert BatchHistory(samples)[..|samples|] == BatchHistory(samples);
  }

  /** The batch entry point reports the primary metric of the sample list itself. */
  method EvaluateThresholds(specs: seq<MetricSpec>, samples: seq<Sample>)
    returns (r: Result<Option<string>, ThresholdError>)
    ensures r.Success? <==> SpecsGiven(specs) && SamplesGiven(specs, samples)
    ensures r.Failure? ==> r.error == if SpecsGiven(specs) then InvalidSamples else InvalidSpecs
    ensures r.Success? && r.value.None? ==> NoStop(specs, BatchHistory(samples))
    ensures r.Success? && r.value.Some? ==>
      exists i: nat :: IsPrimary(specs, BatchHistory(samples), i) && r.value.value == specs[i].category
    ensures r.Success? && r.value.None? ==> NeverPast(specs, BatchHistory(samples))
    ensures r.Success? && r.value.Some? ==>
      exists i: nat, k: nat :: WinsAt(specs, BatchHistory(samples), i, k) && r.value.value == specs[i].category
  {
    SpecsMean(specs);
    SamplesMean(specs, samples);
    if !SpecsOk(specs) {
      return Failure(InvalidSpecs);
    }
    if !SamplesOk(specs, samples) {
      return Failure(InvalidSamples);
    }
    var monitor := new IncrementalThresholdMonitor(specs);
    FeedAll(monitor, samples);
    var category := monitor.LegacyCategory();
    NoStopIff(specs, monitor.history);
    if category.Some? {
      ghost var i: nat :| IsPrimary(specs, monitor.history, i) && category.value == specs[i].category;
      ghost var k := PrimaryWins(specs, monitor.history, i);
    }
    return Success(category);
  }
}
