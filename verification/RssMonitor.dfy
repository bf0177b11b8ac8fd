/**
 The process memory monitor (tools/process_rss_monitor.py): `ProcessRssRetention` keeps the first
 crossing and the maxima before and after the one signal; `ProcessRssMonitor.run` samples until the
 process has exited. The process, its reader and the clock are a trace of which nothing is assumed.
 */
module RssMonitor {
  import opened Wrappers

  datatype Observation = Observation(timestamp: real, rss: Option<int>, readerError: bool, terminal: bool)

  type History = seq<Observation>

  // ----- direct definitions over a history

  function Larger(a: Option<int>, b: Option<int>): Option<int> {
    if a.None? then b else if b.None? then a else if a.value < b.value then b else a
  }

  /** The largest reading. */
  function MaxOf(h: History): Option<int> {
    if h == [] then None else Larger(MaxOf(h[..|h| - 1]), h[|h| - 1].rss)
  }

  function CountValid(h: History): nat {
    if h == [] then 0 else CountValid(h[..|h| - 1]) + if h[|h| - 1].rss.Some? then 1 else 0
  }

  function CountMissing(h: History): nat {
    if h == [] then 0 else CountMissing(h[..|h| - 1]) + if h[|h| - 1].rss.Some? then 0 else 1
  }

  function CountErrors(h: History): nat {
    if h == [] then 0 else CountErrors(h[..|h| - 1]) + if h[|h| - 1].readerError then 1 else 0
  }

  predicate Reaches(o: Observation, limit: int) {
    o.rss.Some? && o.rss.value >= limit
  }

  /** The index of the first reading at or above the limit, or the length. */
  function FirstCrossing(h: History, limit: int): (k: nat)
    ensures k <= |h|
    ensures k < |h| ==> Reaches(h[k], limit)
    ensures forall i :: 0 <= i < k ==> !Reaches(h[i], limit)
  {
    if h == [] then 0
    else
      var k := FirstCrossing(h[..|h| - 1], limit);
      if k < |h| - 1 || Reaches(h[|h| - 1], limit) then k else |h|
  }

  predicate Acceptable(o: Observation, last: Option<real>) {
    && o.timestamp >= 0.0 && (last.Some? ==> o.timestamp > last.value)
    && (o.rss.Some? ==> o.rss.value >= 0 && !o.readerError)
  }

  function LastTime(h: History): Option<real> {
    if h == [] then None else Some(h[|h| - 1].timestamp)
  }

  /** Timestamps not negative and strictly increasing, readings not negative. */
  predicate Accepted(h: History) {
    h == [] || (Accepted(h[..|h| - 1]) && Acceptable(h[|h| - 1], LastTime(h[..|h| - 1])))
  }

  lemma Snoc(h: History, o: Observation, limit: int)
    ensures MaxOf(h + [o]) == Larger(MaxOf(h), o.rss)
    ensures CountValid(h + [o]) == CountValid(h) + if o.rss.Some? then 1 else 0
    ensures CountMissing(h + [o]) == CountMissing(h) + if o.rss.Some? then 0 else 1
    ensures TerminalSample(h + [o]) == if o.terminal then o.rss else TerminalSample(h)
    ensures CountErrors(h + [o]) == CountErrors(h) + if o.readerError then 1 else 0
    ensures FirstCrossing(h + [o], limit) == (
      if FirstCrossing(h, limit) < |h| || Reaches(o, limit) then FirstCrossing(h, limit) else |h| + 1)
    ensures Accepted(h + [o]) <==> Accepted(h) && Acceptable(o, LastTime(h))
  {
    assert (h + [o])[..|h|] == h;
  }

  /** The overall maximum is the larger of the maxima on both sides of any cut. */
  lemma {:induction false} MaxSplits(a: History, b: History)
    ensures MaxOf(a + b) == Larger(MaxOf(a), MaxOf(b))
    decreases |b|
  {
    if b == [] {
      assert a + b == a;
    } else {
      var c, o := b[..|b| - 1], b[|b| - 1];
      assert a + b == (a + c) + [o] && b == c + [o];
      MaxSplits(a, c);
      Snoc(a + c, o, 0);
      Snoc(c, o, 0);
    }
  }

  /** The maximum is a reading, and no reading is larger. */
  lemma {:induction false} MaxIsMax(h: History)
    ensures MaxOf(h).None? <==> forall i :: 0 <= i < |h| ==> h[i].rss.None?
    ensures MaxOf(h).Some? ==> (exists i :: 0 <= i < |h| && h[i].rss == MaxOf(h))
    ensures MaxOf(h).Some? ==> forall i :: 0 <= i < |h| && h[i].rss.Some? ==> h[i].rss.value <= MaxOf(h).value
    decreases |h|
  {
    if h != [] {
      var r := h[..|h| - 1];
      MaxIsMax(r);
      if MaxOf(h) == MaxOf(r) && MaxOf(r).Some? {
        var i :| 0 <= i < |r| && r[i].rss == MaxOf(r);
        assert h[i].rss == MaxOf(h);
      }
    }
  }

  datatype Timing = NoCrossing | BeforeSignal | TerminalOnly

  datatype Summary = Summary(
    firstBytes: Option<int>, firstTime: Option<real>, timing: Timing, maximum: Option<int>,
    maximumPre: Option<int>, maximumPost: Option<int>, terminalSample: Option<int>,
    validSamples: nat, missingSamples: nat, readerErrors: nat, signalSent: bool)

  /** What the retained fields must be after a history with the signal marked after `cut` samples. */
  function Direct(h: History, cut: Option<nat>, limit: int): Summary
    requires cut.Some? ==> cut.value <= |h|
  {
    var k := FirstCrossing(h, limit);
    var c := if cut.Some? then cut.value else |h|;
    Summary(if k < |h| then h[k].rss else None,
            if k < |h| then Some(h[k].timestamp) else None,
            if k == |h| then NoCrossing else if h[k].terminal then TerminalOnly else BeforeSignal,
            MaxOf(h), MaxOf(h[..c]), MaxOf(h[c..]), TerminalSample(h),
            CountValid(h), CountMissing(h), CountErrors(h), cut.Some?)
  }

  /** The reading of the latest terminal sample. */
  function TerminalSample(h: History): Option<int> {
    if h == [] then None
    else if h[|h| - 1].terminal then h[|h| - 1].rss
    else TerminalSample(h[..|h| - 1])
  }

  /** Valid and missing samples account for every sample. */
  lemma {:induction false} SamplesConserved(h: History)
    ensures CountValid(h) + CountMissing(h) == |h|
    ensures Accepted(h) ==> CountErrors(h) <= CountMissing(h)
    decreases |h|
  {
    if h != [] {
      SamplesConserved(h[..|h| - 1]);
    }
  }

  /** One sample's effect on the retained fields. */
  function Next(s: Summary, o: Observation, limit: int): Summary {
    var crosses := Reaches(o, limit) && s.firstBytes.None?;
    s.(validSamples := s.validSamples + if o.rss.Some? then 1 else 0,
       missingSamples := s.missingSamples + if o.rss.Some? then 0 else 1,
       readerErrors := s.readerErrors + if o.readerError then 1 else 0,
       maximum := Larger(s.maximum, o.rss),
       maximumPre := if s.signalSent then s.maximumPre else Larger(s.maximumPre, o.rss),
       maximumPost := if s.signalSent then Larger(s.maximumPost, o.rss) else s.maximumPost,
       terminalSample := if o.terminal then o.rss else s.terminalSample,
       firstBytes := if crosses then o.rss else s.firstBytes,
       firstTime := if crosses then Some(o.timestamp) else s.firstTime,
       timing := if !crosses then s.timing else if o.terminal then TerminalOnly else BeforeSignal)
  }

  lemma CutSnoc(h: History, o: Observation, c: nat)
    requires c <= |h|
    ensures (h + [o])[..c] == h[..c] && (h + [o])[c..] == h[c..] + [o]
  {
  }

  /** Keeping the fields sample by sample gives their direct definitions. */
  lemma DirectSnoc(h: History, o: Observation, cut: Option<nat>, limit: int)
    requires cut.Some? ==> cut.value <= |h|
    ensures Direct(h + [o], cut, limit) == Next(Direct(h, cut, limit), o, limit)
  {
    Snoc(h, o, limit);
    if cut.Some? {
      CutSnoc(h, o, cut.value);
      Snoc(h[cut.value..], o, limit);
    } else {
      assert (h + [o])[..|h| + 1] == h + [o] && h[..|h|] == h;
      assert (h + [o])[|h| + 1..] == [] && h[|h|..] == [];
    }
    var k := FirstCrossing(h, limit);
    assert k < |h| ==> (h + [o])[k] == h[k];
    assert (h + [o])[|h|] == o;
  }

  class ProcessRssRetention {
    const limit: int
    var lastTimestamp: Option<real>
    var firstBytes: Option<int>
    var firstTime: Option<real>
    var timing: Timing
    var maximum: Option<int>
    var maximumPre: Option<int>
    var maximumPost: Option<int>
    var terminalSample: Option<int>
    var validSamples: nat
    var missingSamples: nat
    var readerErrors: nat
    var signalSent: bool
    ghost var history: History
    ghost var cut: Option<nat>

    function View(): Summary
      reads this
    {
      Summary(firstBytes, firstTime, timing, maximum, maximumPre, maximumPost, terminalSample,
              validSamples, missingSamples, readerErrors, signalSent)
    }

    ghost predicate Valid()
      reads this
    {
      && Accepted(history) && lastTimestamp == LastTime(history)
      && (cut.Some? ==> cut.value <= |history|)
      && View() == Direct(history, cut, limit)
    }

    constructor (limit: int)
      ensures Valid() && this.limit == limit && history == [] && cut == None
    {
      this.limit := limit;
      lastTimestamp, firstBytes, firstTime, timing := None, None, None, NoCrossing;
      maximum, maximumPre, maximumPost, terminalSample := None, None, None, None;
      validSamples, missingSamples, readerErrors, signalSent := 0, 0, 0, false;
      history, cut := [], None;
    }

    /** The bookkeeping of one accepted sample. */
    method Retain(o: Observation) returns (asks: bool)
      requires o.rss.Some? ==> !o.readerError
      modifies this
      ensures View() == Next(old(View()), o, limit) && lastTimestamp == Some(o.timestamp)
      ensures asks <==> Reaches(o, limit) && old(firstBytes).None? && !o.terminal && !old(signalSent)
      ensures history == old(history) && cut == old(cut)
    {
      lastTimestamp := Some(o.timestamp);
      if o.terminal {
        terminalSample := o.rss;
      }
      if o.rss.None? {
        missingSamples := missingSamples + 1;
        readerErrors := readerErrors + if o.readerError then 1 else 0;
        return false;
      }
      validSamples := validSamples + 1;
      maximum := Larger(maximum, o.rss);
      if signalSent {
        maximumPost := Larger(maximumPost, o.rss);
      } else {
        maximumPre := Larger(maximumPre, o.rss);
      }
      if o.rss.value < limit || firstBytes.Some? {
        return false;
      }
      firstBytes, firstTime := o.rss, Some(o.timestamp);
      timing := if o.terminal then TerminalOnly else BeforeSignal;
      return !o.terminal && !signalSent;
    }

    /** Refused samples change nothing; an accepted one asks for a signal exactly at the first actionable crossing. */
    method Observe(o: Observation) returns (r: Result<bool, ()>)
      requires Valid()
      modifies this
      ensures Valid() && cut == old(cut)
      ensures r.Success? <==> Acceptable(o, old(lastTimestamp))
      ensures r.Failure? ==> unchanged(this)
      ensures r.Success? ==> history == old(history) + [o]
      ensures r.Success? ==>
        (r.value <==> FirstCrossing(history, limit) == |old(history)| && Reaches(o, limit) && !o.terminal && cut.None?)
    {
      if !Acceptable(o, lastTimestamp) {
        return Failure(());
      }
      var asks := Retain(o);
      DirectSnoc(history, o, cut, limit);
      Snoc(history, o, limit);
      history := history + [o];
      return Success(asks);
    }

    method MarkSignalSent() returns (raised: bool)
      requires Valid()
      modifies this
      ensures Valid() && history == old(history)
      ensures raised <==> old(signalSent) || old(timing) != BeforeSignal
      ensures raised ==> unchanged(this)
      ensures !raised ==> cut == Some(|history|)
    {
      if signalSent || timing != BeforeSignal {
        return true;
      }
      assert history[..|history|] == history && history[|history|..] == [];
      signalSent := true;
      cut := Some(|history|);
      return false;
    }
  }

  // ----- a run

  datatype Reading = Value(bytes: int) | Nothing | Fails

  /** One turn of the loop: was the process gone, what did the reader give, what did the clock say. */
  datatype Poll = Poll(terminal: bool, reading: Reading, clock: real)

  function Observed(p: Poll, started: real): Observation {
    Observation(if p.clock - started < 0.0 then 0.0 else p.clock - started,
                if p.reading.Value? then Some(p.reading.bytes) else None, p.reading.Fails?, p.terminal)
  }

  function Observations(trace: seq<Poll>, started: real): History {
    seq(|trace|, i requires 0 <= i < |trace| => Observed(trace[i], started))
  }

  /** The number of turns up to and including the first that finds the process gone; the whole trace if none does. */
  function Turns(trace: seq<Poll>): (n: nat)
    ensures n <= |trace|
    ensures forall i :: 0 <= i < n - 1 ==> !trace[i].terminal
    ensures n == |trace| || (n > 0 && trace[n - 1].terminal)
  {
    if trace == [] then 0 else if trace[0].terminal then 1 else 1 + Turns(trace[1..])
  }

  predicate Exits(trace: seq<Poll>) {
    Turns(trace) > 0 && trace[Turns(trace) - 1].terminal
  }

  /** The turn that must signal: the first whose reading reaches the limit, unless it is the terminal one. */
  function SignalTurn(h: History, limit: int): Option<nat> {
    var k := FirstCrossing(h, limit);
    if k < |h| && !h[k].terminal then Some(k) else None
  }

  datatype Outcome = Finished(summary: Summary) | Errored | Running

  lemma ObservationsSnoc(trace: seq<Poll>, started: real, i: nat)
    requires i < |trace|
    ensures Observations(trace[..i + 1], started) == Observations(trace[..i], started) + [Observed(trace[i], started)]
  {
  }

  lemma {:induction false} AcceptedPrefix(h: History, n: nat)
    requires n <= |h| && Accepted(h)
    ensures Accepted(h[..n])
    decreases |h|
  {
    if n < |h| {
      AcceptedPrefix(h[..|h| - 1], n);
      assert h[..|h| - 1][..n] == h[..n];
    } else {
      assert h[..n] == h;
    }
  }

  /** One sample, and the signal if it asks for one; `asked` says whether the signal was sent. */
  method Turn(retention: ProcessRssRetention, o: Observation) returns (ok: bool, asked: bool)
    requires retention.Valid()
    modifies retention
    ensures retention.Valid() && (ok <==> Acceptable(o, old(retention.lastTimestamp)))
    ensures ok ==> retention.history == old(retention.history) + [o]
    ensures asked <==>
      && ok && old(retention.cut).None? && Reaches(o, retention.limit) && !o.terminal
      && FirstCrossing(old(retention.history), retention.limit) == |old(retention.history)|
    ensures retention.cut == if asked then Some(|retention.history|) else old(retention.cut)
  {
    asked := false;
    ghost var before := retention.history;
    var r := retention.Observe(o);
    if r.Failure? {
      return false, false;
    }
    Snoc(before, o, retention.limit);
    if r.value {
      assert retention.history[|before|] == o;
      var raised := retention.MarkSignalSent();
      asked := true;
    }
    return true, asked;
  }

  /** A turn together with the list of turns that signalled. */
  method CountedTurn(retention: ProcessRssRetention, o: Observation, turn: nat, signals: seq<nat>)
    returns (ok: bool, newSignals: seq<nat>)
    requires retention.Valid() && turn == |retention.history|
    requires Signalled(retention.history, retention.cut, signals, retention.limit)
    requires forall i :: 0 <= i < |retention.history| ==> !retention.history[i].terminal
    modifies retention
    ensures retention.Valid() && (ok <==> Acceptable(o, old(retention.lastTimestamp)))
    ensures ok ==> retention.history == old(retention.history) + [o]
    ensures ok ==> Signalled(retention.history, retention.cut, newSignals, retention.limit)
  {
    ghost var before, cut := retention.history, retention.cut;
    var asked;
    ok, asked := Turn(retention, o);
    newSignals := if asked then signals + [turn] else signals;
    if ok {
      SignalledSnoc(before, o, cut, signals, retention.limit, asked);
    }
  }

  ghost predicate Quiet(trace: seq<Poll>, n: nat) {
    n <= |trace| && forall j :: 0 <= j < n ==> !trace[j].terminal
  }

  lemma QuietHistory(trace: seq<Poll>, started: real, n: nat)
    requires Quiet(trace, n)
    ensures |Observations(trace[..n], started)| == n
    ensures forall i :: 0 <= i < n ==> !Observations(trace[..n], started)[i].terminal
  {
  }

  /** The sampling loop: `end` turns were taken, the last of them refused unless `ok`. */
  method Sample(retention: ProcessRssRetention, started: real, trace: seq<Poll>)
    returns (end: nat, ok: bool, signals: seq<nat>)
    requires retention.Valid() && retention.history == [] && retention.cut.None?
    modifies retention
    ensures retention.Valid() && end <= |trace|
    ensures ok ==>
      && retention.history == Observations(trace[..end], started)
      && Signalled(retention.history, retention.cut, signals, retention.limit)
      && (if end > 0 && trace[end - 1].terminal then Quiet(trace, end - 1) else end == |trace| && Quiet(trace, end))
    ensures !ok ==>
      && end > 0 && Quiet(trace, end - 1)
      && !Acceptable(Observed(trace[end - 1], started), LastTime(Observations(trace[..end - 1], started)))
  {
    end, ok, signals := 0, true, [];
    while end < |trace|
      invariant ok && Quiet(trace, end) && retention.Valid()
      invariant retention.history == Observations(trace[..end], started)
      invariant Signalled(retention.history, retention.cut, signals, retention.limit)
    {
      var o := Observed(trace[end], started);
      ObservationsSnoc(trace, started, end);
      QuietHistory(trace, started, end);
      ok, signals := CountedTurn(retention, o, end, signals);
      end := end + 1;
      if !ok || trace[end - 1].terminal {
        return;
      }
    }
  }

  /**
   A run over a trace. It finishes exactly when the process exits and every sample is acceptable;
   `signals` lists the turns at which the signal was sent.
   */
  method Run(limit: int, started: real, trace: seq<Poll>) returns (r: Outcome, signals: seq<nat>)
    ensures r.Finished? <==> limit >= 1 && Exits(trace) && Accepted(Observations(trace[..Turns(trace)], started))
    ensures r.Finished? ==>
      var h := Observations(trace[..Turns(trace)], started);
      var k := SignalTurn(h, limit);
      && signals == (if k.Some? then [k.value] else [])
      && r.summary == Direct(h, if k.Some? then Some(k.value + 1) else None, limit)
    ensures r.Running? <==> limit >= 1 && !Exits(trace) && Accepted(Observations(trace, started))
  {
    if limit < 1 {
      return Errored, [];
    }
    var retention := new ProcessRssRetention(limit);
    var end, ok;
    end, ok, signals := Sample(retention, started, trace);
    if end > 0 {
      TurnsAfter(trace, end - 1);
    }
    if !ok {
      Rejected(trace, started, end - 1);
      assert Turns(trace) == |trace| ==> trace[..Turns(trace)] == trace;
      return Errored, signals;
    }
    if end > 0 && trace[end - 1].terminal {
      return Finished(retention.View()), signals;
    }
    TurnsAll(trace);
    assert trace[..end] == trace;
    return Running, signals;
  }

  /** The signals so far: the turn that must signal, if it has been seen, and nothing else. */
  ghost predicate Signalled(h: History, cut: Option<nat>, signals: seq<nat>, limit: int) {
    var k := SignalTurn(h, limit);
    if k.Some? then signals == [k.value] && cut == Some(k.value + 1) else signals == [] && cut.None?
  }

  lemma SignalledSnoc(h: History, o: Observation, cut: Option<nat>, signals: seq<nat>, limit: int, asked: bool)
    requires Signalled(h, cut, signals, limit)
    requires forall i :: 0 <= i < |h| ==> !h[i].terminal
    requires asked <==> cut.None? && Reaches(o, limit) && !o.terminal && FirstCrossing(h, limit) == |h|
    ensures Signalled(h + [o], if asked then Some(|h| + 1) else cut, if asked then signals + [|h|] else signals, limit)
  {
    Snoc(h, o, limit);
    var k := FirstCrossing(h, limit);
    assert k < |h| ==> (h + [o])[k] == h[k];
    assert (h + [o])[|h|] == o;
  }

  lemma {:induction false} TurnsAfter(trace: seq<Poll>, i: nat)
    requires i < |trace| && forall j :: 0 <= j < i ==> !trace[j].terminal
    ensures Turns(trace) > i && (trace[i].terminal ==> Turns(trace) == i + 1)
    decreases i
  {
    if i > 0 {
      TurnsAfter(trace[1..], i - 1);
    }
  }

  lemma TurnsAll(trace: seq<Poll>)
    requires forall j :: 0 <= j < |trace| ==> !trace[j].terminal
    ensures !Exits(trace)
  {
  }

  lemma Rejected(trace: seq<Poll>, started: real, i: nat)
    requires i < Turns(trace)
    requires !Acceptable(Observed(trace[i], started), LastTime(Observations(trace[..i], started)))
    ensures !Accepted(Observations(trace[..Turns(trace)], started))
  {
    if Accepted(Observations(trace[..Turns(trace)], started)) {
      AcceptedAt(trace, started, i);
    }
  }

  lemma {:induction false} AcceptedAt(trace: seq<Poll>, started: real, i: nat)
    requires i < Turns(trace) && Accepted(Observations(trace[..Turns(trace)], started))
    ensures Acceptable(Observed(trace[i], started), LastTime(Observations(trace[..i], started)))
  {
    var h := Observations(trace[..Turns(trace)], started);
    AcceptedPrefix(h, i + 1);
    ObservationsSnoc(trace, started, i);
    assert h[..i + 1] == Observations(trace[..i + 1], started);
    Snoc(Observations(trace[..i], started), Observed(trace[i], started), 0);
  }

  // ----- what a finished run guarantees

  /** The overall maximum is the larger of the maxima before and after the signal, and samples are conserved. */
  lemma FinishedMaxima(h: History, limit: int, cut: Option<nat>)
    requires cut.Some? ==> cut.value <= |h|
    ensures
      var s := Direct(h, cut, limit);
      && s.maximum == Larger(s.maximumPre, s.maximumPost)
      && s.validSamples + s.missingSamples == |h|
  {
    var c := if cut.Some? then cut.value else |h|;
    assert h == h[..c] + h[c..];
    MaxSplits(h[..c], h[c..]);
    SamplesConserved(h);
  }

  /** A turn whose reading is at or above the limit. */
  predicate AtLimit(p: Poll, limit: int) {
    match p.reading
    case Value(bytes) => limit <= bytes
    case Nothing => false
    case Fails => false
  }

  /** In a finished run a signal is sent exactly when a reading before the exit is at the limit, at the first such. */
  lemma SignalIff(trace: seq<Poll>, started: real, limit: int)
    requires Exits(trace)
    ensures
      var end := Turns(trace);
      var k := SignalTurn(Observations(trace[..end], started), limit);
      && (k.Some? <==> exists i :: 0 <= i < end - 1 && AtLimit(trace[i], limit))
      && (k.Some? ==> k.value < end - 1 && AtLimit(trace[k.value], limit)
                      && forall i :: 0 <= i < k.value ==> !AtLimit(trace[i], limit))
  {
    var end := Turns(trace);
    var h := Observations(trace[..end], started);
    assert h[|h| - 1].terminal;
    forall i | 0 <= i < end ensures Reaches(h[i], limit) <==> AtLimit(trace[i], limit) {
      assert h[i] == Observed(trace[i], started);
    }
    var k := FirstCrossing(h, limit);
    assert forall i :: 0 <= i < end - 1 ==> !h[i].terminal;
  }

  /** A sample as the trace gives it: seconds since the start, never negative, and the reading if there was one. */
  lemma SampleMeans(trace: seq<Poll>, started: real, i: nat)
    requires i < |trace|
    ensures
      var o, p := Observations(trace, started)[i], trace[i];
      && (p.clock >= started ==> o.timestamp == p.clock - started) && (p.clock < started ==> o.timestamp == 0.0)
      && (forall b :: o.rss == Some(b) <==> p.reading == Value(b)) && (o.readerError <==> p.reading == Fails)
      && (o.terminal <==> p.terminal)
  {
  }

  /** What samples are accepted: times that are not negative and increase, readings that are not negative. */
  lemma {:induction false} AcceptedMeans(h: History)
    ensures Accepted(h) <==>
            && (forall i :: 0 <= i < |h| ==> h[i].timestamp >= 0.0)
            && (forall i, j :: 0 <= i < j < |h| ==> h[i].timestamp < h[j].timestamp)
            && (forall i, b :: 0 <= i < |h| && h[i].rss == Some(b) ==> b >= 0 && !h[i].readerError)
    decreases |h|
  {
    if h != [] {
      var r, o := h[..|h| - 1], h[|h| - 1];
      AcceptedMeans(r);
      assert forall i :: 0 <= i < |r| ==> r[i] == h[i];
      assert forall i :: 0 <= i < |h| ==> i < |r| || h[i] == o;
      if |r| > 0 {
        assert h[|h| - 2] == r[|r| - 1];
      }
    }
  }

  ghost function Indices(h: History, wanted: Observation -> bool): set<int> {
    set i | 0 <= i < |h| && wanted(h[i])
  }

  lemma {:induction false} CountsMean(h: History)
    ensures CountValid(h) == |Indices(h, (o: Observation) => o.rss.Some?)|
    ensures CountMissing(h) == |Indices(h, (o: Observation) => o.rss.None?)|
    ensures CountErrors(h) == |Indices(h, (o: Observation) => o.readerError)|
    decreases |h|
  {
    if h != [] {
      CountsMean(h[..|h| - 1]);
      IndicesGrow(h, (o: Observation) => o.rss.Some?);
      IndicesGrow(h, (o: Observation) => o.rss.None?);
      IndicesGrow(h, (o: Observation) => o.readerError);
    }
  }

  lemma IndicesGrow(h: History, wanted: Observation -> bool)
    requires h != []
    ensures |Indices(h, wanted)| == |Indices(h[..|h| - 1], wanted)| + if wanted(h[|h| - 1]) then 1 else 0
  {
    var last := |h| - 1;
    var added: set<int> := if wanted(h[last]) then {last} else {};
    assert Indices(h, wanted) == Indices(h[..last], wanted) + added;
  }

  /** The terminal sample is that of the last terminal observation. */
  lemma {:induction false} TerminalMeans(h: History, i: nat)
    requires i < |h| && h[i].terminal && forall j :: i < j < |h| ==> !h[j].terminal
    ensures TerminalSample(h) == h[i].rss
    decreases |h|
  {
    if i < |h| - 1 {
      TerminalMeans(h[..|h| - 1], i);
    }
  }

  /** The crossing a summary reports: the first reading at or above the limit, and whether it was the terminal one. */
  lemma SummaryCrossing(h: History, cut: Option<nat>, limit: int)
    requires cut.Some? ==> cut.value <= |h|
    ensures
      var s := Direct(h, cut, limit);
      && (s.firstBytes.None? <==> forall i, b :: 0 <= i < |h| && h[i].rss == Some(b) ==> b < limit)
      && (s.firstBytes.None? <==> s.timing == NoCrossing)
      && (s.firstBytes.Some? ==>
            exists k :: 0 <= k < |h| && h[k].rss == s.firstBytes && limit <= s.firstBytes.value &&
                        s.firstTime == Some(h[k].timestamp) &&
                        (s.timing == TerminalOnly <==> h[k].terminal) &&
                        forall i, b :: 0 <= i < k && h[i].rss == Some(b) ==> b < limit)
  {
    var k := FirstCrossing(h, limit);
    forall i, b | 0 <= i < |h| && h[i].rss == Some(b) ensures Reaches(h[i], limit) <==> limit <= b {
    }
  }
}
