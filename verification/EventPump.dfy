/**
 The event pump of the supervised refresh (tools/actual_refresh_event_pump.py): one consumer
 thread feeds a one-slot queue and a persistent first failure, while any number of other threads
 call `receive`, `take_failure` and `close`. Each step is one atomic action of the source: a
 queue operation, a locked block or a test of the closing flag.
 */
module EventPump {
  import opened Wrappers

  datatype Error = Eof(number: nat) | Other(number: nat)

  datatype Item = Activity | Failed(error: Error)

  /** Where the consumer thread stands. `Publishing` has entered the locked block still to come. */
  datatype Consumer =
    | Testing
    | Receiving
    | Announcing
    | Publishing(error: Error, late: bool)
    | Clearing(error: Error, late: bool)
    | Putting(error: Error, late: bool)
    | AwaitingEof
    | Finished

  datatype Outcome = Notified | Raised(error: Error) | TimedOut | Took(failure: Option<Error>)

  /**
   A caller of `take_failure` if `take`, else of `receive`; `warned` says a failure was recorded when the
   call began.
   */
  datatype Caller =
    | Entering(take: bool, warned: bool)
    | Getting(take: bool, warned: bool)
    | Expired(take: bool, warned: bool)
    | Rechecking(take: bool, warned: bool)
    | Ended(take: bool, warned: bool, outcome: Outcome)

  datatype State = State(
    first: Option<Error>, terminalEof: Option<Error>, queue: Option<Item>, closing: bool,
    consumer: Consumer, callers: map<nat, Caller>, putRefused: bool)

  const INITIAL := State(None, None, None, false, Testing, map[], false)

  datatype Action =
    | TestClosing
    | Frame
    | ReceiveTimesOut
    | ReceiveFails(error: Error)
    | HandlingRaises
    | PutActivity
    | Record
    | Clear
    | Put
    | LateRejected
    | LateEof(number: nat)
    | Call(r: nat, take: bool)
    | FirstCheck(r: nat)
    | Get(r: nat)
    | GetTimesOut(r: nat)
    | SecondCheck(r: nat)
    | Close

  /**
   The consumer thread's next action, when it is the one named. Before an early failure that is no end
   of file is published, it is entered in the causality ledger and handed to the failure handler; when
   either raises, the thread ends without publishing.
   */
  function ApplyConsumer(s: State, a: Action): State {
    match (s.consumer, a)
    case (Testing, TestClosing) => s.(consumer := if s.closing then Finished else Receiving)
    case (Receiving, Frame) => s.(consumer := Announcing)
    case (Receiving, ReceiveTimesOut) => s.(consumer := Testing)
    case (Receiving, ReceiveFails(e)) =>
      if s.closing then s.(consumer := Finished) else s.(consumer := Publishing(e, false))
    case (Announcing, PutActivity) =>
      s.(consumer := Testing, queue := if s.queue.None? then Some(Activity) else s.queue)
    case (Publishing(e, late), HandlingRaises) => if late || e.Eof? then s else s.(consumer := Finished)
    case (Publishing(e, late), Record) =>
      s.(first := if s.first.None? then Some(e) else s.first,
         terminalEof := if e.Eof? then Some(e) else s.terminalEof,
         consumer := if s.first.None? then Clearing(e, late) else After(e, late))
    case (Clearing(e, late), Clear) => s.(queue := None, consumer := Putting(e, late))
    case (Putting(e, late), Put) =>
      if s.queue.Some? then s.(putRefused := true, consumer := Finished)
      else s.(queue := Some(Failed(e)), consumer := After(e, late))
    case (AwaitingEof, LateRejected) => if s.closing then s.(consumer := Finished) else s
    case (AwaitingEof, LateEof(n)) =>
      if s.closing then s.(consumer := Finished) else s.(consumer := Publishing(Eof(n), true))
    case _ => s
  }

  /** After publishing: an early failure that is no end of file waits for one, else the thread ends. */
  function After(e: Error, late: bool): Consumer {
    if late || e.Eof? then Finished else AwaitingEof
  }

  function ApplyCaller(s: State, r: nat, a: Action): State
    requires r in s.callers
  {
    match (s.callers[r], a)
    case (Entering(take, warned), FirstCheck(_)) =>
      if take then s
      else if s.first.Some? then s.(callers := s.callers[r := Ended(take, warned, Raised(s.first.value))])
      else s.(callers := s.callers[r := Getting(take, warned)])
    case (Entering(take, warned), Get(_)) =>
      if !take then s
      else if s.queue.Some? && s.queue.value.Failed? then
        s.(queue := None, callers := s.callers[r := Ended(take, warned, Took(Some(s.queue.value.error)))])
      else s.(queue := None, callers := s.callers[r := Rechecking(take, warned)])
    case (Getting(take, warned), Get(_)) =>
      if s.queue.None? then s
      else s.(queue := None,
              callers := s.callers[r := Ended(take, warned, match s.queue.value
                                                      case Activity => Notified
                                                      case Failed(e) => Raised(e))])
    case (Getting(take, warned), GetTimesOut(_)) =>
      if s.queue.Some? then s else s.(callers := s.callers[r := Expired(take, warned)])
    case (Expired(take, warned), SecondCheck(_)) =>
      s.(callers := s.callers[r := Ended(take, warned, if s.first.Some? then Raised(s.first.value) else TimedOut)])
    case (Rechecking(take, warned), SecondCheck(_)) =>
      s.(callers := s.callers[r := Ended(take, warned, Took(s.first))])
    case _ => s
  }

  predicate ByCaller(a: Action) {
    a.FirstCheck? || a.Get? || a.GetTimesOut? || a.SecondCheck?
  }

  function Apply(s: State, a: Action): State {
    if a.Close? then s.(closing := true)
    else if a.Call? then
      if a.r in s.callers && !s.callers[a.r].Ended? then s
      else s.(callers := s.callers[a.r := Entering(a.take, s.first.Some?)])
    else if ByCaller(a) then
      if a.r in s.callers then ApplyCaller(s, a.r, a) else s
    else ApplyConsumer(s, a)
  }

  function Exec(s: State, actions: seq<Action>): State
    decreases |actions|
  {
    if actions == [] then s else Exec(Apply(s, actions[0]), actions[1..])
  }

  // ----- invariant

  /** How a call ends that meets the failure: `take_failure` returns it and `receive` raises it. */
  function OutcomeOf(take: bool, error: Error): Outcome {
    if take then Took(Some(error)) else Raised(error)
  }

  /**
   What a caller may have learned: a failure it saw is the recorded one, only `take_failure` returns it,
   and a warned call cannot miss it.
   */
  predicate CallerOk(first: Option<Error>, c: Caller) {
    && (c.warned ==> first.Some?)
    && (match c
        case Getting(take, warned) => !take && !warned
        case Expired(take, warned) => !take && !warned
        case Rechecking(take, _) => take
        case Ended(take, warned, outcome) =>
          && (outcome.Took? <==> take)
          && (outcome.Raised? ==> first == Some(outcome.error))
          && (outcome.Took? && outcome.failure.Some? ==> first == outcome.failure)
          && (warned ==> first.Some? && outcome == OutcomeOf(take, first.value))
        case _ => true)
  }

  predicate ConsumerOk(s: State) {
    match s.consumer
    case Publishing(_, late) => late <==> s.first.Some?
    case Clearing(e, _) => s.first == Some(e)
    case Putting(e, _) => s.first == Some(e) && s.queue.None?
    case AwaitingEof => s.first.Some?
    case Finished => true
    case _ => s.first.None?
  }

  ghost predicate Inv(s: State) {
    && ConsumerOk(s) && !s.putRefused
    && (s.queue.Some? && s.queue.value.Failed? ==> s.first == Some(s.queue.value.error))
    && (forall r :: r in s.callers ==> CallerOk(s.first, s.callers[r]))
  }

  /** No step changes a recorded first failure. */
  lemma FirstFailureStands(s: State, a: Action)
    ensures s.first.Some? ==> Apply(s, a).first == s.first
  {
  }

  lemma ConsumerKeepsInv(s: State, a: Action)
    requires Inv(s)
    ensures Inv(ApplyConsumer(s, a))
  {
    var t := ApplyConsumer(s, a);
    forall r | r in s.callers ensures CallerOk(t.first, s.callers[r]) {
      assert CallerOk(s.first, s.callers[r]);
    }
  }

  lemma CallerKeepsInv(s: State, r: nat, a: Action)
    requires Inv(s) && r in s.callers
    ensures Inv(ApplyCaller(s, r, a))
  {
    var t := ApplyCaller(s, r, a);
    assert CallerOk(s.first, s.callers[r]);
    assert CallerOk(t.first, t.callers[r]);
  }

  lemma StepKeepsInv(s: State, a: Action)
    requires Inv(s)
    ensures Inv(Apply(s, a))
  {
    if ByCaller(a) && a.r in s.callers {
      CallerKeepsInv(s, a.r, a);
    } else {
      ConsumerKeepsInv(s, a);
    }
  }

  lemma {:induction false} RunKeepsInv(s: State, actions: seq<Action>)
    requires Inv(s)
    ensures Inv(Exec(s, actions))
    ensures s.first.Some? ==> Exec(s, actions).first == s.first
    decreases |actions|
  {
    if actions != [] {
      StepKeepsInv(s, actions[0]);
      FirstFailureStands(s, actions[0]);
      RunKeepsInv(Apply(s, actions[0]), actions[1..]);
    }
  }

  // ----- what every interleaving guarantees

  /** The failure publish never meets a full queue. */
  lemma PublishNeverRefused(actions: seq<Action>)
    ensures !Exec(INITIAL, actions).putRefused
    ensures Exec(INITIAL, actions).consumer.Putting? ==> Exec(INITIAL, actions).queue.None?
  {
    RunKeepsInv(INITIAL, actions);
  }

  lemma {:induction false} ExecConcat(s: State, a: seq<Action>, b: seq<Action>)
    ensures Exec(s, a + b) == Exec(Exec(s, a), b)
    decreases |a|
  {
    if a == [] {
      assert a + b == b;
    } else {
      assert (a + b)[0] == a[0] && (a + b)[1..] == a[1..] + b;
      ExecConcat(Apply(s, a[0]), a[1..], b);
    }
  }

  /** The first failure, once recorded, is the same ever after, and only it is ever queued, raised or taken. */
  lemma OnlyTheFirstFailure(before: seq<Action>, after: seq<Action>, r: nat)
    ensures
      var s, t := Exec(INITIAL, before), Exec(INITIAL, before + after);
      && (s.first.Some? ==> t.first == s.first)
      && (t.queue.Some? && t.queue.value.Failed? ==> t.first == Some(t.queue.value.error))
      && (r in t.callers && t.callers[r].Ended? && t.callers[r].outcome.Raised? ==>
            t.first == Some(t.callers[r].outcome.error))
      && (r in t.callers && t.callers[r].Ended? && t.callers[r].outcome.Took? && t.callers[r].outcome.failure.Some? ==>
            t.first == t.callers[r].outcome.failure)
  {
    RunKeepsInv(INITIAL, before);
    RunKeepsInv(Exec(INITIAL, before), after);
    ExecConcat(INITIAL, before, after);
  }

  /** One step of the lemma below: the call keeps its kind and its warning. */
  lemma WarnedStep(s: State, a: Action, r: nat)
    requires r in s.callers && s.callers[r].warned && !(a.Call? && a.r == r)
    ensures
      var t := Apply(s, a);
      r in t.callers && t.callers[r].warned && t.callers[r].take == s.callers[r].take
  {
  }

  /** A warned call stays the call it is; a receive never waits on the queue, and either call ends with the failure. */
  lemma {:induction false} WarnedStaysWarned(s: State, actions: seq<Action>, r: nat)
    requires Inv(s) && r in s.callers && s.callers[r].warned
    requires forall a :: a in actions ==> !(a.Call? && a.r == r)
    ensures
      var t := Exec(s, actions);
      && r in t.callers && t.callers[r].warned && t.callers[r].take == s.callers[r].take && s.first.Some?
      && (t.callers[r].Ended? ==> t.callers[r].outcome == OutcomeOf(s.callers[r].take, s.first.value))
      && (!s.callers[r].take ==> t.callers[r].Entering? || t.callers[r].Ended?)
    decreases |actions|
  {
    assert CallerOk(s.first, s.callers[r]);
    if actions != [] {
      StepKeepsInv(s, actions[0]);
      FirstFailureStands(s, actions[0]);
      WarnedStep(s, actions[0], r);
      assert forall a :: a in actions[1..] ==> a in actions;
      WarnedStaysWarned(Apply(s, actions[0]), actions[1..], r);
    }
  }

  /**
   A `receive` begun after the failure was recorded raises it without waiting on the queue, and a
   `take_failure` returns it, whatever the other threads do.
   */
  lemma ReceiveAfterFailureRaises(before: seq<Action>, take: bool, after: seq<Action>, r: nat)
    requires Exec(INITIAL, before).first.Some?
    requires r !in Exec(INITIAL, before).callers || Exec(INITIAL, before).callers[r].Ended?
    requires forall a :: a in after ==> !(a.Call? && a.r == r)
    ensures
      var s, t := Exec(INITIAL, before), Exec(INITIAL, before + [Call(r, take)] + after);
      && r in t.callers
      && (t.callers[r].Ended? ==>
            t.callers[r].outcome == if take then Took(s.first) else Raised(s.first.value))
      && (!take ==> t.callers[r].Entering? || t.callers[r].Ended?)
  {
    var s := Exec(INITIAL, before);
    RunKeepsInv(INITIAL, before);
    StepKeepsInv(s, Call(r, take));
    WarnedStaysWarned(Apply(s, Call(r, take)), after, r);
    assert before + [Call(r, take)] + after == before + ([Call(r, take)] + after);
    ExecConcat(INITIAL, before, [Call(r, take)] + after);
    assert ([Call(r, take)] + after)[1..] == after;
  }

  /** The only step that ends a receive by timeout. */
  lemma TimeoutStep(s: State, a: Action, r: nat)
    requires TimedOutAt(Apply(s, a), r) && !TimedOutAt(s, r)
    ensures a == SecondCheck(r) && s.first.None?
  {
  }

  predicate TimedOutAt(s: State, r: nat) {
    r in s.callers && s.callers[r].Ended? && s.callers[r].outcome == TimedOut
  }

  /** No failure was recorded at any point up to and including the state after `k` steps. */
  ghost predicate QuietUntil(actions: seq<Action>, k: nat) {
    k <= |actions| && forall j :: 0 <= j <= k ==> Exec(INITIAL, actions[..j]).first.None?
  }

  lemma QuietBefore(actions: seq<Action>, k: nat)
    requires k <= |actions| && Exec(INITIAL, actions[..k]).first.None?
    ensures QuietUntil(actions, k)
  {
    forall j | 0 <= j <= k ensures Exec(INITIAL, actions[..j]).first.None? {
      RunKeepsInv(INITIAL, actions[..j]);
      RunKeepsInv(Exec(INITIAL, actions[..j]), actions[j..k]);
      ExecConcat(INITIAL, actions[..j], actions[j..k]);
      assert actions[..k] == actions[..j] + actions[j..k];
    }
  }

  /** A receive that ended by timeout made its last check at a point before which no failure was ever recorded. */
  lemma {:induction false} TimesOutOnlyWithoutFailure(actions: seq<Action>, r: nat) returns (k: nat)
    requires TimedOutAt(Exec(INITIAL, actions), r)
    ensures k < |actions| && actions[k] == SecondCheck(r) && QuietUntil(actions, k)
    decreases |actions|
  {
    var init, a := actions[..|actions| - 1], actions[|actions| - 1];
    var s := Exec(INITIAL, init);
    ExecConcat(INITIAL, init, [a]);
    assert actions == init + [a] && [a][1..] == [];
    assert Exec(s, [a]) == Apply(s, a);
    if TimedOutAt(s, r) {
      k := TimesOutOnlyWithoutFailure(init, r);
      assert init[..k] == actions[..k];
    } else {
      TimeoutStep(s, a, r);
      k := |init|;
    }
    QuietBefore(actions, k);
  }

  // ----- activity

  /** What only a caller or the failure publish takes away: an item in the queue. */
  lemma QueueEmptied(s: State, a: Action)
    requires s.queue.Some? && Apply(s, a).queue != s.queue
    ensures Apply(s, a).queue.None?
    ensures
      || (a.Clear? && s.consumer.Clearing?)
      || (a.Get? && a.r in s.callers && (s.callers[a.r].Getting? || (s.callers[a.r].Entering? && s.callers[a.r].take)))
  {
  }

  /** A frame is announced: after the announcement the queue is not empty. */
  lemma FrameAnnounced(s: State)
    requires s.consumer == Announcing
    ensures
      var t := Apply(s, PutActivity);
      t.queue.Some? && (s.queue.None? ==> t.queue == Some(Activity)) && t.consumer == Testing
  {
  }

  predicate EndedNotified(s: State, r: nat) {
    r in s.callers && s.callers[r].Ended? && s.callers[r].outcome == Notified
  }

  /** A caller's step that ends its call with a notification. */
  predicate NotifiedAt(s: State, a: Action) {
    ByCaller(a) && EndedNotified(Apply(s, a), a.r) && !EndedNotified(s, a.r)
  }

  /** How many receives of a run ended with a notification. */
  function Notifications(s: State, actions: seq<Action>): nat
    decreases |actions|
  {
    if actions == [] then 0
    else (if NotifiedAt(s, actions[0]) then 1 else 0) + Notifications(Apply(s, actions[0]), actions[1..])
  }

  /** How many frames the consumer took in. */
  function Frames(s: State, actions: seq<Action>): nat
    decreases |actions|
  {
    if actions == [] then 0
    else (if actions[0].Frame? && s.consumer == Receiving then 1 else 0) + Frames(Apply(s, actions[0]), actions[1..])
  }

  /** Frames taken in and not yet notified: one being announced, one in the queue. */
  function OnTheWay(s: State): nat {
    (if s.consumer == Announcing then 1 else 0) + (if s.queue == Some(Activity) then 1 else 0)
  }

  lemma OneStepCounts(s: State, a: Action)
    ensures
      OnTheWay(Apply(s, a)) + (if NotifiedAt(s, a) then 1 else 0) <=
      OnTheWay(s) + (if a.Frame? && s.consumer == Receiving then 1 else 0)
  {
  }

  /** Notifications are coalesced, never invented: each stands for a frame of its own. */
  lemma {:induction false} NotificationsHaveFrames(s: State, actions: seq<Action>)
    ensures Notifications(s, actions) + OnTheWay(Exec(s, actions)) <= OnTheWay(s) + Frames(s, actions)
    decreases |actions|
  {
    if actions != [] {
      OneStepCounts(s, actions[0]);
      NotificationsHaveFrames(Apply(s, actions[0]), actions[1..]);
    }
  }

  // ----- failures and the end of the channel

  /** An error on its way into the records was received, late ones as ends of file. */
  ghost predicate Received(actions: seq<Action>, e: Error) {
    ReceiveFails(e) in actions || (e.Eof? && LateEof(e.number) in actions)
  }

  ghost predicate ErrorsReceived(s: State, actions: seq<Action>) {
    && (s.consumer.Publishing? || s.consumer.Clearing? || s.consumer.Putting? ==>
          Received(actions, s.consumer.error) && (!s.consumer.late ==> ReceiveFails(s.consumer.error) in actions))
    && (s.first.Some? ==> ReceiveFails(s.first.value) in actions)
    && (s.terminalEof.Some? ==> s.terminalEof.value.Eof? && Received(actions, s.terminalEof.value))
  }

  /** Only the consumer's own steps touch the error being published and the two records. */
  lemma CallerSparesErrors(s: State, a: Action)
    requires a.Close? || a.Call? || ByCaller(a)
    ensures
      var t := Apply(s, a);
      t.consumer == s.consumer && t.first == s.first && t.terminalEof == s.terminalEof
  {
  }

  lemma ErrorsMore(s: State, before: seq<Action>, after: seq<Action>)
    requires ErrorsReceived(s, before) && forall b :: b in before ==> b in after
    ensures ErrorsReceived(s, after)
  {
  }

  lemma ConsumerErrors(s: State, actions: seq<Action>, a: Action)
    requires ErrorsReceived(s, actions) && ConsumerOk(s) && a in actions
    ensures ErrorsReceived(ApplyConsumer(s, a), actions)
  {
  }

  lemma {:induction false} OnlyReceivedErrors(actions: seq<Action>)
    ensures ErrorsReceived(Exec(INITIAL, actions), actions)
    decreases |actions|
  {
    if actions != [] {
      var init, a := actions[..|actions| - 1], actions[|actions| - 1];
      assert actions == init + [a] && [a][1..] == [];
      OnlyReceivedErrors(init);
      RunKeepsInv(INITIAL, init);
      ExecConcat(INITIAL, init, [a]);
      var s := Exec(INITIAL, init);
      assert Exec(s, [a]) == Apply(s, a);
      ErrorsMore(s, init, actions);
      if a.Close? || a.Call? || ByCaller(a) {
        CallerSparesErrors(s, a);
      } else {
        ConsumerErrors(s, actions, a);
      }
    }
  }

  /** The first failure was received by the consumer, and a recorded end of file is one that was received. */
  lemma RecordedWasReceived(actions: seq<Action>)
    ensures
      var s := Exec(INITIAL, actions);
      && (s.first.Some? ==> ReceiveFails(s.first.value) in actions)
      && (s.terminalEof.Some? ==> s.terminalEof.value.Eof? && Received(actions, s.terminalEof.value))
  {
    OnlyReceivedErrors(actions);
  }

  /** Publishing, without interruption: the failure is recorded and queued; only one that is no end of file waits for one. */
  lemma PublishCompletes(s: State, e: Error)
    requires Inv(s) && s.consumer == Publishing(e, false)
    ensures
      var t := Apply(Apply(Apply(s, Record), Clear), Put);
      && t.first == Some(e) && t.queue == Some(Failed(e)) && (e.Eof? ==> t.terminalEof == Some(e))
      && t.consumer == if e.Eof? then Finished else AwaitingEof
  {
  }

  /** A late end of file is recorded beside the first failure, and ends the thread. */
  lemma LateEofRecorded(s: State, n: nat)
    requires Inv(s) && s.consumer == AwaitingEof && !s.closing
    ensures
      var t := Apply(Apply(s, LateEof(n)), Record);
      t.first == s.first && t.queue == s.queue && t.terminalEof == Some(Eof(n)) && t.consumer == Finished
  {
  }

  /** The consumer is not in the middle of publishing. */
  predicate NotPublishing(s: State) {
    !s.consumer.Publishing? && !s.consumer.Clearing? && !s.consumer.Putting?
  }

  /** After a close that does not meet a publish, nothing is recorded any more. */
  lemma {:induction false} ClosedIsQuiet(s: State, actions: seq<Action>)
    requires s.closing && NotPublishing(s)
    ensures
      var t := Exec(s, actions);
      t.first == s.first && t.terminalEof == s.terminalEof && t.closing && NotPublishing(t)
    decreases |actions|
  {
    if actions != [] {
      ClosedStep(s, actions[0]);
      ClosedIsQuiet(Apply(s, actions[0]), actions[1..]);
    }
  }

  lemma ClosedStep(s: State, a: Action)
    requires s.closing && NotPublishing(s)
    ensures
      var t := Apply(s, a);
      t.first == s.first && t.terminalEof == s.terminalEof && t.closing && NotPublishing(t)
  {
  }


  // ----- the thread

  /** When the consumer thread ends: it finds the pump closing, has published its last failure, or a handler raised. */
  lemma ThreadEnds(s: State, a: Action)
    requires s.consumer != Finished && !s.putRefused && !Apply(s, a).putRefused
    ensures Apply(s, a).consumer == Finished <==>
            match s.consumer
            case Testing => a == TestClosing && s.closing
            case Receiving => a.ReceiveFails? && s.closing
            case Announcing => false
            case Publishing(e, late) =>
              (a == HandlingRaises && !late && !e.Eof?) || (a == Record && s.first.Some? && (late || e.Eof?))
            case Clearing(_, _) => false
            case Putting(e, late) => a == Put && (late || e.Eof?)
            case AwaitingEof => (a == LateRejected || a.LateEof?) && s.closing
            case Finished => false
  {
  }

  /** How the thread goes round: it tests, receives, announces and tests again. */
  lemma ThreadGoesOn(s: State, e: Error, n: nat)
    requires !s.closing
    ensures s.consumer == Testing ==> Apply(s, TestClosing).consumer == Receiving
    ensures s.consumer == Receiving ==>
      && Apply(s, Frame).consumer == Announcing && Apply(s, ReceiveTimesOut).consumer == Testing
      && Apply(s, ReceiveFails(e)).consumer == Publishing(e, false)
    ensures s.consumer == Announcing ==> Apply(s, PutActivity).consumer == Testing
    ensures s.consumer == AwaitingEof ==>
      Apply(s, LateRejected) == s && Apply(s, LateEof(n)).consumer == Publishing(Eof(n), true)
  {
  }

  /** How a receive ends that saw no failure at its start: by what it gets, or at its timeout by a second look. */
  lemma ReceiveEnds(s: State, r: nat, warned: bool)
    requires r in s.callers
    ensures s.callers[r] == Entering(false, warned) && s.first.None? ==>
      Apply(s, FirstCheck(r)).callers[r] == Getting(false, warned)
    ensures s.callers[r] == Getting(false, warned) && s.queue == Some(Activity) ==>
      Apply(s, Get(r)).callers[r] == Ended(false, warned, Notified) && Apply(s, Get(r)).queue.None?
    ensures s.callers[r] == Getting(false, warned) && s.queue.None? ==>
      Apply(s, Get(r)) == s && Apply(s, GetTimesOut(r)).callers[r] == Expired(false, warned)
    ensures s.callers[r] == Expired(false, warned) ==>
      Apply(s, SecondCheck(r)).callers[r] ==
      Ended(false, warned, if s.first.None? then TimedOut else Raised(s.first.value))
  {
  }
}
