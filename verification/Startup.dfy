/**
 The pipe gate of the supervised refresh (tools/actual_refresh_startup.py): the parent passes five
 readiness states, then writes one release token into a pipe; the child waits for that token. The
 class follows the source; the machine below interleaves its system calls, one at a time, with
 the child's. `os.close` may raise, and then the descriptor is still recorded as held. A write
 raises once no read end of the pipe is open, neither the parent's nor the child's.
 */
module Startup {
  import opened Wrappers

  const TOKEN := "R"

  datatype Readiness =
    | Constructed
    | StorageBaselineReady
    | BackendObserverReady
    | ResourceAuthoritiesReady
    | EventReceiverReady
    | FailureCollectorReady
    | ChildReleased
    | Monitoring
    | Failed
    | Closed

  datatype CloseResult = Done | Raises(stillOpen: bool)

  /** System calls a parent call makes, in order. */
  datatype Os = ClosesRead(result: CloseResult) | ClosesWrite(result: CloseResult) | Writes(count: nat)

  datatype Parent = Parent(state: Readiness, readHeld: bool, writeHeld: bool)

  datatype Effect = Effect(parent: Parent, raised: bool, calls: seq<Os>)

  function CloseRead(p: Parent, result: CloseResult): Effect {
    if !p.readHeld then Effect(p, false, [])
    else Effect(p.(readHeld := result != Done), result != Done, [ClosesRead(result)])
  }

  function CloseWrite(p: Parent, result: CloseResult): Effect {
    if !p.writeHeld then Effect(p, false, [])
    else Effect(p.(writeHeld := result != Done), result != Done, [ClosesWrite(result)])
  }

  /** Closing both descriptors; the first close that raises ends the call. */
  function CloseBoth(p: Parent, read: CloseResult, write: CloseResult): Effect {
    var r := CloseRead(p, read);
    if r.raised then r
    else
      var w := CloseWrite(r.parent, write);
      Effect(w.parent, w.raised, r.calls + w.calls)
  }

  function FailEffect(p: Parent, read: CloseResult, write: CloseResult): Effect {
    var e := CloseBoth(p, read, write);
    if e.raised || p.state == Closed then e else e.(parent := e.parent.(state := Failed))
  }

  function CloseEffect(p: Parent, read: CloseResult, write: CloseResult): Effect {
    var e := CloseBoth(p, read, write);
    if e.raised then e else e.(parent := e.parent.(state := Closed))
  }

  /** `written` is None when the write itself raised. */
  function ReleaseEffect(p: Parent, written: Option<nat>, read: CloseResult, write: CloseResult, last: CloseResult)
    : Effect
  {
    if p.state != FailureCollectorReady || !p.writeHeld then Effect(p, true, [])
    else if written.None? then
      var f := FailEffect(p, read, write);
      var c := CloseWrite(f.parent, last);
      Effect(c.parent, true, f.calls + c.calls)
    else
      var c := CloseWrite(p, last);
      var calls := [Writes(written.value)] + c.calls;
      if c.raised then Effect(c.parent, true, calls)
      else if written.value != |TOKEN| then Effect(c.parent.(state := Failed), true, calls)
      else Effect(c.parent.(state := ChildReleased), false, calls)
  }

  function AdvanceEffect(p: Parent, expected: Readiness, target: Readiness): Effect {
    if p.state == expected then Effect(p.(state := target), false, []) else Effect(p, true, [])
  }

  class ActualRefreshStartup {
    var state: Readiness
    var readDescriptor: Option<int>
    var writeDescriptor: Option<int>

    function View(): Parent
      reads this
    {
      Parent(state, readDescriptor.Some?, writeDescriptor.Some?)
    }

    constructor (read: int, write: int)
      ensures View() == Parent(Constructed, true, true)
    {
      state := Constructed;
      readDescriptor, writeDescriptor := Some(read), Some(write);
    }

    method Advance(expected: Readiness, target: Readiness) returns (raised: bool)
      modifies this
      ensures var e := AdvanceEffect(old(View()), expected, target); View() == e.parent && raised == e.raised
    {
      if state != expected {
        return true;
      }
      state := target;
      return false;
    }

    /** The five readiness marks: each leads from one state to the next, in this order only. */
    method Mark(step: nat) returns (raised: bool)
      modifies this
      ensures var e := EffectOf(old(View()), MarkReady(step)); View() == e.parent && raised == e.raised
    {
      if step >= 5 {
        return true;
      }
      raised := Advance(ORDER[step], ORDER[step + 1]);
    }

    method CloseReadDescriptor(result: CloseResult) returns (raised: bool)
      modifies this`readDescriptor
      ensures var e := CloseRead(old(View()), result); View() == e.parent && raised == e.raised
    {
      if readDescriptor.Some? {
        if result != Done {
          return true;
        }
        readDescriptor := None;
      }
      return false;
    }

    method CloseWriteDescriptor(result: CloseResult) returns (raised: bool)
      modifies this`writeDescriptor
      ensures var e := CloseWrite(old(View()), result); View() == e.parent && raised == e.raised
    {
      if writeDescriptor.Some? {
        if result != Done {
          return true;
        }
        writeDescriptor := None;
      }
      return false;
    }

    method ChildStarted(result: CloseResult) returns (raised: bool)
      modifies this`readDescriptor
      ensures View() == CloseRead(old(View()), result).parent
      ensures raised <==> !old(View()).readHeld || result != Done
    {
      if readDescriptor.None? {
        return true;
      }
      raised := CloseReadDescriptor(result);
    }

    method Fail(read: CloseResult, write: CloseResult) returns (raised: bool)
      modifies this
      ensures var e := FailEffect(old(View()), read, write); View() == e.parent && raised == e.raised
    {
      raised := CloseReadDescriptor(read);
      if raised {
        return;
      }
      raised := CloseWriteDescriptor(write);
      if raised {
        return;
      }
      if state != Closed {
        state := Failed;
      }
    }

    method Close(read: CloseResult, write: CloseResult) returns (raised: bool)
      modifies this
      ensures var e := CloseEffect(old(View()), read, write); View() == e.parent && raised == e.raised
    {
      raised := CloseReadDescriptor(read);
      if raised {
        return;
      }
      raised := CloseWriteDescriptor(write);
      if raised {
        return;
      }
      state := Closed;
    }

    method Release(written: Option<nat>, read: CloseResult, write: CloseResult, last: CloseResult)
      returns (raised: bool)
      modifies this
      ensures var e := ReleaseEffect(old(View()), written, read, write, last);
        View() == e.parent && raised == e.raised
    {
      if state != FailureCollectorReady || writeDescriptor.None? {
        return true;
      }
      if written.None? {
        var _ := Fail(read, write);
        var _ := CloseWriteDescriptor(last);
        return true;
      }
      raised := CloseWriteDescriptor(last);
      if raised {
        return;
      }
      if written.value != |TOKEN| {
        state := Failed;
        return true;
      }
      state := ChildReleased;
    }
  }

  // ----- the parent's calls interleaved with the child's wait

  const ORDER := [Constructed, StorageBaselineReady, BackendObserverReady, ResourceAuthoritiesReady,
                  EventReceiverReady, FailureCollectorReady]

  datatype Call =
    | MarkReady(step: nat)
    | MarkMonitoring
    | Started(result: CloseResult)
    | Releases(written: Option<nat>, read: CloseResult, write: CloseResult, last: CloseResult)
    | Fails(read: CloseResult, write: CloseResult)
    | Closes(read: CloseResult, write: CloseResult)

  function EffectOf(p: Parent, call: Call): Effect {
    match call
    case MarkReady(step) => if step < 5 then AdvanceEffect(p, ORDER[step], ORDER[step + 1]) else Effect(p, true, [])
    case MarkMonitoring => AdvanceEffect(p, ChildReleased, Monitoring)
    case Started(result) => if p.readHeld then CloseRead(p, result) else Effect(p, true, [])
    case Releases(written, read, write, last) => ReleaseEffect(p, written, read, write, last)
    case Fails(read, write) => FailEffect(p, read, write)
    case Closes(read, write) => CloseEffect(p, read, write)
  }

  datatype Child = Waiting | Proceeded | Refused

  /** Counts of what the parent issued: closes of each descriptor, those that raised, whole tokens. */
  datatype Tally = Tally(readCloses: nat, readRaises: nat, writeCloses: nat, writeRaises: nat, tokens: nat)

  function Add(t: Tally, call: Os): Tally {
    match call
    case ClosesRead(r) => t.(readCloses := t.readCloses + 1, readRaises := t.readRaises + if r == Done then 0 else 1)
    case ClosesWrite(r) =>
      t.(writeCloses := t.writeCloses + 1, writeRaises := t.writeRaises + if r == Done then 0 else 1)
    case Writes(n) => t.(tokens := t.tokens + if n == |TOKEN| then 1 else 0)
  }

  function AddAll(t: Tally, calls: seq<Os>): Tally
    decreases |calls|
  {
    if calls == [] then t else AddAll(Add(t, calls[0]), calls[1..])
  }

  /** The two ends of the pipe that the parent has open. */
  datatype Ends = Ends(read: bool, write: bool)

  /**
   `pending` are the system calls of the parent's current call that have not happened yet; `childEnd`
   says whether the child still has its read end open.
   */
  datatype System = System(parent: Parent, pending: seq<Os>, tally: Tally, trail: seq<Readiness>,
                           pipe: string, ends: Ends, child: Child, childEnd: bool)

  const INITIAL := System(Parent(Constructed, true, true), [], Tally(0, 0, 0, 0, 0), [Constructed], "",
                          Ends(true, true), Waiting, true)

  /** When its wait is over the child closes its descriptor; it may also exit at any time, which closes it too. */
  datatype Action =
    | Parents(call: Call)
    | Emit
    | ChildTimesOut
    | ChildReads
    | ChildReadFails
    | ChildCloses(result: CloseResult)
    | ChildExits

  /** A write succeeds only while the write end and some read end are open, and writes at most the token. */
  predicate Possible(s: System, call: Call) {
    call.Releases? && call.written.Some? ==>
      s.ends.write && (s.childEnd || s.ends.read) && call.written.value <= |TOKEN|
  }

  /** A call tests only the parent's own fields before its first system call, which is taken in the same step. */
  function ApplyCall(s: System, call: Call): System {
    if s.pending != [] || !Possible(s, call) then s
    else
      var e := EffectOf(s.parent, call);
      ApplyEmit(s.(parent := e.parent, pending := e.calls, tally := AddAll(s.tally, e.calls),
                   trail := Extend(s.parent.state, e.parent.state, s.trail)))
  }

  function Extend(before: Readiness, after: Readiness, trail: seq<Readiness>): seq<Readiness> {
    if before == after then trail else trail + [after]
  }

  predicate StillOpen(open: bool, result: CloseResult) {
    open && result.Raises? && result.stillOpen
  }

  /** The ends that are still open after a system call. */
  function EndsOne(ends: Ends, call: Os): Ends {
    match call
    case ClosesRead(result) => ends.(read := StillOpen(ends.read, result))
    case ClosesWrite(result) => ends.(write := StillOpen(ends.write, result))
    case Writes(_) => ends
  }

  function EndsAfter(ends: Ends, calls: seq<Os>): Ends
    decreases |calls|
  {
    if calls == [] then ends else EndsAfter(EndsOne(ends, calls[0]), calls[1..])
  }

  function ApplyEmit(s: System): System {
    if s.pending == [] then s
    else
      var call := s.pending[0];
      s.(pending := s.pending[1..], ends := EndsOne(s.ends, call),
         pipe := if call.Writes? && call.count <= |TOKEN| then s.pipe + TOKEN[..call.count] else s.pipe)
  }

  function ApplyRead(s: System): System {
    if s.pipe != "" then
      var n := if |s.pipe| < |TOKEN| then |s.pipe| else |TOKEN|;
      s.(pipe := s.pipe[n..], child := if s.pipe[..n] == TOKEN then Proceeded else Refused)
    else if s.ends.write then s
    else s.(child := Refused)
  }

  function Apply(s: System, a: Action): System {
    match a
    case Parents(call) => ApplyCall(s, call)
    case Emit => ApplyEmit(s)
    case ChildTimesOut => if s.child == Waiting then s.(child := Refused) else s
    case ChildReads => if s.child == Waiting then ApplyRead(s) else s
    case ChildReadFails => if s.child == Waiting then s.(child := Refused) else s
    case ChildCloses(result) => if s.child == Waiting then s else s.(childEnd := StillOpen(s.childEnd, result))
    case ChildExits => s.(child := if s.child == Waiting then Refused else s.child, childEnd := false)
  }

  function Exec(s: System, actions: seq<Action>): System
    decreases |actions|
  {
    if actions == [] then s else Exec(Apply(s, actions[0]), actions[1..])
  }

  function Rank(r: Readiness): nat {
    match r
    case Constructed => 0
    case StorageBaselineReady => 1
    case BackendObserverReady => 2
    case ResourceAuthoritiesReady => 3
    case EventReceiverReady => 4
    case FailureCollectorReady => 5
    case _ => 6
  }

  /** Every close that does not raise gives the descriptor up; a token is written only while it is held. */
  predicate Accounts(p: Parent, t: Tally) {
    && t.readCloses == t.readRaises + (if p.readHeld then 0 else 1)
    && t.writeCloses == t.writeRaises + (if p.writeHeld then 0 else 1)
    && t.tokens <= t.writeCloses
  }

  lemma {:induction false} AddAllConcat(t: Tally, a: seq<Os>, b: seq<Os>)
    ensures AddAll(t, a + b) == AddAll(AddAll(t, a), b)
    decreases |a|
  {
    if a == [] {
      assert a + b == b;
    } else {
      assert (a + b)[0] == a[0] && (a + b)[1..] == a[1..] + b;
      AddAllConcat(Add(t, a[0]), a[1..], b);
    }
  }

  lemma OneCloseAccounts(p: Parent, result: CloseResult, t: Tally)
    requires Accounts(p, t)
    ensures Accounts(CloseRead(p, result).parent, AddAll(t, CloseRead(p, result).calls))
    ensures Accounts(CloseWrite(p, result).parent, AddAll(t, CloseWrite(p, result).calls))
  {
    assert AddAll(t, [ClosesRead(result)]) == Add(t, ClosesRead(result));
    assert AddAll(t, [ClosesWrite(result)]) == Add(t, ClosesWrite(result));
  }

  lemma CloseBothAccounts(p: Parent, read: CloseResult, write: CloseResult, t: Tally)
    requires Accounts(p, t)
    ensures Accounts(CloseBoth(p, read, write).parent, AddAll(t, CloseBoth(p, read, write).calls))
  {
    var r := CloseRead(p, read);
    OneCloseAccounts(p, read, t);
    OneCloseAccounts(r.parent, write, AddAll(t, r.calls));
    AddAllConcat(t, r.calls, CloseWrite(r.parent, write).calls);
  }

  lemma ReleaseAccounts(p: Parent, call: Call, t: Tally)
    requires Accounts(p, t) && call.Releases?
    ensures Accounts(EffectOf(p, call).parent, AddAll(t, EffectOf(p, call).calls))
  {
    if p.state == FailureCollectorReady && p.writeHeld {
      if call.written.None? {
        var f := FailEffect(p, call.read, call.write);
        CloseBothAccounts(p, call.read, call.write, t);
        OneCloseAccounts(f.parent, call.last, AddAll(t, f.calls));
        AddAllConcat(t, f.calls, CloseWrite(f.parent, call.last).calls);
      } else {
        var w := Writes(call.written.value);
        assert AddAll(t, [w]) == Add(t, w);
        AddAllConcat(t, [w], [ClosesWrite(call.last)]);
        assert AddAll(Add(t, w), [ClosesWrite(call.last)]) == Add(Add(t, w), ClosesWrite(call.last));
      }
    }
  }

  lemma EffectAccounts(p: Parent, call: Call, t: Tally)
    requires Accounts(p, t)
    ensures Accounts(EffectOf(p, call).parent, AddAll(t, EffectOf(p, call).calls))
  {
    match call
    case Releases(_, _, _, _) => ReleaseAccounts(p, call, t);
    case Fails(read, write) => CloseBothAccounts(p, read, write, t);
    case Closes(read, write) => CloseBothAccounts(p, read, write, t);
    case Started(result) => OneCloseAccounts(p, result, t);
    case _ =>
  }

  // ----- what each call answers

  /** A mark raises exactly out of its turn, and then changes nothing. */
  lemma MarkAnswers(p: Parent, step: nat)
    requires step < 5
    ensures
      var e := EffectOf(p, MarkReady(step));
      && e.calls == [] && (e.raised <==> p.state != ORDER[step])
      && e.parent == if e.raised then p else p.(state := ORDER[step + 1])
  {
  }

  /**
   A release out of turn or without its descriptor raises and does nothing; one that writes ends released
   if the whole token was written and the close succeeded, failed if only the write fell short, and
   unchanged if the close raised.
   */
  lemma ReleaseAnswers(p: Parent, n: nat, read: CloseResult, write: CloseResult, last: CloseResult)
    ensures
      var e := EffectOf(p, Releases(Some(n), read, write, last));
      if p.state != FailureCollectorReady || !p.writeHeld then e == Effect(p, true, [])
      else
        && e.calls == [Writes(n), ClosesWrite(last)] && (e.raised <==> n != |TOKEN| || last != Done)
        && e.parent.readHeld == p.readHeld && (e.parent.writeHeld <==> last != Done)
        && e.parent.state == (if last != Done then p.state else if n == |TOKEN| then ChildReleased else Failed)
  {
  }

  /** A fail or close that does not raise gives both descriptors up; one that raises leaves the state alone. */
  lemma FailAnswers(p: Parent, read: CloseResult, write: CloseResult)
    ensures
      var f, c := EffectOf(p, Fails(read, write)), EffectOf(p, Closes(read, write));
      && (f.raised <==> (p.readHeld && read != Done) || (p.writeHeld && write != Done))
      && c.raised == f.raised && c.calls == f.calls
      && (!f.raised ==> f.parent == Parent(if p.state == Closed then Closed else Failed, false, false)
                        && c.parent == Parent(Closed, false, false))
      && (f.raised ==> f.parent.state == p.state && c.parent == f.parent)
      && (ClosesRead(read) in f.calls <==> p.readHeld)
      && (ClosesWrite(write) in f.calls <==> p.writeHeld && (p.readHeld ==> read == Done))
  {
  }

  /** How the child's wait ends, and that it ends once. */
  lemma ChildMoves(s: System, a: Action)
    ensures
      var t := Apply(s, a);
      && (s.child != Waiting ==> t.child == s.child)
      && (s.child == Waiting ==>
            && (a == ChildTimesOut || a == ChildReadFails || a == ChildExits ==> t.child == Refused)
            && (a == ChildReads ==>
                  t.child == if |TOKEN| <= |s.pipe| && s.pipe[..|TOKEN|] == TOKEN then Proceeded
                             else if s.pipe == "" && s.ends.write then Waiting
                             else Refused)
            && (a.Parents? || a == Emit || a.ChildCloses? ==> t.child == Waiting))
      && (t.childEnd ==> s.childEnd) && (a == ChildExits ==> !t.childEnd)
      && (a == ChildCloses(Done) && s.child != Waiting ==> !t.childEnd)
  {
  }

  // ----- invariant

  predicate TrailOk(state: Readiness, trail: seq<Readiness>) {
    if Rank(state) <= 5 then trail == ORDER[..Rank(state) + 1]
    else state == ChildReleased || state == Monitoring ==> ORDER <= trail
  }

  predicate WritesPending(calls: seq<Os>) {
    exists i :: 0 <= i < |calls| && calls[i].Writes? && calls[i].count == |TOKEN|
  }

  /** A token in the pipe or read. */
  predicate TokenSeen(s: System) {
    s.pipe != "" || s.child == Proceeded
  }

  predicate NoWrites(calls: seq<Os>) {
    forall c :: c in calls ==> !c.Writes?
  }

  ghost predicate Inv(s: System) {
    && Accounts(s.parent, s.tally) && TrailOk(s.parent.state, s.trail)
    && (s.tally.tokens > 0 ==> ORDER <= s.trail)
    && (TokenSeen(s) ==> s.tally.tokens > 0)
    && (s.child == Waiting ==> s.childEnd)
    && (s.parent.state == ChildReleased || s.parent.state == Monitoring ==> s.tally.tokens > 0)
    && (EndsAfter(s.ends, s.pending).read ==> s.parent.readHeld)
    && NoWrites(s.pending)
  }

  lemma PendingTail(calls: seq<Os>)
    requires calls != []
    ensures WritesPending(calls[1..]) ==> WritesPending(calls)
  {
    if WritesPending(calls[1..]) {
      var i :| 0 <= i < |calls[1..]| && calls[1..][i].Writes? && calls[1..][i].count == |TOKEN|;
      assert calls[i + 1] == calls[1..][i];
    }
  }

  lemma {:induction false} TallyGrows(t: Tally, calls: seq<Os>)
    ensures AddAll(t, calls).tokens >= t.tokens
    ensures WritesPending(calls) <==> AddAll(t, calls).tokens > t.tokens
    decreases |calls|
  {
    if calls != [] {
      TallyGrows(Add(t, calls[0]), calls[1..]);
      if WritesPending(calls) && !(calls[0].Writes? && calls[0].count == |TOKEN|) {
        var i :| 0 <= i < |calls| && calls[i].Writes? && calls[i].count == |TOKEN|;
        assert calls[1..][i - 1] == calls[i];
      }
      PendingTail(calls);
    }
  }

  /** Only a release from the last readiness state writes, as its first system call. */
  lemma WritesWhenReady(p: Parent, call: Call)
    requires !NoWrites(EffectOf(p, call).calls)
    ensures call.Releases? && call.written.Some? && p.state == FailureCollectorReady && p.writeHeld
    ensures EffectOf(p, call).calls[0] == Writes(call.written.value) && NoWrites(EffectOf(p, call).calls[1..])
  {
  }

  /** The state moves only to the next readiness state, past the last one, or to failed or closed. */
  lemma StateMoves(p: Parent, call: Call)
    ensures
      var q := EffectOf(p, call).parent.state;
      || q == p.state || q == Failed || q == Closed
      || (Rank(p.state) < 5 && Rank(q) == Rank(p.state) + 1)
      || (p.state == FailureCollectorReady && q == ChildReleased)
      || (p.state == ChildReleased && q == Monitoring)
  {
  }

  lemma TrailStep(p: Parent, call: Call, trail: seq<Readiness>)
    requires TrailOk(p.state, trail)
    ensures
      var q := EffectOf(p, call).parent.state;
      TrailOk(q, Extend(p.state, q, trail)) && (ORDER <= trail ==> ORDER <= Extend(p.state, q, trail))
  {
    StateMoves(p, call);
    var q := EffectOf(p, call).parent.state;
    if Rank(p.state) < 5 && Rank(q) == Rank(p.state) + 1 {
      assert q == ORDER[Rank(p.state) + 1];
    }
  }

  lemma {:induction false} ClosedEndsStayClosed(ends: Ends, calls: seq<Os>)
    ensures EndsAfter(ends, calls).write ==> ends.write
    ensures EndsAfter(ends, calls).read ==> ends.read && ClosesRead(Done) !in calls
    decreases |calls|
  {
    if calls != [] {
      ClosedEndsStayClosed(EndsOne(ends, calls[0]), calls[1..]);
    }
  }

  /** No call takes a descriptor back, and the read descriptor is given up only by closing it. */
  lemma CallLimits(p: Parent, call: Call)
    ensures EffectOf(p, call).parent.writeHeld ==> p.writeHeld
    ensures EffectOf(p, call).parent.readHeld <==> p.readHeld && ClosesRead(Done) !in EffectOf(p, call).calls
  {
  }

  /** The parent says released only after a call that wrote the token. */
  lemma ReleasedWrites(p: Parent, call: Call)
    requires EffectOf(p, call).parent.state == ChildReleased && p.state != ChildReleased
    ensures WritesPending(EffectOf(p, call).calls)
  {
    assert EffectOf(p, call).calls[0] == Writes(|TOKEN|);
  }

  /** What a call leaves in the books: closes, trail and tokens. */
  lemma CallKeepsBooks(s: System, call: Call)
    requires Inv(s) && s.pending == [] && Possible(s, call)
    ensures
      var t := ApplyCall(s, call);
      && Accounts(t.parent, t.tally) && TrailOk(t.parent.state, t.trail) && t.tally.tokens >= s.tally.tokens
      && (t.tally.tokens > 0 ==> ORDER <= t.trail)
      && (t.parent.state == ChildReleased || t.parent.state == Monitoring ==> t.tally.tokens > 0)
  {
    var e := EffectOf(s.parent, call);
    EffectAccounts(s.parent, call, s.tally);
    TallyGrows(s.tally, e.calls);
    TrailStep(s.parent, call, s.trail);
    StateMoves(s.parent, call);
    if e.parent.state == ChildReleased && s.parent.state != ChildReleased {
      ReleasedWrites(s.parent, call);
    }
    if !NoWrites(e.calls) {
      WritesWhenReady(s.parent, call);
    }
  }

  /** And in the pipe and the descriptors. */
  lemma CallKeepsEnds(s: System, call: Call)
    requires Inv(s) && s.pending == [] && Possible(s, call)
    ensures
      var t := ApplyCall(s, call);
      && (TokenSeen(t) ==> TokenSeen(s) || t.tally.tokens > s.tally.tokens)
      && t.child == s.child && t.childEnd == s.childEnd
      && (EndsAfter(t.ends, t.pending).read ==> t.parent.readHeld) && NoWrites(t.pending)
  {
    var e := EffectOf(s.parent, call);
    TallyGrows(s.tally, e.calls);
    CallLimits(s.parent, call);
    ClosedEndsStayClosed(s.ends, e.calls);
    if !NoWrites(e.calls) {
      WritesWhenReady(s.parent, call);
    }
  }

  lemma CallKeepsInv(s: System, call: Call)
    requires Inv(s)
    ensures Inv(ApplyCall(s, call))
  {
    if s.pending == [] && Possible(s, call) {
      CallKeepsBooks(s, call);
      CallKeepsEnds(s, call);
    }
  }

  lemma StepKeepsInv(s: System, a: Action)
    requires Inv(s)
    ensures Inv(Apply(s, a))
  {
    if a.Parents? {
      CallKeepsInv(s, a.call);
    } else if a.Emit? && s.pending != [] {
      assert s.pending[0] in s.pending;
    }
  }

  lemma {:induction false} RunKeepsInv(s: System, actions: seq<Action>)
    requires Inv(s)
    ensures Inv(Exec(s, actions))
    decreases |actions|
  {
    if actions != [] {
      StepKeepsInv(s, actions[0]);
      RunKeepsInv(Apply(s, actions[0]), actions[1..]);
    }
  }

  // ----- what every interleaving guarantees

  /** The child proceeds only after all five readiness states in order, on one token if no close raised. */
  lemma ProceedsOnlyWhenReady(actions: seq<Action>)
    requires Exec(INITIAL, actions).child == Proceeded
    ensures
      var s := Exec(INITIAL, actions);
      && ORDER <= s.trail && s.tally.tokens >= 1
      && (s.tally.writeRaises == 0 ==> s.tally.tokens == 1)
  {
    RunKeepsInv(INITIAL, actions);
  }

  /** A parent that says the child is released has written a token. */
  lemma ReleasedMeansToken(actions: seq<Action>)
    requires
      var p := Exec(INITIAL, actions).parent;
      p.state == ChildReleased || p.state == Monitoring
    ensures Exec(INITIAL, actions).tally.tokens > 0 && ORDER <= Exec(INITIAL, actions).trail
  {
    RunKeepsInv(INITIAL, actions);
  }

  /** How often each descriptor is closed: once more than the closes that raised, at most. */
  lemma ClosedAtMostOnce(actions: seq<Action>)
    ensures
      var s := Exec(INITIAL, actions);
      && (s.tally.readCloses <= 1 <==>
            s.tally.readRaises == 0 || (s.tally.readRaises == 1 && s.parent.readHeld))
      && (s.tally.writeCloses <= 1 <==>
            s.tally.writeRaises == 0 || (s.tally.writeRaises == 1 && s.parent.writeHeld))
  {
    RunKeepsInv(INITIAL, actions);
  }

  // ----- when a token can still be written, and when the child can still proceed

  /** Not past release, the write descriptor held, and the write end open when the current call is done. */
  predicate GateOpen(s: System) {
    Rank(s.parent.state) <= 5 && s.parent.writeHeld && EndsAfter(s.ends, s.pending).write
  }

  /** The child's read end is open, or the parent's is when the current call is done. */
  predicate HasReader(s: System) {
    s.childEnd || EndsAfter(s.ends, s.pending).read
  }

  predicate CanWrite(s: System) {
    GateOpen(s) && HasReader(s)
  }

  lemma CannotWriteCall(s: System, call: Call)
    requires !CanWrite(s)
    ensures
      var t := ApplyCall(s, call);
      !CanWrite(t) && t.tally.tokens == s.tally.tokens && (s.pipe == "" ==> t.pipe == "")
  {
    if s.pending == [] && Possible(s, call) {
      var e := EffectOf(s.parent, call);
      StateMoves(s.parent, call);
      CallLimits(s.parent, call);
      ClosedEndsStayClosed(s.ends, e.calls);
      TallyGrows(s.tally, e.calls);
      if !NoWrites(e.calls) {
        WritesWhenReady(s.parent, call);
      }
    }
  }

  lemma CannotWriteStep(s: System, a: Action)
    requires !CanWrite(s)
    ensures !CanWrite(Apply(s, a)) && Apply(s, a).tally.tokens == s.tally.tokens
  {
    if a.Parents? {
      CannotWriteCall(s, a.call);
    }
  }

  lemma {:induction false} CannotWriteEver(s: System, actions: seq<Action>)
    requires !CanWrite(s)
    ensures Exec(s, actions).tally.tokens == s.tally.tokens
    decreases |actions|
  {
    if actions != [] {
      CannotWriteStep(s, actions[0]);
      CannotWriteEver(Apply(s, actions[0]), actions[1..]);
    }
  }

  /** From any such state the parent can reach the last readiness state with nothing pending and nothing else changed. */
  lemma {:induction false} ReachReady(s: System) returns (after: seq<Action>)
    requires CanWrite(s) && NoWrites(s.pending)
    ensures
      var t := Exec(s, after);
      && t.parent.state == FailureCollectorReady && t.pending == [] && CanWrite(t)
      && t.child == s.child && t.tally.tokens == s.tally.tokens && t.pipe == s.pipe
    decreases |s.pending|, 5 - Rank(s.parent.state)
  {
    if s.pending != [] {
      assert s.pending[0] in s.pending;
      var rest := ReachReady(ApplyEmit(s));
      after := [Emit] + rest;
      assert after[1..] == rest;
    } else if Rank(s.parent.state) < 5 {
      var call := MarkReady(Rank(s.parent.state));
      assert EffectOf(s.parent, call).calls == [];
      var rest := ReachReady(ApplyCall(s, call));
      after := [Parents(call)] + rest;
      assert after[1..] == rest;
    } else {
      after := [];
    }
  }

  const RELEASE := Releases(Some(1), Done, Done, Done)

  lemma ReleaseWrites(t: System)
    requires t.parent.state == FailureCollectorReady && t.pending == [] && CanWrite(t)
    ensures ApplyCall(t, RELEASE).tally.tokens == t.tally.tokens + 1
    ensures t.pipe == "" && t.child == Waiting ==> Apply(ApplyCall(t, RELEASE), ChildReads).child == Proceeded
  {
    var calls := [Writes(1), ClosesWrite(Done)];
    assert EffectOf(t.parent, RELEASE).calls == calls;
    assert calls[1..] == [ClosesWrite(Done)];
    assert AddAll(Add(t.tally, calls[0]), [ClosesWrite(Done)]) == Add(Add(t.tally, calls[0]), ClosesWrite(Done));
    assert TOKEN[..1] == TOKEN;
    if t.pipe == "" {
      assert ApplyCall(t, RELEASE).pipe == TOKEN;
    }
  }

  lemma {:induction false} ExecConcat(s: System, a: seq<Action>, b: seq<Action>)
    ensures Exec(s, a + b) == Exec(Exec(s, a), b)
    decreases |a|
  {
    if a == [] {
      assert a + b == b;
    } else {
      assert (a + b)[0] == a[0] && (a + b)[1..] == a[1..] + b;
      ExecConcat(Apply(s, a[0]), a[1..], b);
    }
  }

  ghost predicate SomeTokenFollows(s: System) {
    exists after :: Exec(s, after).tally.tokens > s.tally.tokens
  }

  ghost predicate SomeRunProceeds(s: System) {
    exists after :: Exec(s, after).child == Proceeded
  }

  lemma CanWriteWrites(s: System)
    requires CanWrite(s) && NoWrites(s.pending)
    ensures SomeTokenFollows(s)
  {
    var ready := ReachReady(s);
    var t := Exec(s, ready);
    ReleaseWrites(t);
    ExecConcat(s, ready, [Parents(RELEASE)]);
    assert [Parents(RELEASE)][1..] == [];
    assert Exec(t, [Parents(RELEASE)]) == ApplyCall(t, RELEASE);
    assert Exec(s, ready + [Parents(RELEASE)]).tally.tokens > s.tally.tokens;
  }

  /**
   Whatever happened before, another token can follow if and only if the parent can still write: the
   gate is open and someone can still read. After a first token an open gate means the state is still
   the last readiness state, with the write descriptor held and the write end open.
   */
  lemma AnotherTokenIff(before: seq<Action>)
    ensures
      var s := Exec(INITIAL, before);
      && (SomeTokenFollows(s) <==> GateOpen(s) && HasReader(s))
      && (s.tally.tokens > 0 ==>
            (SomeTokenFollows(s) <==>
             && s.parent.state == FailureCollectorReady && s.parent.writeHeld
             && EndsAfter(s.ends, s.pending).write && (s.childEnd || EndsAfter(s.ends, s.pending).read)))
  {
    var s := Exec(INITIAL, before);
    RunKeepsInv(INITIAL, before);
    if CanWrite(s) {
      CanWriteWrites(s);
    } else if SomeTokenFollows(s) {
      var after :| Exec(s, after).tally.tokens > s.tally.tokens;
      CannotWriteEver(s, after);
    }
    if Rank(s.parent.state) <= 5 {
      assert s.trail == ORDER[..Rank(s.parent.state) + 1];
      assert s.tally.tokens > 0 ==> |ORDER| <= |s.trail|;
    }
  }

  /** Once the parent gave up its copy of the read descriptor and the child closed its own, no token follows. */
  lemma NoReaderNoToken(before: seq<Action>)
    requires !Exec(INITIAL, before).parent.readHeld && !Exec(INITIAL, before).childEnd
    ensures !SomeTokenFollows(Exec(INITIAL, before))
  {
    RunKeepsInv(INITIAL, before);
    AnotherTokenIff(before);
  }

  /** The child has given up, or no token was seen and none can be written. */
  predicate Dead(s: System) {
    s.child == Refused || (!CanWrite(s) && !TokenSeen(s) && NoWrites(s.pending))
  }

  /** A call of the parent does not touch the child, and leaves no write pending. */
  lemma CallSparesChild(s: System, call: Call)
    requires NoWrites(s.pending)
    ensures ApplyCall(s, call).child == s.child && NoWrites(ApplyCall(s, call).pending)
  {
    if !NoWrites(EffectOf(s.parent, call).calls) {
      WritesWhenReady(s.parent, call);
    }
  }

  lemma DeadCall(s: System, call: Call)
    requires s.child != Refused && Dead(s)
    ensures Dead(ApplyCall(s, call))
  {
    CannotWriteCall(s, call);
    CallSparesChild(s, call);
  }

  /** A refused child stays refused. */
  lemma RefusedStep(s: System, a: Action)
    requires s.child == Refused
    ensures Apply(s, a).child == Refused
  {
  }

  lemma DeadStep(s: System, a: Action)
    requires Dead(s)
    ensures Dead(Apply(s, a))
  {
    if s.child == Refused {
      RefusedStep(s, a);
    } else if a.Parents? {
      DeadCall(s, a.call);
    } else {
      CannotWriteStep(s, a);
      assert a.Emit? && s.pending != [] ==> s.pending[0] in s.pending;
    }
  }

  lemma {:induction false} DeadForever(s: System, actions: seq<Action>)
    requires Dead(s)
    ensures Exec(s, actions).child != Proceeded
    decreases |actions|
  {
    if actions != [] {
      DeadStep(s, actions[0]);
      DeadForever(Apply(s, actions[0]), actions[1..]);
    }
  }

  lemma WaitingProceeds(s: System)
    requires CanWrite(s) && s.child == Waiting && !TokenSeen(s) && NoWrites(s.pending)
    ensures SomeRunProceeds(s)
  {
    var ready := ReachReady(s);
    var t := Exec(s, ready);
    ReleaseWrites(t);
    var last := [Parents(RELEASE), ChildReads];
    ExecConcat(s, ready, last);
    assert last[1..] == [ChildReads] && [ChildReads][1..] == [];
    var u := ApplyCall(t, RELEASE);
    assert Exec(u, [ChildReads]) == Apply(u, ChildReads);
    assert Exec(t, last) == Exec(u, [ChildReads]);
    assert Exec(s, ready + last).child == Proceeded;
  }

  /** Before any token, some continuation lets the child proceed if and only if it waits and the gate is open. */
  lemma ProceedsIff(before: seq<Action>)
    requires Exec(INITIAL, before).tally.tokens == 0
    ensures
      var s := Exec(INITIAL, before);
      SomeRunProceeds(s) <==> s.child == Waiting && GateOpen(s)
  {
    var s := Exec(INITIAL, before);
    RunKeepsInv(INITIAL, before);
    if s.child == Waiting && GateOpen(s) {
      WaitingProceeds(s);
    } else if SomeRunProceeds(s) {
      var after :| Exec(s, after).child == Proceeded;
      DeadForever(s, after);
    }
  }

  /** A fail or close leaves the state before release exactly when it raises, and writes nothing. */
  lemma FailMoves(p: Parent, call: Call)
    requires call.Fails? || call.Closes?
    ensures
      var e := EffectOf(p, call);
      && (Rank(e.parent.state) <= 5 <==> e.raised && Rank(p.state) <= 5)
      && NoWrites(e.calls)
  {
  }

  lemma FailedGate(s: System, call: Call)
    requires (call.Fails? || call.Closes?) && s.pending == []
    ensures
      var e, t := EffectOf(s.parent, call), ApplyCall(s, call);
      && t.child == s.child && t.tally.tokens == s.tally.tokens
      && (GateOpen(t) <==>
            e.raised && Rank(s.parent.state) <= 5 && e.parent.writeHeld && EndsAfter(s.ends, e.calls).write)
  {
    var e := EffectOf(s.parent, call);
    FailMoves(s.parent, call);
    TallyGrows(s.tally, e.calls);
  }

  /**
   After a fail or close before any token, some continuation lets the child proceed if and only if the
   call raised, the child still waits, the state is one of those before release, the write descriptor
   is still held, and the write end is still open after the closes of the call.
   */
  lemma FailedFirstIff(before: seq<Action>, call: Call)
    requires call.Fails? || call.Closes?
    requires Exec(INITIAL, before).pending == [] && Exec(INITIAL, before).tally.tokens == 0
    ensures
      var s := Exec(INITIAL, before);
      var e := EffectOf(s.parent, call);
      SomeRunProceeds(ApplyCall(s, call)) <==>
      && e.raised && s.child == Waiting && Rank(s.parent.state) <= 5
      && e.parent.writeHeld && EndsAfter(s.ends, e.calls).write
  {
    var s := Exec(INITIAL, before);
    FailedGate(s, call);
    ExecConcat(INITIAL, before, [Parents(call)]);
    assert [Parents(call)][1..] == [];
    assert Exec(s, [Parents(call)]) == ApplyCall(s, call);
    ProceedsIff(before + [Parents(call)]);
  }

  // ----- what a raising close allows

  const READY := [Parents(MarkReady(0)), Parents(MarkReady(1)), Parents(MarkReady(2)), Parents(MarkReady(3)),
                  Parents(MarkReady(4))]

  /** The state after the first `k` marks. */
  function Stage(k: nat): System
    requires k <= 5
  {
    INITIAL.(parent := Parent(ORDER[k], true, true), trail := ORDER[..k + 1])
  }

  lemma MarkStep(k: nat)
    requires k < 5
    ensures Apply(Stage(k), READY[k]) == Stage(k + 1)
  {
    assert READY[k] == Parents(MarkReady(k));
    assert ORDER[..k + 1] + [ORDER[k + 1]] == ORDER[..k + 2];
  }

  lemma {:induction false} MarksFrom(k: nat)
    requires k <= 5
    ensures Exec(Stage(k), READY[k..]) == Stage(5)
    decreases 5 - k
  {
    if k < 5 {
      MarkStep(k);
      MarksFrom(k + 1);
      assert READY[k..][1..] == READY[k + 1..];
    }
  }

  lemma ReadyState()
    ensures Exec(INITIAL, READY) == Stage(5)
  {
    MarksFrom(0);
    assert READY[0..] == READY;
    assert ORDER[..1] == [Constructed];
  }

  lemma FailsAtRead(s: System, read: CloseResult)
    requires read.Raises? && s.pending == [] && s.parent.readHeld
    ensures
      var t := ApplyCall(s, Fails(read, Done));
      t == s.(tally := t.tally, ends := s.ends.(read := StillOpen(s.ends.read, read)))
  {
    assert EffectOf(s.parent, Fails(read, Done)).calls == [ClosesRead(read)];
  }

  /** A fail whose close raises leaves the gate ready: a release after it still lets the child proceed. */
  lemma RaisedFailStillReleases(read: CloseResult)
    requires read.Raises?
    ensures
      var s := ApplyCall(Exec(INITIAL, READY), Fails(read, Done));
      Apply(ApplyCall(s, RELEASE), ChildReads).child == Proceeded
  {
    ReadyState();
    FailsAtRead(Stage(5), read);
    ReleaseWrites(ApplyCall(Stage(5), Fails(read, Done)));
  }

  lemma FailShuts(p: Parent, ends: Ends)
    requires p.readHeld && p.writeHeld
    ensures
      var e := EffectOf(p, Fails(Done, Raises(false)));
      e.raised && !EndsAfter(ends, e.calls).write
  {
    var calls := [ClosesRead(Done), ClosesWrite(Raises(false))];
    assert EffectOf(p, Fails(Done, Raises(false))).calls == calls;
    assert calls[1..] == [ClosesWrite(Raises(false))] && calls[1..][1..] == [];
  }

  /** A fail that raises after the end was closed leaves the last readiness state, and still nothing follows. */
  lemma RaisedFailMayStillShut()
    ensures
      var call := Fails(Done, Raises(false));
      EffectOf(Exec(INITIAL, READY).parent, call).raised && !SomeRunProceeds(ApplyCall(Exec(INITIAL, READY), call))
  {
    ReadyState();
    FailShuts(Stage(5).parent, Ends(true, true));
    FailedFirstIff(READY, Fails(Done, Raises(false)));
  }

  lemma LaunchCloses(s: System)
    requires s.pending == [] && s.parent.readHeld
    ensures
      var t := ApplyCall(s, Started(Done));
      t == s.(tally := t.tally, parent := s.parent.(readHeld := false), ends := s.ends.(read := false))
  {
    assert EffectOf(s.parent, Started(Done)).calls == [ClosesRead(Done)];
  }

  const RAISED_RELEASE := Releases(Some(1), Done, Done, Raises(true))

  lemma RaisedReleaseStep(s: System)
    requires s.parent.state == FailureCollectorReady && s.pending == [] && CanWrite(s) && s.pipe == ""
    ensures
      var t := ApplyEmit(ApplyCall(s, RAISED_RELEASE));
      t == s.(tally := t.tally, pipe := TOKEN)
  {
    var calls := [Writes(1), ClosesWrite(Raises(true))];
    assert EffectOf(s.parent, RAISED_RELEASE) == Effect(s.parent, true, calls);
    assert calls[1..] == [ClosesWrite(Raises(true))] && TOKEN[..1] == TOKEN;
  }

  lemma RaisedReleaseTally(s: System)
    requires s.parent.state == FailureCollectorReady && s.pending == [] && CanWrite(s)
    ensures
      ApplyCall(s, RAISED_RELEASE).tally ==
      s.tally.(tokens := s.tally.tokens + 1, writeCloses := s.tally.writeCloses + 1,
               writeRaises := s.tally.writeRaises + 1)
  {
    var calls := [Writes(1), ClosesWrite(Raises(true))];
    assert EffectOf(s.parent, RAISED_RELEASE).calls == calls;
    assert calls[1..] == [calls[1]];
    assert AddAll(Add(s.tally, calls[0]), [calls[1]]) == Add(Add(s.tally, calls[0]), calls[1]);
  }

  /** A release whose close raises with the end still open can be repeated, and writes a second token. */
  lemma RaisedReleaseWritesTwice()
    ensures
      var s := ApplyEmit(ApplyCall(Exec(INITIAL, READY), RAISED_RELEASE));
      var t := ApplyCall(s, RAISED_RELEASE);
      t.tally.tokens == 2 && t.tally.writeCloses == 2 && t.tally.writeRaises == 2
  {
    ReadyState();
    RaisedReleaseStep(Stage(5));
    RaisedReleaseTally(Stage(5));
    var s := ApplyEmit(ApplyCall(Stage(5), RAISED_RELEASE));
    assert s.tally == ApplyCall(Stage(5), RAISED_RELEASE).tally;
    RaisedReleaseTally(s);
  }

  lemma LastReader(s: System)
    requires s.parent.state == FailureCollectorReady && s.parent.writeHeld && s.pending == []
    requires s.pipe == TOKEN && s.child == Waiting && s.ends == Ends(false, true)
    ensures
      var t := Apply(Apply(s, ChildReads), ChildCloses(Done));
      t.child == Proceeded && GateOpen(t) && !SomeTokenFollows(t)
  {
    var t := Apply(Apply(s, ChildReads), ChildCloses(Done));
    assert s.pipe[..1] == TOKEN;
    forall after ensures Exec(t, after).tally.tokens == t.tally.tokens {
      CannotWriteEver(t, after);
    }
  }

  /** The same release after an ordinary launch: the gate is still open, but nobody reads and nothing can follow. */
  lemma RaisedReleaseWithoutReader()
    ensures
      var started := ApplyCall(Exec(INITIAL, READY), Started(Done));
      var released := ApplyEmit(ApplyCall(started, RAISED_RELEASE));
      var s := Apply(Apply(released, ChildReads), ChildCloses(Done));
      s.child == Proceeded && GateOpen(s) && !SomeTokenFollows(s)
  {
    ReadyState();
    var started := ApplyCall(Stage(5), Started(Done));
    LaunchCloses(Stage(5));
    RaisedReleaseStep(started);
    LastReader(ApplyEmit(ApplyCall(started, RAISED_RELEASE)));
  }
}
