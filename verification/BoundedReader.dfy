/**
 `read_bounded_response` of tools/_retrieval_inventory_transport.py. The response is the
 sequence of what its `read(1)` calls give; past the end every call gives end of file.
 */
module BoundedReader {
  import opened Wrappers
  import opened JsonText
  import opened StreamingGuard
  import GuardBytes
  import opened GuardTheorems
  import opened GuardVerdict

  /** One turn of the loop: the deadline has passed, or the call returned these bytes or no bytes object. */
  datatype ReadEvent = Expired | Data(chunk: bytes) | NotBytes

  datatype ReadRefusal =
    | RequestTimeout
    | TransportReadViolation
    | IncompleteBody
    | ByteCapExceeded
    | UnclosedJson
    | GuardRefused(why: Refusal)

  function EventAt(replies: seq<ReadEvent>, i: nat): ReadEvent {
    if i < |replies| then replies[i] else Data([])
  }

  /** The calls delivered `body` one byte at a time. */
  ghost predicate Delivers(replies: seq<ReadEvent>, body: bytes) {
    forall i :: 0 <= i < |body| ==> EventAt(replies, i) == Data([body[i]])
  }

  /** The length rule: the declared length exactly, or end of file before the cap. */
  predicate LengthOk(declared: Option<nat>, byteCap: nat, n: nat) {
    n <= byteCap && (if declared.Some? then n == declared.value else n < byteCap)
  }

  /** `body` is what a bounded read of this response may return. */
  ghost predicate Returns(decode: Decoder, replies: seq<ReadEvent>, declared: Option<nat>, byteCap: nat,
                          entryCap: Option<nat>, body: bytes) {
    && Delivers(replies, body)
    && LengthOk(declared, byteCap, |body|)
    && (|body| < byteCap ==> EventAt(replies, |body|) == Data([]))
    && GuardBytes.Accepts(decode, entryCap, body)
  }

  /** The bytes read so far: delivered one by one and accepted by the guard. */
  ghost predicate ReadSoFar(decode: Decoder, replies: seq<ReadEvent>, byteCap: nat, entryCap: Option<nat>, buf: bytes) {
    Delivers(replies, buf) && |buf| <= byteCap && Feed(decode, Live(Init(entryCap)), buf).Live?
  }

  /** What a refusal tells: where the reading stood, and what was wrong there. */
  ghost predicate Explains(decode: Decoder, replies: seq<ReadEvent>, declared: Option<nat>, byteCap: nat,
                           entryCap: Option<nat>, buf: bytes, why: ReadRefusal) {
    if declared.Some? && declared.value > byteCap then why == ByteCapExceeded
    else
      && ReadSoFar(decode, replies, byteCap, entryCap, buf)
      && var event := EventAt(replies, |buf|);
      var ended := |buf| < byteCap && event == Data([]);
      match why
      case RequestTimeout => |buf| < byteCap && event == Expired
      case TransportReadViolation => |buf| < byteCap && (event == NotBytes || (event.Data? && |event.chunk| > 1))
      case GuardRefused(reason) =>
        && |buf| < byteCap && event.Data? && |event.chunk| == 1
        && var out := Feed(decode, Live(Init(entryCap)), buf + event.chunk);
        out.Stopped? && out.why == reason
      case IncompleteBody => ended && declared.Some? && declared.value != |buf|
      case ByteCapExceeded => |buf| == byteCap && declared != Some(byteCap)
      case UnclosedJson =>
        && (ended || |buf| == byteCap) && LengthOk(declared, byteCap, |buf|)
        && !Feed(decode, Live(Init(entryCap)), buf).s.closed
  }

  /** The calls made up to a refusal: one for each byte, and the one that was refused or saw the end. */
  ghost function CallsMade(declared: Option<nat>, byteCap: nat, buf: bytes, why: ReadRefusal): nat {
    if declared.Some? && declared.value > byteCap then 0
    else if why == RequestTimeout || |buf| == byteCap then |buf|
    else |buf| + 1
  }

  ghost predicate RefusedAfter(decode: Decoder, replies: seq<ReadEvent>, declared: Option<nat>, byteCap: nat,
                               entryCap: Option<nat>, calls: nat, why: ReadRefusal) {
    exists buf :: Explains(decode, replies, declared, byteCap, entryCap, buf, why) &&
                  calls == CallsMade(declared, byteCap, buf, why)
  }

  lemma DeliveredPrefix(replies: seq<ReadEvent>, buf: bytes, byteCap: nat, body: bytes)
    requires Delivers(replies, buf) && Delivers(replies, body) && |buf| <= byteCap && |body| <= byteCap
    requires |body| < byteCap ==> EventAt(replies, |body|) == Data([])
    ensures buf <= body
  {
    assert |buf| <= |body|;
    forall i | 0 <= i < |buf| ensures buf[i] == body[i] {
      assert [buf[i]][0] == [body[i]][0];
    }
  }

  /** The response and the cap determine where the body ends. */
  lemma DeliveredSame(replies: seq<ReadEvent>, buf: bytes, byteCap: nat, body: bytes)
    requires Delivers(replies, buf) && Delivers(replies, body) && |buf| <= byteCap && |body| <= byteCap
    requires |buf| < byteCap ==> EventAt(replies, |buf|) == Data([])
    requires |body| < byteCap ==> EventAt(replies, |body|) == Data([])
    ensures buf == body
  {
    DeliveredPrefix(replies, buf, byteCap, body);
    DeliveredPrefix(replies, body, byteCap, buf);
  }

  lemma FeedOneMore(decode: Decoder, entryCap: Option<nat>, buf: bytes, s: State, b: byte)
    requires Inv(s) && Feed(decode, Live(Init(entryCap)), buf) == Live(s)
    ensures
      var out := Feed(decode, Live(Init(entryCap)), buf + [b]);
      var step := Step(decode, s, b);
      if step.Ok? then out == Live(step.s) else out.Stopped? && out.why == step.why
  {
    StepByte(decode, s, b);
    FeedConcat(decode, Live(Init(entryCap)), buf, [b]);
  }

  /** A body that starts with refused bytes is never returned. */
  lemma RefusedNotReturned(decode: Decoder, replies: seq<ReadEvent>, declared: Option<nat>, byteCap: nat,
                           entryCap: Option<nat>, buf: bytes)
    requires Delivers(replies, buf) && |buf| <= byteCap && Feed(decode, Live(Init(entryCap)), buf).Stopped?
    ensures forall body :: !Returns(decode, replies, declared, byteCap, entryCap, body)
  {
    forall body | Returns(decode, replies, declared, byteCap, entryCap, body) ensures false {
      DeliveredPrefix(replies, buf, byteCap, body);
      assert body == buf + body[|buf|..];
      FeedConcat(decode, Live(Init(entryCap)), buf, body[|buf|..]);
    }
  }

  /** A call that is neither one byte nor the end of file leaves nothing to return. */
  lemma BadCallNotReturned(decode: Decoder, replies: seq<ReadEvent>, declared: Option<nat>, byteCap: nat,
                           entryCap: Option<nat>, buf: bytes)
    requires Delivers(replies, buf) && |buf| < byteCap
    requires EventAt(replies, |buf|).Data? ==> |EventAt(replies, |buf|).chunk| > 1
    ensures forall body :: !Returns(decode, replies, declared, byteCap, entryCap, body)
  {
    forall body | Returns(decode, replies, declared, byteCap, entryCap, body) ensures false {
      DeliveredPrefix(replies, buf, byteCap, body);
    }
  }

  /** Once the body has ended, only it can be returned. */
  lemma OnlyTheBodyReturned(decode: Decoder, replies: seq<ReadEvent>, declared: Option<nat>, byteCap: nat,
                            entryCap: Option<nat>, buf: bytes)
    requires Delivers(replies, buf) && |buf| <= byteCap
    requires |buf| < byteCap ==> EventAt(replies, |buf|) == Data([])
    ensures forall body :: Returns(decode, replies, declared, byteCap, entryCap, body) ==> body == buf
  {
    forall body | Returns(decode, replies, declared, byteCap, entryCap, body) ensures body == buf {
      DeliveredSame(replies, buf, byteCap, body);
    }
  }

  /** A call that gave neither one byte nor the end. */
  lemma BadCall(decode: Decoder, replies: seq<ReadEvent>, declared: Option<nat>, byteCap: nat,
                entryCap: Option<nat>, buf: bytes)
    requires ReadSoFar(decode, replies, byteCap, entryCap, buf) && |buf| < byteCap
    requires EventAt(replies, |buf|).Data? ==> |EventAt(replies, |buf|).chunk| > 1
    requires declared.Some? ==> declared.value <= byteCap
    ensures forall body :: !Returns(decode, replies, declared, byteCap, entryCap, body)
    ensures
      var late := EventAt(replies, |buf|).Expired?;
      RefusedAfter(decode, replies, declared, byteCap, entryCap, if late then |buf| else |buf| + 1,
                   if late then RequestTimeout else TransportReadViolation)
  {
    BadCallNotReturned(decode, replies, declared, byteCap, entryCap, buf);
    assert Explains(decode, replies, declared, byteCap, entryCap, buf,
                    if EventAt(replies, |buf|).Expired? then RequestTimeout else TransportReadViolation);
  }

  /** A body that ended but cannot be returned. */
  lemma BadBody(decode: Decoder, replies: seq<ReadEvent>, declared: Option<nat>, byteCap: nat,
                entryCap: Option<nat>, buf: bytes, ended: bool)
    requires ReadSoFar(decode, replies, byteCap, entryCap, buf) && (declared.Some? ==> declared.value <= byteCap)
    requires if ended then |buf| < byteCap && EventAt(replies, |buf|) == Data([]) else |buf| == byteCap
    ensures forall body :: Returns(decode, replies, declared, byteCap, entryCap, body) ==> body == buf
    ensures
      var calls := if ended then |buf| + 1 else |buf|;
      && (ended && declared.Some? && declared.value != |buf| ==>
            RefusedAfter(decode, replies, declared, byteCap, entryCap, calls, IncompleteBody))
      && (!ended && declared != Some(byteCap) ==>
            RefusedAfter(decode, replies, declared, byteCap, entryCap, calls, ByteCapExceeded))
      && (LengthOk(declared, byteCap, |buf|) && !Feed(decode, Live(Init(entryCap)), buf).s.closed ==>
            RefusedAfter(decode, replies, declared, byteCap, entryCap, calls, UnclosedJson))
  {
    OnlyTheBodyReturned(decode, replies, declared, byteCap, entryCap, buf);
    assert ended && declared.Some? && declared.value != |buf| ==>
      Explains(decode, replies, declared, byteCap, entryCap, buf, IncompleteBody);
    assert !ended && declared != Some(byteCap) ==>
      Explains(decode, replies, declared, byteCap, entryCap, buf, ByteCapExceeded);
    assert LengthOk(declared, byteCap, |buf|) && !Feed(decode, Live(Init(entryCap)), buf).s.closed ==>
      Explains(decode, replies, declared, byteCap, entryCap, buf, UnclosedJson);
  }

  lemma DeliversMore(replies: seq<ReadEvent>, buf: bytes, b: byte)
    requires Delivers(replies, buf) && EventAt(replies, |buf|) == Data([b])
    ensures Delivers(replies, buf + [b])
  {
  }

  lemma ExplainsRefusal(decode: Decoder, replies: seq<ReadEvent>, declared: Option<nat>, byteCap: nat,
                        entryCap: Option<nat>, buf: bytes, b: byte, why: Refusal)
    requires ReadSoFar(decode, replies, byteCap, entryCap, buf) && |buf| < byteCap
    requires EventAt(replies, |buf|) == Data([b]) && (declared.Some? ==> declared.value <= byteCap)
    requires
      var out := Feed(decode, Live(Init(entryCap)), buf + [b]);
      out.Stopped? && out.why == why
    ensures Explains(decode, replies, declared, byteCap, entryCap, buf, GuardRefused(why))
  {
  }

  lemma RefusedChunk(decode: Decoder, replies: seq<ReadEvent>, declared: Option<nat>, byteCap: nat,
                     entryCap: Option<nat>, buf: bytes, b: byte, why: Refusal)
    requires ReadSoFar(decode, replies, byteCap, entryCap, buf) && |buf| < byteCap
    requires EventAt(replies, |buf|) == Data([b]) && (declared.Some? ==> declared.value <= byteCap)
    requires
      var out := Feed(decode, Live(Init(entryCap)), buf + [b]);
      out.Stopped? && out.why == why
    ensures forall body :: !Returns(decode, replies, declared, byteCap, entryCap, body)
    ensures RefusedAfter(decode, replies, declared, byteCap, entryCap, |buf| + 1, GuardRefused(why))
  {
    DeliversMore(replies, buf, b);
    RefusedNotReturned(decode, replies, declared, byteCap, entryCap, buf + [b]);
    ExplainsRefusal(decode, replies, declared, byteCap, entryCap, buf, b, why);
  }

  /** A byte that the guard refuses, after bytes it accepted. */
  lemma RefusedByte(decode: Decoder, replies: seq<ReadEvent>, declared: Option<nat>, byteCap: nat,
                    entryCap: Option<nat>, buf: bytes, s: State, b: byte)
    requires Inv(s) && Feed(decode, Live(Init(entryCap)), buf) == Live(s) && Delivers(replies, buf) && |buf| < byteCap
    requires EventAt(replies, |buf|) == Data([b]) && Step(decode, s, b).Err?
    requires declared.Some? ==> declared.value <= byteCap
    ensures forall body :: !Returns(decode, replies, declared, byteCap, entryCap, body)
    ensures RefusedAfter(decode, replies, declared, byteCap, entryCap, |buf| + 1, GuardRefused(Step(decode, s, b).why))
  {
    FeedOneMore(decode, entryCap, buf, s, b);
    RefusedChunk(decode, replies, declared, byteCap, entryCap, buf, b, Step(decode, s, b).why);
  }

  /** The reading loop: it stops at a refusal, at the end of the response or at the cap. */
  method ReadAll(decode: Decoder, replies: seq<ReadEvent>, ghost declared: Option<nat>, byteCap: nat, entryCap: Option<nat>)
    returns (guard: StreamingJsonGuard, buf: bytes, eof: bool, calls: nat, why: Option<ReadRefusal>)
    requires declared.Some? ==> declared.value <= byteCap
    ensures calls <= byteCap
    ensures why.Some? ==>
      && (forall body :: !Returns(decode, replies, declared, byteCap, entryCap, body))
      && RefusedAfter(decode, replies, declared, byteCap, entryCap, calls, why.value)
    ensures why.None? ==>
      && ReadSoFar(decode, replies, byteCap, entryCap, buf) && calls == |buf| + (if eof then 1 else 0)
      && Feed(decode, Live(Init(entryCap)), buf).s.closed == guard.closed
      && if eof then |buf| < byteCap && EventAt(replies, |buf|) == Data([]) else |buf| == byteCap
  {
    guard := new StreamingJsonGuard(decode, entryCap);
    buf, eof, calls, why := [], false, 0, None;
    while |buf| < byteCap && !eof
      invariant |buf| <= byteCap
      invariant calls == |buf| + (if eof then 1 else 0) && calls <= byteCap
      invariant guard.Valid() && guard.decode == decode && guard.entryCap == entryCap
      invariant fresh(guard)
      invariant Delivers(replies, buf)
      invariant Feed(decode, Live(Init(entryCap)), buf) == Live(guard.View())
      invariant eof ==> |buf| < byteCap && EventAt(replies, |buf|) == Data([])
      decreases byteCap - |buf|, !eof
    {
      var event := EventAt(replies, |buf|);
      if event == Data([]) {
        calls := calls + 1;
        eof := true;
      } else if event.Data? && |event.chunk| == 1 {
        calls := calls + 1;
        var b := event.chunk[0];
        assert event.chunk == [b];
        ghost var before, s := buf, guard.View();
        FeedOneMore(decode, entryCap, before, s, b);
        var refusal := guard.Feed(b);
        if refusal.Some? {
          RefusedByte(decode, replies, declared, byteCap, entryCap, before, s, b);
          why := Some(GuardRefused(refusal.value));
          return;
        }
        buf := buf + [b];
      } else {
        BadCall(decode, replies, declared, byteCap, entryCap, buf);
        calls := if event.Expired? then calls else calls + 1;
        why := Some(if event.Expired? then RequestTimeout else TransportReadViolation);
        return;
      }
    }
  }

  /**
   A success is a returnable body; a refusal means no body is returnable, and says where the reading
   stood. At most `byteCap` calls are made, one for each byte and one more only to see the end of file.
   */
  method ReadBoundedResponse(decode: Decoder, replies: seq<ReadEvent>, declared: Option<nat>, byteCap: nat,
                             entryCap: Option<nat>)
    returns (r: Result<bytes, ReadRefusal>, calls: nat)
    ensures calls <= byteCap
    ensures r.Success? ==> Returns(decode, replies, declared, byteCap, entryCap, r.value)
    ensures r.Success? ==> calls == |r.value| + (if |r.value| < byteCap then 1 else 0)
    ensures r.Failure? ==> forall body :: !Returns(decode, replies, declared, byteCap, entryCap, body)
    ensures r.Failure? ==> RefusedAfter(decode, replies, declared, byteCap, entryCap, calls, r.error)
  {
    if declared.Some? && declared.value > byteCap {
      assert Explains(decode, replies, declared, byteCap, entryCap, [], ByteCapExceeded);
      return Failure(ByteCapExceeded), 0;
    }
    var guard, buf, eof, why;
    guard, buf, eof, calls, why := ReadAll(decode, replies, declared, byteCap, entryCap);
    if why.Some? {
      return Failure(why.value), calls;
    }
    BadBody(decode, replies, declared, byteCap, entryCap, buf, eof);
    if (if eof then declared.Some? && declared.value != |buf| else declared != Some(byteCap)) {
      return Failure(if eof then IncompleteBody else ByteCapExceeded), calls;
    }
    if !guard.closed {
      return Failure(UnclosedJson), calls;
    }
    return Success(buf), calls;
  }

  /**
   A response that delivers a printed document and then ends is returned whole exactly when the
   document is admissible and its length obeys the length rule.
   */
  lemma DocumentReturned(decode: Decoder, replies: seq<ReadEvent>, declared: Option<nat>, byteCap: nat,
                         entryCap: Option<nat>, d: Document)
    requires WellFormedDocument(d)
    requires Delivers(replies, PrintDocument(d)) && EventAt(replies, |PrintDocument(d)|) == Data([])
    ensures Returns(decode, replies, declared, byteCap, entryCap, PrintDocument(d)) <==>
            LengthOk(declared, byteCap, |PrintDocument(d)|) && Admissible(decode, entryCap, d.items)
  {
    GuardDecidesAdmissible(decode, entryCap, d);
  }

  /** Whatever the bytes: a returned body is one object in blanks, closed once, at its last byte that is not blank. */
  lemma ReturnedIsObject(decode: Decoder, replies: seq<ReadEvent>, declared: Option<nat>, byteCap: nat,
                         entryCap: Option<nat>, body: bytes)
    returns (first: nat, n: nat)
    requires Returns(decode, replies, declared, byteCap, entryCap, body)
    ensures first < n <= |body| && Blank(body[..first]) && body[first] == LBRACE
    ensures body[n - 1] == RBRACE && Blank(body[n..])
    ensures GuardBytes.PlaceOf(body[..n]) == GuardBytes.After
    ensures forall k :: 0 <= k < n ==> GuardBytes.PlaceOf(body[..k]) != GuardBytes.After
  {
    first, n := GuardBytes.AcceptedIsObject(decode, entryCap, body);
    GuardBytes.LivePlace(decode, entryCap, body[..n]);
  }
}
