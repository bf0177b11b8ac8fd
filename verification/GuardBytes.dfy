/**
 What the guard decides about arbitrary bytes, documents or not. The reference is a reading of the
 text with no flags: where the text stands (brackets and quotes), what stood at the top level so far,
 and what stood between the entries of the tree array. `Fault` says which byte may not come next, and
 the theorems say that the automaton stops at the first fault, with its reason.
 */
module GuardBytes {
  import opened Wrappers
  import opened JsonText
  import opened StreamingGuard
  import opened GuardTheorems

  // ----- where a text stands

  datatype Place = Before | Inside(open: bytes, quoted: bool, escaped: bool) | After

  predicate Opens(b: byte) {
    b == LBRACE || b == LBRACKET
  }

  predicate Closes(b: byte) {
    b == RBRACE || b == RBRACKET
  }

  /** Outside strings brackets open and close; at the outermost level only a brace closes. */
  function Move(p: Place, b: byte): Place {
    match p
    case Before => if IsBlank(b) then Before else Inside([b], false, false)
    case After => After
    case Inside(open, quoted, escaped) =>
      if quoted then Inside(open, escaped || b != QUOTE, !escaped && b == BACKSLASH)
      else if b == QUOTE then Inside(open, true, false)
      else if Opens(b) then Inside(open + [b], false, false)
      else if b == RBRACE && |open| <= 1 then After
      else if Closes(b) && |open| > 1 then Inside(open[..|open| - 1], false, false)
      else p
  }

  function PlaceOf(text: bytes): Place {
    if text == [] then Before else Move(PlaceOf(text[..|text| - 1]), text[|text| - 1])
  }

  // ----- what was read

  /** A whole string or another byte at the outermost level. */
  datatype Top = Str(body: bytes) | Mark(b: byte)

  /** `body` is the string being read at the outermost level, `entries` what stood in tree arrays. */
  datatype Reading = Reading(place: Place, tops: seq<Top>, body: bytes, entries: bytes)

  /** Neither a string nor a literal stood at the outermost level since the last comma. */
  predicate ExpectsKey(tops: seq<Top>) {
    tops == [] ||
    var last := tops[|tops| - 1];
    last.Mark? && (last.b == COMMA || ((last.b == COLON || Opens(last.b) || last.b == RBRACE) &&
                                       ExpectsKey(tops[..|tops| - 1])))
  }

  /** The name of the current member: the string that came first since the last comma. */
  function KeyName(decode: Decoder, tops: seq<Top>): string {
    if tops == [] then ""
    else
      var init, last := tops[..|tops| - 1], tops[|tops| - 1];
      if last == Mark(COMMA) then ""
      else if last.Str? && ExpectsKey(init) && decode(last.body).Some? then decode(last.body).value
      else KeyName(decode, init)
  }

  function KeyNames(decode: Decoder, tops: seq<Top>): set<string> {
    if tops == [] then {}
    else
      var init, last := tops[..|tops| - 1], tops[|tops| - 1];
      KeyNames(decode, init) +
      if last.Str? && ExpectsKey(init) && decode(last.body).Some? then {decode(last.body).value} else {}
  }

  /** A colon after the name `tree` was the last thing at the outermost level. */
  predicate AwaitsTree(decode: Decoder, cap: Option<nat>, tops: seq<Top>) {
    cap.Some? && tops != [] && tops[|tops| - 1] == Mark(COLON) && KeyName(decode, tops) == TREE
  }

  /** The bracket last opened at the outermost level is that of a tree array. */
  predicate OpenedTree(decode: Decoder, cap: Option<nat>, tops: seq<Top>) {
    tops != [] && tops[|tops| - 1] == Mark(LBRACKET) && AwaitsTree(decode, cap, tops[..|tops| - 1])
  }

  function ReadOne(decode: Decoder, cap: Option<nat>, r: Reading, b: byte): Reading {
    var next := r.(place := Move(r.place, b));
    match r.place
    case Before => next
    case After => next
    case Inside(open, quoted, escaped) =>
      if |open| == 1 && quoted then
        if !escaped && b == QUOTE then next.(tops := r.tops + [Str(r.body)]) else next.(body := r.body + [b])
      else if quoted || IsBlank(b) then next
      else if |open| == 1 then
        if b == QUOTE then next.(body := []) else next.(tops := r.tops + [Mark(b)])
      else if |open| == 2 && OpenedTree(decode, cap, r.tops) && b != RBRACKET then next.(entries := r.entries + [b])
      else next
  }

  function ReadingOf(decode: Decoder, cap: Option<nat>, text: bytes): Reading {
    if text == [] then Reading(Before, [], [], [])
    else ReadOne(decode, cap, ReadingOf(decode, cap, text[..|text| - 1]), text[|text| - 1])
  }

  lemma {:induction false} ReadingPlace(decode: Decoder, cap: Option<nat>, text: bytes)
    ensures ReadingOf(decode, cap, text).place == PlaceOf(text)
    decreases |text|
  {
    if text != [] {
      ReadingPlace(decode, cap, text[..|text| - 1]);
    }
  }

  // ----- the byte that may not come next

  function Count(entries: bytes): nat {
    if entries == [] then 0 else Count(entries[..|entries| - 1]) + if entries[|entries| - 1] == LBRACE then 1 else 0
  }

  predicate EndsWith(entries: bytes, b: byte) {
    entries != [] && entries[|entries| - 1] == b
  }

  /** In a string; `key` says it is the name of a member. */
  function StringFault(decode: Decoder, key: bool, escaped: bool, body: bytes, names: set<string>, b: byte)
    : Option<Refusal>
  {
    if b == QUOTE && !escaped then
      if !key then None
      else if decode(body).None? then Some(MalformedJson)
      else if decode(body).value in names then Some(DuplicateJsonKey)
      else None
    else if key && |body| >= MAX_KEY_BYTES then Some(MalformedJson)
    else if b < 0x20 && !escaped then Some(MalformedJson)
    else None
  }

  /** At the outermost level only a value that is not an array under `tree`, or a colon without a name, is a fault. */
  function TopFault(decode: Decoder, cap: Option<nat>, tops: seq<Top>, b: byte): Option<Refusal> {
    if AwaitsTree(decode, cap, tops) then if b == LBRACKET then None else Some(InvalidTreeField)
    else if b == COLON && ExpectsKey(tops) then Some(MalformedJson)
    else None
  }

  /** In a tree array entries and commas alternate, and no more than `cap` entries are begun or announced. */
  function EntryFault(cap: nat, entries: bytes, b: byte): Option<Refusal> {
    if b == RBRACKET then if EndsWith(entries, COMMA) then Some(MalformedJson) else None
    else if b != (if EndsWith(entries, LBRACE) then COMMA else LBRACE) then Some(InvalidTreeEntry)
    else if Count(entries) >= cap then Some(TreeEntryCapExceeded)
    else None
  }

  function Opener(b: byte): byte {
    if b == RBRACE then LBRACE else LBRACKET
  }

  function Fault(decode: Decoder, cap: Option<nat>, r: Reading, b: byte): Option<Refusal> {
    match r.place
    case Before => if IsBlank(b) || b == LBRACE then None else Some(InvalidJsonObject)
    case After => if IsBlank(b) then None else Some(MalformedJson)
    case Inside(open, quoted, escaped) =>
      if quoted then
        StringFault(decode, |open| == 1 && ExpectsKey(r.tops), escaped, r.body, KeyNames(decode, r.tops), b)
      else if IsBlank(b) then None
      else if |open| > MAX_DEPTH then Some(JsonDepthExceeded)
      else if |open| == 1 then TopFault(decode, cap, r.tops, b)
      else if |open| == 2 && OpenedTree(decode, cap, r.tops) then EntryFault(cap.value, r.entries, b)
      else if Closes(b) && |open| > 0 && open[|open| - 1] != Opener(b) then Some(MalformedJson)
      else None
  }

  // ----- the automaton's fields are what the reading says

  predicate Stands(s: State, p: Place) {
    match p
    case Before => !s.started && !s.closed
    case After => s.closed
    case Inside(open, quoted, escaped) =>
      s.started && !s.closed && s.stack == open && s.inString == quoted && s.escape == escaped
  }

  predicate Alternates(entries: bytes) {
    forall i :: 0 <= i < |entries| ==> entries[i] == if i % 2 == 0 then LBRACE else COMMA
  }

  predicate TreeAgrees(decode: Decoder, s: State, r: Reading) {
    && s.pendingTree == AwaitsTree(decode, s.entryCap, r.tops)
    && s.inTree == (r.place.Inside? && |r.place.open| > 1 && OpenedTree(decode, s.entryCap, r.tops))
    && s.treeEntries == Count(r.entries) == (|r.entries| + 1) / 2 && Alternates(r.entries)
    && s.expectEntry == EndsWith(r.entries, COMMA)
    && (r.place.Inside? && |r.place.open| == 1 && r.place.quoted ==> !s.pendingTree)
  }

  predicate KeysAgree(decode: Decoder, s: State, r: Reading) {
    && s.expectTopKey == ExpectsKey(r.tops)
    && s.lastTopKey == KeyName(decode, r.tops) && s.seen == KeyNames(decode, r.tops)
    && s.captureKey == (r.place.Inside? && r.place.quoted && |r.place.open| == 1 && ExpectsKey(r.tops))
    && (s.captureKey ==> s.keyBuf == r.body)
  }

  predicate Agrees(decode: Decoder, s: State, r: Reading) {
    && Inv(s) && Stands(s, r.place) && KeysAgree(decode, s, r) && TreeAgrees(decode, s, r)
    && (r.place.Before? ==> r.tops == [] && r.entries == [])
  }

  /** One byte: refused with the reason of the fault, or accepted and read. */
  ghost predicate Follows(decode: Decoder, s: State, r: Reading, b: byte)
    requires Inv(s)
  {
    var step, fault := Step(decode, s, b), Fault(decode, s.entryCap, r, b);
    if fault.Some? then step.Err? && step.why == fault.value
    else step.Ok? && Agrees(decode, step.s, ReadOne(decode, s.entryCap, r, b))
  }

  /** One more byte at the outermost level. */
  lemma MarkAdds(decode: Decoder, cap: Option<nat>, tops: seq<Top>, b: byte)
    ensures
      var more := tops + [Mark(b)];
      && KeyNames(decode, more) == KeyNames(decode, tops)
      && KeyName(decode, more) == (if b == COMMA then "" else KeyName(decode, tops))
      && ExpectsKey(more) == (b == COMMA || ((b == COLON || Opens(b) || b == RBRACE) && ExpectsKey(tops)))
      && AwaitsTree(decode, cap, more) == (cap.Some? && b == COLON && KeyName(decode, tops) == TREE)
      && OpenedTree(decode, cap, more) == (b == LBRACKET && AwaitsTree(decode, cap, tops))
  {
    var more := tops + [Mark(b)];
    assert more[|more| - 1] == Mark(b) && more[..|more| - 1] == tops;
  }

  /** One more string there. */
  lemma StrAdds(decode: Decoder, cap: Option<nat>, tops: seq<Top>, body: bytes)
    ensures
      var more := tops + [Str(body)];
      var named := ExpectsKey(tops) && decode(body).Some?;
      && KeyNames(decode, more) == KeyNames(decode, tops) + (if named then {decode(body).value} else {})
      && KeyName(decode, more) == (if named then decode(body).value else KeyName(decode, tops))
      && !ExpectsKey(more) && !AwaitsTree(decode, cap, more) && !OpenedTree(decode, cap, more)
  {
    var more := tops + [Str(body)];
    assert more[|more| - 1] == Str(body) && more[..|more| - 1] == tops;
  }

  lemma QuoteFollows(decode: Decoder, s: State, r: Reading)
    requires Agrees(decode, s, r) && r.place.Inside? && r.place.quoted && !r.place.escaped
    ensures Follows(decode, s, r, QUOTE)
  {
    StrAdds(decode, s.entryCap, r.tops, r.body);
    StringStepKeepsInv(decode, s, QUOTE);
  }

  lemma StringFollows(decode: Decoder, s: State, r: Reading, b: byte)
    requires Agrees(decode, s, r) && r.place.Inside? && r.place.quoted
    ensures Follows(decode, s, r, b)
  {
    if b == QUOTE && !r.place.escaped {
      QuoteFollows(decode, s, r);
    } else {
      StringStepKeepsInv(decode, s, b);
    }
  }

  /** At the outermost level, a blank or the start of a string. */
  lemma TopRests(decode: Decoder, s: State, r: Reading, b: byte)
    requires Agrees(decode, s, r) && r.place.Inside? && !r.place.quoted && |r.place.open| == 1
    requires IsBlank(b) || b == QUOTE
    ensures Follows(decode, s, r, b)
  {
    TopStepKeepsInv(s, b);
  }

  /** Any other byte. */
  lemma TopMarks(decode: Decoder, s: State, r: Reading, b: byte)
    requires Agrees(decode, s, r) && r.place.Inside? && !r.place.quoted && |r.place.open| == 1
    requires !IsBlank(b) && b != QUOTE
    ensures Follows(decode, s, r, b)
  {
    MarkAdds(decode, s.entryCap, r.tops, b);
    TopStepKeepsInv(s, b);
  }

  lemma TopFollows(decode: Decoder, s: State, r: Reading, b: byte)
    requires Agrees(decode, s, r) && r.place.Inside? && !r.place.quoted && |r.place.open| == 1
    ensures Follows(decode, s, r, b)
  {
    if IsBlank(b) || b == QUOTE {
      TopRests(decode, s, r, b);
    } else {
      TopMarks(decode, s, r, b);
    }
  }

  lemma EntryAdds(entries: bytes, b: byte)
    requires Alternates(entries) && Count(entries) == (|entries| + 1) / 2
    requires b == if EndsWith(entries, LBRACE) then COMMA else LBRACE
    ensures
      var more := entries + [b];
      && Alternates(more) && Count(more) == (|more| + 1) / 2
      && Count(more) == Count(entries) + (if b == LBRACE then 1 else 0) && EndsWith(more, b)
  {
    var more := entries + [b];
    assert more[|more| - 1] == b && more[..|more| - 1] == entries;
    assert entries != [] ==> entries[|entries| - 1] == if (|entries| - 1) % 2 == 0 then LBRACE else COMMA;
  }

  /** After an entry comes no entry, and a comma only after one. */
  lemma EntryTurn(entries: bytes)
    requires Alternates(entries)
    ensures entries == [] || EndsWith(entries, LBRACE) || EndsWith(entries, COMMA)
    ensures !(EndsWith(entries, LBRACE) && EndsWith(entries, COMMA))
  {
  }

  /** In a tree array, a blank or the closing bracket. */
  lemma EntryRests(decode: Decoder, s: State, r: Reading, b: byte)
    requires Agrees(decode, s, r) && r.place.Inside? && !r.place.quoted && |r.place.open| == 2 && s.inTree
    requires IsBlank(b) || b == RBRACKET
    ensures Follows(decode, s, r, b)
  {
    assert ReadOne(decode, s.entryCap, r, b) == r.(place := Move(r.place, b));
    TreeStepKeepsInv(s, b);
  }

  /** The comma after an entry. */
  lemma EntryComma(decode: Decoder, s: State, r: Reading)
    requires Agrees(decode, s, r) && r.place.Inside? && !r.place.quoted && |r.place.open| == 2 && s.inTree
    requires EndsWith(r.entries, LBRACE)
    ensures Follows(decode, s, r, COMMA)
  {
    EntryTurn(r.entries);
    EntryAdds(r.entries, COMMA);
    assert ReadOne(decode, s.entryCap, r, COMMA) == r.(entries := r.entries + [COMMA]);
    assert Step(decode, s, COMMA).Ok? ==> Step(decode, s, COMMA).s == s.(expectEntry := true);
    TreeStepKeepsInv(s, COMMA);
  }

  /** The brace of an entry. */
  lemma EntryBrace(decode: Decoder, s: State, r: Reading)
    requires Agrees(decode, s, r) && r.place.Inside? && !r.place.quoted && |r.place.open| == 2 && s.inTree
    requires !EndsWith(r.entries, LBRACE)
    ensures Follows(decode, s, r, LBRACE)
  {
    EntryTurn(r.entries);
    EntryAdds(r.entries, LBRACE);
    assert ReadOne(decode, s.entryCap, r, LBRACE) == r.(place := Move(r.place, LBRACE), entries := r.entries + [LBRACE]);
    TreeStepKeepsInv(s, LBRACE);
  }

  /** Anything else. */
  lemma EntryWrong(decode: Decoder, s: State, r: Reading, b: byte)
    requires Agrees(decode, s, r) && r.place.Inside? && !r.place.quoted && |r.place.open| == 2 && s.inTree
    requires !IsBlank(b) && b != RBRACKET && b != if EndsWith(r.entries, LBRACE) then COMMA else LBRACE
    ensures Follows(decode, s, r, b)
  {
    EntryTurn(r.entries);
  }

  lemma EntryFollows(decode: Decoder, s: State, r: Reading, b: byte)
    requires Agrees(decode, s, r) && r.place.Inside? && !r.place.quoted && |r.place.open| == 2 && s.inTree
    ensures Follows(decode, s, r, b)
  {
    if IsBlank(b) || b == RBRACKET {
      EntryRests(decode, s, r, b);
    } else if EndsWith(r.entries, LBRACE) && b == COMMA {
      EntryComma(decode, s, r);
    } else if !EndsWith(r.entries, LBRACE) && b == LBRACE {
      EntryBrace(decode, s, r);
    } else {
      EntryWrong(decode, s, r, b);
    }
  }

  /** Below the outermost level, a byte that is no bracket and no quote, or one too deep. */
  lemma NestedRests(decode: Decoder, s: State, r: Reading, b: byte)
    requires Agrees(decode, s, r) && r.place.Inside? && !r.place.quoted && |r.place.open| >= 2
    requires !(|r.place.open| == 2 && s.inTree) && !Opens(b) && !Closes(b) && b != QUOTE
    ensures Follows(decode, s, r, b)
  {
    assert ReadOne(decode, s.entryCap, r, b) == r;
  }

  lemma NestedFollows(decode: Decoder, s: State, r: Reading, b: byte)
    requires Agrees(decode, s, r) && r.place.Inside? && !r.place.quoted && |r.place.open| >= 2
    requires !(|r.place.open| == 2 && s.inTree)
    ensures Follows(decode, s, r, b)
  {
    if !Opens(b) && !Closes(b) && b != QUOTE {
      NestedRests(decode, s, r, b);
    } else if |s.stack| <= MAX_DEPTH {
      assert ReadOne(decode, s.entryCap, r, b) == r.(place := Move(r.place, b));
      NestedStepKeepsInv(s, b);
    }
  }

  lemma ByteFollows(decode: Decoder, s: State, r: Reading, b: byte)
    requires Agrees(decode, s, r)
    ensures Follows(decode, s, r, b)
  {
    if !r.place.Inside? {
      StepKeepsInv(decode, s, b);
    } else if r.place.quoted {
      StringFollows(decode, s, r, b);
    } else if |r.place.open| == 1 {
      TopFollows(decode, s, r, b);
    } else if |r.place.open| == 2 && s.inTree {
      EntryFollows(decode, s, r, b);
    } else {
      NestedFollows(decode, s, r, b);
    }
  }

  // ----- every text

  function RunOver(decode: Decoder, cap: Option<nat>, text: bytes): Run {
    Feed(decode, Live(Init(cap)), text)
  }

  function FaultAt(decode: Decoder, cap: Option<nat>, text: bytes, i: nat): Option<Refusal>
    requires i < |text|
  {
    Fault(decode, cap, ReadingOf(decode, cap, text[..i]), text[i])
  }

  ghost predicate Faultless(decode: Decoder, cap: Option<nat>, text: bytes, n: nat)
    requires n <= |text|
  {
    forall i :: 0 <= i < n ==> FaultAt(decode, cap, text, i).None?
  }

  /** One more byte after a text that was accepted. */
  lemma OneMore(decode: Decoder, cap: Option<nat>, text: bytes, b: byte)
    requires RunOver(decode, cap, text).Live? && RunOver(decode, cap, text).s.entryCap == cap
    requires Agrees(decode, RunOver(decode, cap, text).s, ReadingOf(decode, cap, text))
    ensures
      var out, fault := RunOver(decode, cap, text + [b]), Fault(decode, cap, ReadingOf(decode, cap, text), b);
      if fault.Some? then out.Stopped? && out.why == fault.value && out.unread == [b]
      else out.Live? && out.s.entryCap == cap && Agrees(decode, out.s, ReadingOf(decode, cap, text + [b]))
  {
    var s := RunOver(decode, cap, text).s;
    ByteFollows(decode, s, ReadingOf(decode, cap, text), b);
    StepKeepsInv(decode, s, b);
    StepByte(decode, s, b);
    FeedConcat(decode, Live(Init(cap)), text, [b]);
    assert (text + [b])[..|text|] == text;
  }

  lemma FaultsAgree(decode: Decoder, cap: Option<nat>, text: bytes, b: byte)
    ensures Faultless(decode, cap, text + [b], |text|) <==> Faultless(decode, cap, text, |text|)
    ensures FaultAt(decode, cap, text + [b], |text|) == Fault(decode, cap, ReadingOf(decode, cap, text), b)
    ensures forall i :: 0 <= i < |text| ==> FaultAt(decode, cap, text + [b], i) == FaultAt(decode, cap, text, i)
  {
    forall i | 0 <= i < |text| ensures FaultAt(decode, cap, text + [b], i) == FaultAt(decode, cap, text, i) {
      assert (text + [b])[..i] == text[..i];
    }
    assert (text + [b])[..|text|] == text;
  }

  /** `out` stopped at the first fault of the text, with its reason. */
  ghost predicate StopsAtFault(decode: Decoder, cap: Option<nat>, text: bytes, out: Run) {
    && out.Stopped? && 0 < |out.unread| <= |text|
    && var n := |text| - |out.unread|;
    && out.unread == text[n..] && Faultless(decode, cap, text, n)
    && FaultAt(decode, cap, text, n) == Some(out.why)
  }

  /** The faults of the single bytes. */
  ghost function FaultsOf(decode: Decoder, cap: Option<nat>, text: bytes): (f: seq<Option<Refusal>>)
    ensures |f| == |text| && forall i :: 0 <= i < |f| ==> f[i] == FaultAt(decode, cap, text, i)
  {
    seq(|text|, i requires 0 <= i < |text| => FaultAt(decode, cap, text, i))
  }

  ghost predicate NoneUpTo(faults: seq<Option<Refusal>>, n: nat)
    requires n <= |faults|
  {
    forall i :: 0 <= i < n ==> faults[i].None?
  }

  /** `out` stopped at the first of these faults. */
  ghost predicate StopsAtFirst(faults: seq<Option<Refusal>>, text: bytes, out: Run) {
    && |faults| == |text| && out.Stopped? && 0 < |out.unread| <= |text|
    && var n := |text| - |out.unread|;
    && out.unread == text[n..] && NoneUpTo(faults, n) && faults[n] == Some(out.why)
  }

  lemma StaysStopped(faults: seq<Option<Refusal>>, text: bytes, out: Run, f: Option<Refusal>, b: byte)
    requires StopsAtFirst(faults, text, out)
    ensures StopsAtFirst(faults + [f], text + [b], Stopped(out.s, out.why, out.unread + [b]))
    ensures !NoneUpTo(faults + [f], |text| + 1)
  {
    var n := |text| - |out.unread|;
    assert (text + [b])[n..] == text[n..] + [b];
    assert (faults + [f])[n] == faults[n];
  }

  lemma StopsNow(faults: seq<Option<Refusal>>, text: bytes, s: State, why: Refusal, b: byte)
    requires |faults| == |text| && NoneUpTo(faults, |text|)
    ensures StopsAtFirst(faults + [Some(why)], text + [b], Stopped(s, why, [b]))
    ensures !NoneUpTo(faults + [Some(why)], |text| + 1)
  {
    assert (text + [b])[|text|..] == [b];
    assert (faults + [Some(why)])[|text|] == Some(why);
  }

  /** The guard read the text along. */
  ghost predicate ReadAlong(decode: Decoder, cap: Option<nat>, text: bytes, out: Run) {
    out.Live? && out.s.entryCap == cap && Agrees(decode, out.s, ReadingOf(decode, cap, text))
  }

  ghost predicate Verdict(decode: Decoder, cap: Option<nat>, text: bytes, faults: seq<Option<Refusal>>, out: Run) {
    && |faults| == |text|
    && if NoneUpTo(faults, |text|) then ReadAlong(decode, cap, text, out) else StopsAtFirst(faults, text, out)
  }

  lemma FaultsGrow(decode: Decoder, cap: Option<nat>, text: bytes, b: byte)
    ensures FaultsOf(decode, cap, text + [b]) ==
            FaultsOf(decode, cap, text) + [Fault(decode, cap, ReadingOf(decode, cap, text), b)]
  {
    FaultsAgree(decode, cap, text, b);
  }

  lemma StoppedRun(decode: Decoder, cap: Option<nat>, text: bytes, rest: bytes)
    requires RunOver(decode, cap, text).Stopped?
    ensures
      var out := RunOver(decode, cap, text);
      RunOver(decode, cap, text + rest) == Stopped(out.s, out.why, out.unread + rest)
  {
    FeedConcat(decode, Live(Init(cap)), text, rest);
  }

  ghost predicate Judged(decode: Decoder, cap: Option<nat>, text: bytes) {
    Verdict(decode, cap, text, FaultsOf(decode, cap, text), RunOver(decode, cap, text))
  }

  lemma JudgedStep(decode: Decoder, cap: Option<nat>, text: bytes, b: byte)
    requires Judged(decode, cap, text)
    ensures Judged(decode, cap, text + [b])
  {
    var faults, out, f := FaultsOf(decode, cap, text), RunOver(decode, cap, text),
                          Fault(decode, cap, ReadingOf(decode, cap, text), b);
    FaultsGrow(decode, cap, text, b);
    if !NoneUpTo(faults, |text|) {
      StoppedRun(decode, cap, text, [b]);
      StaysStopped(faults, text, out, f, b);
    } else {
      OneMore(decode, cap, text, b);
      if f.Some? {
        StopsNow(faults, text, RunOver(decode, cap, text + [b]).s, f.value, b);
      }
    }
  }

  lemma JudgedFirst(decode: Decoder, cap: Option<nat>)
    ensures Judged(decode, cap, [])
  {
  }

  lemma {:induction false} JudgedAll(decode: Decoder, cap: Option<nat>, text: bytes)
    ensures Judged(decode, cap, text)
    decreases |text|
  {
    if text == [] {
      JudgedFirst(decode, cap);
    } else {
      var init, b := text[..|text| - 1], text[|text| - 1];
      assert text == init + [b];
      JudgedAll(decode, cap, init);
      JudgedStep(decode, cap, init, b);
    }
  }

  /** The guard on every text: it stops at the first fault, with that fault's reason, and else reads along. */
  lemma FirstFaultStops(decode: Decoder, cap: Option<nat>, text: bytes)
    ensures
      var out := RunOver(decode, cap, text);
      if Faultless(decode, cap, text, |text|) then
        out.Live? && out.s.entryCap == cap && Agrees(decode, out.s, ReadingOf(decode, cap, text))
      else StopsAtFault(decode, cap, text, out)
  {
    JudgedAll(decode, cap, text);
    forall n | 0 <= n <= |text|
      ensures Faultless(decode, cap, text, n) <==> NoneUpTo(FaultsOf(decode, cap, text), n)
    {
    }
  }

  // ----- what that means

  /** The run over the text accepts every byte and ends closed. */
  ghost predicate Accepts(decode: Decoder, cap: Option<nat>, text: bytes) {
    RunOver(decode, cap, text).Live? && RunOver(decode, cap, text).s.closed
  }

  /** The run over `text` is refused exactly at byte `n`, with this reason. */
  ghost predicate RefusedAt(decode: Decoder, cap: Option<nat>, text: bytes, n: nat, why: Refusal) {
    && n < |text| && RunOver(decode, cap, text[..n]).Live?
    && var out := RunOver(decode, cap, text);
    && out.Stopped? && out.why == why && out.unread == text[n..]
  }

  /** After an accepted prefix the next byte is refused exactly if it is a fault, wherever the text goes on. */
  lemma NextByte(decode: Decoder, cap: Option<nat>, text: bytes, n: nat)
    requires n < |text| && RunOver(decode, cap, text[..n]).Live?
    ensures
      var fault := FaultAt(decode, cap, text, n);
      if fault.Some? then RefusedAt(decode, cap, text, n, fault.value)
      else RunOver(decode, cap, text[..n + 1]).Live?
  {
    var a, b := text[..n], text[n];
    FirstFaultStops(decode, cap, a);
    assert Faultless(decode, cap, a, |a|);
    OneMore(decode, cap, a, b);
    assert text[..n + 1] == a + [b] && text == a + [b] + text[n + 1..];
    if RunOver(decode, cap, a + [b]).Stopped? {
      StoppedRun(decode, cap, a + [b], text[n + 1..]);
    }
    assert text[n..] == [b] + text[n + 1..];
  }

  /** Where an accepted text stands is where its brackets and quotes say. */
  lemma LivePlace(decode: Decoder, cap: Option<nat>, text: bytes)
    requires RunOver(decode, cap, text).Live?
    ensures Stands(RunOver(decode, cap, text).s, PlaceOf(text)) && Inv(RunOver(decode, cap, text).s)
    ensures PlaceOf(text) == ReadingOf(decode, cap, text).place
  {
    FirstFaultStops(decode, cap, text);
    ReadingPlace(decode, cap, text);
  }

  lemma {:induction false} BlankPlace(text: bytes)
    requires Blank(text)
    ensures PlaceOf(text) == Before
    decreases |text|
  {
    if text != [] {
      assert IsBlank(text[|text| - 1]);
      BlankPlace(text[..|text| - 1]);
    }
  }

  lemma BlankIsLive(decode: Decoder, cap: Option<nat>, text: bytes)
    requires Blank(text)
    ensures RunOver(decode, cap, text).Live?
  {
    FeedBlank(decode, Init(cap), text);
  }

  /** The first byte that is not blank: a brace is accepted, anything else is refused there. */
  lemma FirstByte(decode: Decoder, cap: Option<nat>, text: bytes, n: nat)
    requires n < |text| && Blank(text[..n]) && !IsBlank(text[n])
    ensures
      if text[n] == LBRACE then RunOver(decode, cap, text[..n + 1]).Live?
      else RefusedAt(decode, cap, text, n, InvalidJsonObject)
  {
    BlankIsLive(decode, cap, text[..n]);
    LivePlace(decode, cap, text[..n]);
    BlankPlace(text[..n]);
    NextByte(decode, cap, text, n);
  }

  /** In a string, a raw control byte is refused there; after a backslash it is not. */
  lemma ControlByte(decode: Decoder, cap: Option<nat>, text: bytes, n: nat)
    requires n < |text| && RunOver(decode, cap, text[..n]).Live? && text[n] < 0x20
    requires PlaceOf(text[..n]).Inside? && PlaceOf(text[..n]).quoted
    ensures !PlaceOf(text[..n]).escaped ==> RefusedAt(decode, cap, text, n, MalformedJson)
    ensures PlaceOf(text[..n]).escaped && |PlaceOf(text[..n]).open| > 1 ==> RunOver(decode, cap, text[..n + 1]).Live?
  {
    LivePlace(decode, cap, text[..n]);
    NextByte(decode, cap, text, n);
  }

  /**
   Outside strings, below the outermost level and within the depth limit, a closing bracket is refused
   exactly if it does not match the one it would close, or follows a comma in the tree array.
   */
  lemma ClosingBracket(decode: Decoder, cap: Option<nat>, text: bytes, n: nat)
    requires n < |text| && RunOver(decode, cap, text[..n]).Live? && Closes(text[n])
    requires
      var p := PlaceOf(text[..n]);
      p.Inside? && !p.quoted && 1 < |p.open| <= MAX_DEPTH
    ensures
      var p, s := PlaceOf(text[..n]), RunOver(decode, cap, text[..n]).s;
      var inTree := |p.open| == 2 && s.inTree;
      if p.open[|p.open| - 1] != Opener(text[n]) then
        RefusedAt(decode, cap, text, n, if inTree then InvalidTreeEntry else MalformedJson)
      else if inTree && s.expectEntry then RefusedAt(decode, cap, text, n, MalformedJson)
      else RunOver(decode, cap, text[..n + 1]).Live?
  {
    LivePlace(decode, cap, text[..n]);
    FirstFaultStops(decode, cap, text[..n]);
    NextByte(decode, cap, text, n);
  }

  /** At the outermost level a closing square bracket is refused exactly where the array of `tree` must begin. */
  lemma OutermostBracket(decode: Decoder, cap: Option<nat>, text: bytes, n: nat)
    requires n < |text| && RunOver(decode, cap, text[..n]).Live? && text[n] == RBRACKET
    requires
      var p := PlaceOf(text[..n]);
      p.Inside? && !p.quoted && |p.open| == 1
    ensures
      if AwaitsTree(decode, cap, ReadingOf(decode, cap, text[..n]).tops) then
        RefusedAt(decode, cap, text, n, InvalidTreeField)
      else RunOver(decode, cap, text[..n + 1]).Live? && PlaceOf(text[..n + 1]) == PlaceOf(text[..n])
  {
    LivePlace(decode, cap, text[..n]);
    NextByte(decode, cap, text, n);
    assert text[..n + 1][..n] == text[..n];
  }

  /** There it matches nothing and is accepted all the same. */
  lemma StraySquareBracket(decode: Decoder, cap: Option<nat>)
    ensures Accepts(decode, cap, [LBRACE, RBRACKET, RBRACE])
  {
    var text := [LBRACE, RBRACKET, RBRACE];
    assert text[..0] == [] && text[..1] == [LBRACE] && text[..2] == [LBRACE, RBRACKET] && text[..3] == text;
    assert text[..2][..1] == text[..1] && text[..1][..0] == text[..0];
    FirstByte(decode, cap, text, 0);
    assert ReadingOf(decode, cap, text[..1]) == Reading(Inside([LBRACE], false, false), [], [], []);
    NextByte(decode, cap, text, 1);
    assert ReadingOf(decode, cap, text[..2]) == Reading(Inside([LBRACE], false, false), [Mark(RBRACKET)], [], []);
    NextByte(decode, cap, text, 2);
    assert PlaceOf(text[..1]) == Inside([LBRACE], false, false) == PlaceOf(text[..2]);
    LivePlace(decode, cap, text);
  }

  // ----- the end of the object

  lemma {:induction false} AfterBlanks(text: bytes, n: nat)
    requires n <= |text| && PlaceOf(text[..n]) == After
    ensures PlaceOf(text) == After
    decreases |text|
  {
    if n < |text| {
      assert text[..|text| - 1][..n] == text[..n];
      AfterBlanks(text[..|text| - 1], n);
    } else {
      assert text[..n] == text;
    }
  }

  lemma BlanksAfterClose(decode: Decoder, cap: Option<nat>, text: bytes, rest: bytes)
    requires Accepts(decode, cap, text) && Blank(rest)
    ensures Accepts(decode, cap, text + rest)
  {
    var s := RunOver(decode, cap, text).s;
    LivePlace(decode, cap, text);
    FeedConcat(decode, Live(Init(cap)), text, rest);
    FeedBlank(decode, s, rest);
  }

  lemma ByteAfterClose(decode: Decoder, cap: Option<nat>, text: bytes, n: nat)
    requires n < |text| && Accepts(decode, cap, text[..n]) && !IsBlank(text[n])
    ensures RefusedAt(decode, cap, text, n, MalformedJson)
  {
    LivePlace(decode, cap, text[..n]);
    NextByte(decode, cap, text, n);
  }

  /** After the object was closed, only blanks are accepted; anything else is refused there. */
  lemma {:induction false} AfterClose(decode: Decoder, cap: Option<nat>, text: bytes, rest: bytes)
    requires Accepts(decode, cap, text)
    ensures Blank(rest) ==> Accepts(decode, cap, text + rest)
    ensures forall i :: 0 <= i < |rest| && Blank(rest[..i]) && !IsBlank(rest[i]) ==>
      RefusedAt(decode, cap, text + rest, |text| + i, MalformedJson)
  {
    if Blank(rest) {
      BlanksAfterClose(decode, cap, text, rest);
    }
    forall i | 0 <= i < |rest| && Blank(rest[..i]) && !IsBlank(rest[i])
      ensures RefusedAt(decode, cap, text + rest, |text| + i, MalformedJson)
    {
      assert (text + rest)[..|text| + i] == text + rest[..i] && (text + rest)[|text| + i] == rest[i];
      BlanksAfterClose(decode, cap, text, rest[..i]);
      ByteAfterClose(decode, cap, text + rest, |text| + i);
    }
  }

  /** The byte that closes: a brace, at the outermost level and outside strings. */
  lemma ClosingByte(decode: Decoder, cap: Option<nat>, text: bytes)
    requires Accepts(decode, cap, text) && text != [] && !Accepts(decode, cap, text[..|text| - 1])
    ensures
      var p := PlaceOf(text[..|text| - 1]);
      text[|text| - 1] == RBRACE && p.Inside? && !p.quoted && |p.open| == 1
  {
    var init := text[..|text| - 1];
    FeedConcat(decode, Live(Init(cap)), init, text[|text| - 1..]);
    assert text == init + text[|text| - 1..];
    LivePlace(decode, cap, init);
    LivePlace(decode, cap, text);
  }

  /** Blanks, a brace, then up to the one brace that closes the object, then blanks. */
  ghost predicate IsObjectText(decode: Decoder, cap: Option<nat>, text: bytes, first: nat, n: nat) {
    && first < n <= |text|
    && Blank(text[..first]) && text[first] == LBRACE
    && text[n - 1] == RBRACE && Accepts(decode, cap, text[..n])
    && (forall k :: 0 <= k < n ==> !Accepts(decode, cap, text[..k]) && PlaceOf(text[..k]) != After)
    && Blank(text[n..])
  }

  lemma {:induction false} FirstNonBlank(text: bytes) returns (n: nat)
    ensures n <= |text| && Blank(text[..n]) && (n < |text| ==> !IsBlank(text[n]))
    decreases |text|
  {
    if text == [] || !IsBlank(text[0]) {
      n := 0;
    } else {
      var m := FirstNonBlank(text[1..]);
      n := m + 1;
      assert text[..n] == [text[0]] + text[1..][..m];
    }
  }

  lemma {:induction false} ShortestAccepted(decode: Decoder, cap: Option<nat>, text: bytes) returns (n: nat)
    requires Accepts(decode, cap, text)
    ensures n <= |text| && Accepts(decode, cap, text[..n]) && forall k :: 0 <= k < n ==> !Accepts(decode, cap, text[..k])
    decreases |text|
  {
    if k :| 0 <= k < |text| && Accepts(decode, cap, text[..k]) {
      n := ShortestAccepted(decode, cap, text[..k]);
      assert text[..k][..n] == text[..n];
      assert forall j :: 0 <= j < n ==> text[..k][..j] == text[..j];
    } else {
      n := |text|;
      assert text[..n] == text;
    }
  }

  lemma BlankNotAccepted(decode: Decoder, cap: Option<nat>, text: bytes)
    requires Blank(text)
    ensures !Accepts(decode, cap, text)
  {
    BlankIsLive(decode, cap, text);
    BlankPlace(text);
    LivePlace(decode, cap, text);
  }

  /** Every accepted text is one object with blanks around it, closed once. */
  lemma AcceptedIsObject(decode: Decoder, cap: Option<nat>, text: bytes) returns (first: nat, n: nat)
    requires Accepts(decode, cap, text)
    ensures IsObjectText(decode, cap, text, first, n)
  {
    first := FirstNonBlank(text);
    n := ShortestAccepted(decode, cap, text);
    assert first < n by {
      if n <= first {
        BlankNotAccepted(decode, cap, text[..n]);
      }
    }
    FirstByte(decode, cap, text, first);
    assert text[..n][..n - 1] == text[..n - 1];
    ClosingByte(decode, cap, text[..n]);
    BlanksFollow(decode, cap, text, n);
    forall k | 0 <= k < n ensures PlaceOf(text[..k]) != After {
      PrefixLive(decode, cap, text, k);
      LivePlace(decode, cap, text[..k]);
    }
  }

  lemma PrefixLive(decode: Decoder, cap: Option<nat>, text: bytes, k: nat)
    requires k <= |text| && RunOver(decode, cap, text).Live?
    ensures RunOver(decode, cap, text[..k]).Live?
  {
    assert text == text[..k] + text[k..];
    FeedConcat(decode, Live(Init(cap)), text[..k], text[k..]);
  }

  lemma BlanksFollow(decode: Decoder, cap: Option<nat>, text: bytes, n: nat)
    requires n <= |text| && Accepts(decode, cap, text) && Accepts(decode, cap, text[..n])
    ensures Blank(text[n..])
  {
    var rest := text[n..];
    assert text == text[..n] + rest;
    AfterClose(decode, cap, text[..n], rest);
    var i := FirstNonBlank(rest);
    assert rest[..i] == rest || i < |rest|;
  }

  /** Exactly the texts without a fault whose brackets and quotes say that the object is closed. */
  lemma AcceptedExactly(decode: Decoder, cap: Option<nat>, text: bytes)
    ensures Accepts(decode, cap, text) <==> Faultless(decode, cap, text, |text|) && PlaceOf(text) == After
  {
    FirstFaultStops(decode, cap, text);
    ReadingPlace(decode, cap, text);
  }

  // ----- the entries

  /** What stood in tree arrays is an alternation of entries and commas, and the count is its entries. */
  lemma EntriesAlternate(decode: Decoder, cap: Option<nat>, text: bytes)
    requires RunOver(decode, cap, text).Live?
    ensures
      var entries := ReadingOf(decode, cap, text).entries;
      Alternates(entries) && RunOver(decode, cap, text).s.treeEntries == (|entries| + 1) / 2
  {
    FirstFaultStops(decode, cap, text);
  }
}
