/**
 The guard's verdict on a whole document. `JudgeMembers` reads the tree, not the bytes:
 it is the reference. The theorems at the end tie the byte automaton to it and to the
 declarative predicate `Admissible`.
 */
module GuardVerdict {
  import opened Wrappers
  import opened JsonText
  import opened StreamingGuard
  import opened GuardTheorems

  // ----- the reference reading

  /** The rule broken by a tree entry with `n` entries before it. */
  function JudgeEntry(cap: nat, value: Json, n: nat): Option<Refusal> {
    if n > 0 && n >= cap then Some(TreeEntryCapExceeded)
    else if !value.Object? then Some(InvalidTreeEntry)
    else if n >= cap then Some(TreeEntryCapExceeded)
    else if !Fits(2, value) then Some(JsonDepthExceeded)
    else None
  }

  /** Entries `n`, `n + 1`, ... of the tree array: the first rule they break, in document order. */
  function JudgeEntries(cap: nat, items: Items, n: nat): Option<Refusal> {
    match items
    case End(_) => None
    case Item(_, _, value, _, rest) =>
      var verdict := JudgeEntry(cap, value, n);
      if verdict.Some? then verdict else JudgeEntries(cap, rest, n + 1)
  }

  predicate IsTree(cap: Option<nat>, name: string) {
    cap.Some? && name == TREE
  }

  function JudgeValue(cap: Option<nat>, name: string, value: Json): Option<Refusal> {
    if IsTree(cap, name) then
      if value.Array? then JudgeEntries(cap.value, value.items, 0) else Some(InvalidTreeField)
    else if Fits(1, value) then None
    else Some(JsonDepthExceeded)
  }

  function JudgeName(decode: Decoder, units: seq<Unit>, seen: set<string>): Result<string, Refusal> {
    if |Body(units)| > MAX_KEY_BYTES then Failure(MalformedJson)
    else match decode(Body(units))
      case None => Failure(MalformedJson)
      case Some(name) => if name in seen then Failure(DuplicateJsonKey) else Success(name)
  }

  /** The first rule a top-level member list breaks, in document order. */
  function JudgeMembers(decode: Decoder, cap: Option<nat>, items: Items, seen: set<string>): Option<Refusal>
    requires WellFormedItems(items, true)
  {
    match items
    case End(_) => None
    case Item(_, tag, value, _, rest) =>
      match JudgeName(decode, tag.units, seen)
      case Failure(why) => Some(why)
      case Success(name) =>
        var verdict := JudgeValue(cap, name, value);
        if verdict.Some? then verdict else JudgeMembers(decode, cap, rest, seen + {name})
  }

  /** Entries the guard should count for one member. */
  function EntriesOf(decode: Decoder, cap: Option<nat>, tag: Label, value: Json): nat {
    if tag.Named? && decode(Body(tag.units)) == Some(TREE) && cap.Some? && value.Array?
    then |Members(value.items)| else 0
  }

  function CountEntries(decode: Decoder, cap: Option<nat>, items: Items): nat {
    match items
    case End(_) => 0
    case Item(_, tag, value, _, rest) => EntriesOf(decode, cap, tag, value) + CountEntries(decode, cap, rest)
  }

  // ----- the automaton at the top level

  predicate AtTop(s: State) {
    Inv(s) && !s.inString && |s.stack| == 1 && !s.pendingTree && !s.expectEntry
  }

  /** The refused byte of a cap refusal: the comma after entry number `cap`, all entries closed. */
  predicate CapStop(r: Run, cap: Option<nat>) {
    && r.Stopped? && cap.Some? && r.unread != []
    && r.unread[0] == (if cap.value == 0 then LBRACE else COMMA)
    && r.s.treeEntries == cap.value && r.s.inTree && |r.s.stack| == 2 && !r.s.expectEntry
  }

  predicate Stops(r: Run, cap: Option<nat>, why: Refusal) {
    r.Stopped? && r.why == why && (why == TreeEntryCapExceeded ==> CapStop(r, cap))
  }

  lemma FeedValueAtTop(decode: Decoder, s: State, v: Json)
    requires AtTop(s) && !s.expectTopKey && WellFormed(v)
    ensures Settles(decode, s, Print(v), Fits(1, v))
  {
    match v
    case Literal(text) => FeedLiteralAtTop(decode, s, text);
    case Text(units) => FeedQuoted(decode, s, units);
    case Array(items) => FeedContainerAtTop(decode, s, items, false);
    case Object(items) => FeedContainerAtTop(decode, s, items, true);
  }

  lemma {:induction false} FeedLiteralAtTop(decode: Decoder, s: State, text: bytes)
    requires AtTop(s) && !s.expectTopKey
    requires forall i :: 0 <= i < |text| ==> !IsBlank(text[i]) && !IsStructural(text[i])
    ensures Feed(decode, Live(s), text) == Live(s)
    decreases |text|
  {
    if text != [] {
      assert Step(decode, s, text[0]) == Ok(s);
      FeedLiteralAtTop(decode, s, text[1..]);
    }
  }

  lemma FeedContainerAtTop(decode: Decoder, s: State, items: Items, named: bool)
    requires AtTop(s) && WellFormedItems(items, named)
    ensures Settles(decode, s, Print(Container(named, items)), Fits(1, Container(named, items)))
  {
    var t := s.(stack := s.stack + [Opening(named)]);
    StepKeepsInv(decode, s, Opening(named));
    FeedNestedItems(decode, t, items, named, true);
    assert t.stack[..|t.stack| - 1] == s.stack;
    FeedBracketed(decode, s, t, s, items, named);
  }

  // ----- top-level keys

  /** Key bytes are captured while they fit in the 256-byte buffer and refused past it. */
  predicate Captures(decode: Decoder, s: State, text: bytes)
    requires Inv(s)
  {
    var out := Feed(decode, Live(s), text);
    if |s.keyBuf + text| <= MAX_KEY_BYTES then out == Live(s.(keyBuf := s.keyBuf + text))
    else out.Stopped? && out.why == MalformedJson
  }

  predicate Capturing(s: State) {
    Inv(s) && s.captureKey && !s.escape
  }

  lemma FeedKeyUnit(decode: Decoder, s: State, u: Unit)
    requires Capturing(s) && WellFormedUnit(u)
    ensures Captures(decode, s, UnitText(u))
  {
    if u.Plain? {
      StepByte(decode, s, u.b);
    } else {
      StepByte(decode, s, BACKSLASH);
      FeedConcat(decode, Live(s), [BACKSLASH], [u.b]);
      assert [BACKSLASH, u.b] == [BACKSLASH] + [u.b];
      if |s.keyBuf| < MAX_KEY_BYTES {
        var t := s.(keyBuf := s.keyBuf + [BACKSLASH], escape := true);
        assert Step(decode, s, BACKSLASH) == Ok(t);
        StepKeepsInv(decode, s, BACKSLASH);
        StepByte(decode, t, u.b);
        assert t.keyBuf + [u.b] == s.keyBuf + UnitText(u);
      }
    }
  }

  lemma CaptureConcat(decode: Decoder, s: State, a: bytes, b: bytes)
    requires Capturing(s) && Captures(decode, s, a)
    requires |s.keyBuf + a| <= MAX_KEY_BYTES ==> Captures(decode, s.(keyBuf := s.keyBuf + a), b)
    ensures Captures(decode, s, a + b)
  {
    FeedConcat(decode, Live(s), a, b);
    assert s.keyBuf + (a + b) == s.keyBuf + a + b;
  }

  lemma {:induction false} FeedKeyBody(decode: Decoder, s: State, units: seq<Unit>)
    requires Capturing(s) && WellFormedUnits(units)
    ensures Captures(decode, s, Body(units))
    decreases |units|
  {
    if units == [] {
      assert s.keyBuf + Body(units) == s.keyBuf;
    } else {
      FeedKeyUnit(decode, s, units[0]);
      var text := UnitText(units[0]);
      if |s.keyBuf + text| <= MAX_KEY_BYTES {
        FeedKeyBody(decode, s.(keyBuf := s.keyBuf + text), units[1..]);
      }
      CaptureConcat(decode, s, text, Body(units[1..]));
    }
  }

  function AfterKey(s: State, body: bytes, name: string): State {
    s.(keyBuf := body, seen := s.seen + {name}, lastTopKey := name, expectTopKey := false)
  }

  lemma FeedKey(decode: Decoder, s: State, units: seq<Unit>)
    requires AtTop(s) && s.expectTopKey && WellFormedUnits(units)
    ensures
      var out := Feed(decode, Live(s), Quoted(units));
      var named := JudgeName(decode, units, s.seen);
      if named.Failure? then Stops(out, s.entryCap, named.error)
      else out == Live(AfterKey(s, Body(units), named.value))
  {
    var body := Body(units);
    var t := s.(inString := true, captureKey := true, keyBuf := []);
    assert Step(decode, s, QUOTE) == Ok(t);
    StepKeepsInv(decode, s, QUOTE);
    StepByte(decode, s, QUOTE);
    FeedKeyBody(decode, t, units);
    FeedConcat(decode, Live(s), [QUOTE], body);
    FeedConcat(decode, Live(s), [QUOTE] + body, [QUOTE]);
    if |body| <= MAX_KEY_BYTES {
      assert t.keyBuf + body == body;
      var u := t.(keyBuf := body);
      StepByte(decode, u, QUOTE);
    }
  }

  // ----- the tree array

  /** Between entries of the tree array, `n` entries counted. */
  predicate InTree(s: State, n: nat) {
    && Inv(s) && !s.inString && |s.stack| == 2 && s.inTree && !s.expectEntry && s.treeEntries == n
  }

  lemma FeedEntryStart(decode: Decoder, s: State, n: nat, pre: bytes)
    requires InTree(s, n) && Blank(pre)
    ensures var out := Feed(decode, Live(s), Separator(n == 0) + pre);
      if n > 0 && n >= s.entryCap.value then Stops(out, s.entryCap, TreeEntryCapExceeded)
      else out == Live(s.(expectEntry := n > 0))
  {
    FeedConcat(decode, Live(s), Separator(n == 0), pre);
    if n > 0 {
      StepByte(decode, s, COMMA);
    }
    if n == 0 || n < s.entryCap.value {
      FeedBlank(decode, s.(expectEntry := n > 0), pre);
    }
  }

  lemma FeedEntryObject(decode: Decoder, s: State, n: nat, items: Items)
    requires InTree(s.(expectEntry := false), n) && s.expectEntry == (n > 0)
    requires WellFormedItems(items, true) && n < s.entryCap.value
    ensures var out := Feed(decode, Live(s), Print(Object(items)));
      if Fits(2, Object(items)) then out == Live(s.(treeEntries := n + 1, expectEntry := false)) else TooDeep(out)
  {
    var t := s.(treeEntries := n + 1, expectEntry := false, stack := s.stack + [LBRACE]);
    StepKeepsInv(decode, s, LBRACE);
    FeedNestedItems(decode, t, items, true, true);
    assert t.stack[..|t.stack| - 1] == s.stack;
    FeedBracketed(decode, s, t, s.(treeEntries := n + 1, expectEntry := false), items, true);
  }

  lemma FeedEntryValue(decode: Decoder, s: State, n: nat, value: Json)
    requires InTree(s.(expectEntry := false), n) && s.expectEntry == (n > 0) && Inv(s) && WellFormed(value)
    requires n > 0 ==> n < s.entryCap.value
    ensures
      var out := Feed(decode, Live(s), Print(value));
      var verdict := JudgeEntry(s.entryCap.value, value, n);
      if verdict.Some? then Stops(out, s.entryCap, verdict.value)
      else out == Live(s.(treeEntries := n + 1, expectEntry := false))
  {
    PrintStartsNonBlank(value);
    if value.Object? && n < s.entryCap.value {
      FeedEntryObject(decode, s, n, value.items);
    } else {
      assert Step(decode, s, Print(value)[0]).Err?;
    }
  }

  lemma FeedEntry(decode: Decoder, s: State, n: nat, pre: bytes, value: Json, post: bytes)
    requires InTree(s, n) && Blank(pre) && WellFormed(value) && Blank(post)
    ensures
      var out := Feed(decode, Live(s), Separator(n == 0) + pre + Print(value) + post);
      var verdict := JudgeEntry(s.entryCap.value, value, n);
      if verdict.Some? then Stops(out, s.entryCap, verdict.value) else out == Live(s.(treeEntries := n + 1))
  {
    var lead := Separator(n == 0) + pre;
    FeedEntryStart(decode, s, n, pre);
    FeedConcat(decode, Live(s), lead, Print(value));
    FeedConcat(decode, Live(s), lead + Print(value), post);
    if n == 0 || n < s.entryCap.value {
      FeedEntryValue(decode, s.(expectEntry := n > 0), n, value);
      if JudgeEntry(s.entryCap.value, value, n).None? {
        FeedBlank(decode, s.(treeEntries := n + 1), post);
      }
    }
  }

  /** What `FeedEntries` promises, for a text that prints `items` after `n` entries. */
  predicate CountsEntries(decode: Decoder, s: State, n: nat, items: Items, text: bytes)
    requires InTree(s, n)
  {
    var out := Feed(decode, Live(s), text);
    var verdict := JudgeEntries(s.entryCap.value, items, n);
    if verdict.Some? then Stops(out, s.entryCap, verdict.value)
    else out == Live(s.(treeEntries := n + |Members(items)|))
  }

  lemma {:induction false} FeedEntries(decode: Decoder, s: State, n: nat, items: Items)
    requires InTree(s, n) && WellFormedItems(items, false)
    ensures CountsEntries(decode, s, n, items, PrintItems(items, n == 0))
    decreases items
  {
    match items
    case End(blank) => FeedBlank(decode, s, blank);
    case Item(pre, tag, value, post, rest) =>
      var head := Separator(n == 0) + pre + Print(value) + post;
      assert Separator(n == 0) + pre + PrintLabel(tag) == Separator(n == 0) + pre;
      FeedEntry(decode, s, n, pre, value, post);
      FeedConcat(decode, Live(s), head, PrintItems(rest, false));
      if JudgeEntry(s.entryCap.value, value, n).None? {
        FeedEntries(decode, s.(treeEntries := n + 1), n + 1, rest);
        assert |Members(items)| == 1 + |Members(rest)|;
      }
  }

  /** The value after `"tree":` when a cap is set. */
  lemma FeedTreeValue(decode: Decoder, s: State, value: Json)
    requires AtTop(s.(pendingTree := false)) && s.pendingTree && Inv(s) && s.treeEntries == 0
    requires !s.expectTopKey && WellFormed(value) && s.entryCap.Some?
    ensures
      var out := Feed(decode, Live(s), Print(value));
      var verdict := JudgeValue(s.entryCap, TREE, value);
      if verdict.Some? then Stops(out, s.entryCap, verdict.value)
      else out == Live(s.(pendingTree := false, treeEntries := |Members(value.items)|))
  {
    PrintStartsNonBlank(value);
    if value.Array? {
      var items := value.items;
      var t := s.(stack := s.stack + [LBRACKET], inTree := true, pendingTree := false);
      assert Step(decode, s, LBRACKET) == Ok(t);
      StepKeepsInv(decode, s, LBRACKET);
      StepByte(decode, s, LBRACKET);
      FeedEntries(decode, t, 0, items);
      FeedConcat(decode, Live(s), [LBRACKET], PrintItems(items, true));
      FeedConcat(decode, Live(s), [LBRACKET] + PrintItems(items, true), [RBRACKET]);
      if JudgeEntries(s.entryCap.value, items, 0).None? {
        var u := t.(treeEntries := |Members(items)|);
        StepByte(decode, u, RBRACKET);
        assert u.stack[..1] == s.stack;
      }
    } else {
      assert Step(decode, s, Print(value)[0]) == Err(s, InvalidTreeField);
    }
  }

  // ----- members and the whole document

  function AfterMember(decode: Decoder, s: State, tag: Label, value: Json, name: string): State
    requires tag.Named?
  {
    AfterKey(s, Body(tag.units), name).(treeEntries := s.treeEntries + EntriesOf(decode, s.entryCap, tag, value))
  }

  /** Name, colon and value of one member, the separator already read. */
  lemma FeedMember(decode: Decoder, s: State, tag: Label, value: Json)
    requires AtTop(s) && s.expectTopKey && WellFormedLabel(tag, true) && WellFormed(value)
    requires TREE !in s.seen ==> s.treeEntries == 0
    ensures
      var out := Feed(decode, Live(s), PrintLabel(tag) + Print(value));
      var named := JudgeName(decode, tag.units, s.seen);
      if named.Failure? then Stops(out, s.entryCap, named.error)
      else
        var verdict := JudgeValue(s.entryCap, named.value, value);
        if verdict.Some? then Stops(out, s.entryCap, verdict.value)
        else out == Live(AfterMember(decode, s, tag, value, named.value))
  {
    var key := Quoted(tag.units);
    FeedKey(decode, s, tag.units);
    FeedConcat(decode, Live(s), key, tag.mid);
    FeedConcat(decode, Live(s), key + tag.mid, [COLON]);
    FeedConcat(decode, Live(s), key + tag.mid + [COLON], tag.gap);
    FeedConcat(decode, Live(s), PrintLabel(tag), Print(value));
    var named := JudgeName(decode, tag.units, s.seen);
    if named.Success? {
      var t := AfterKey(s, Body(tag.units), named.value);
      FeedBlank(decode, t, tag.mid);
      StepByte(decode, t, COLON);
      var u := t.(pendingTree := IsTree(s.entryCap, named.value));
      assert Step(decode, t, COLON) == Ok(u);
      StepKeepsInv(decode, t, COLON);
      FeedBlank(decode, u, tag.gap);
      if IsTree(s.entryCap, named.value) {
        FeedTreeValue(decode, u, value);
      } else {
        FeedValueAtTop(decode, u, value);
      }
    }
  }

  /** The separator before a member: a comma always asks for a new key. */
  lemma FeedMemberStart(decode: Decoder, s: State, first: bool, pre: bytes)
    requires AtTop(s) && (first ==> s.expectTopKey) && Blank(pre)
    ensures Feed(decode, Live(s), Separator(first) + pre) == Live(AfterSeparator(s, first))
  {
    FeedConcat(decode, Live(s), Separator(first), pre);
    if !first {
      StepByte(decode, s, COMMA);
    }
    FeedBlank(decode, AfterSeparator(s, first), pre);
  }

  function AfterSeparator(s: State, first: bool): State {
    if first then s else s.(expectTopKey := true, lastTopKey := "")
  }

  predicate TreeUncounted(s: State) {
    TREE !in s.seen ==> s.treeEntries == 0
  }

  /** What `FeedMembers` promises, for a text that prints `items`. */
  predicate JudgesMembers(decode: Decoder, s: State, items: Items, text: bytes)
    requires AtTop(s) && WellFormedItems(items, true)
  {
    var out := Feed(decode, Live(s), text);
    var verdict := JudgeMembers(decode, s.entryCap, items, s.seen);
    if verdict.Some? then Stops(out, s.entryCap, verdict.value)
    else
      && out.Live? && AtTop(out.s) && out.s.entryCap == s.entryCap
      && out.s.treeEntries == s.treeEntries + CountEntries(decode, s.entryCap, items)
  }

  /** Separator, blanks and one whole member. */
  lemma FeedMemberItem(decode: Decoder, s: State, first: bool, pre: bytes, tag: Label, value: Json, post: bytes)
    requires AtTop(s) && (first ==> s.expectTopKey) && TreeUncounted(s)
    requires Blank(pre) && WellFormedLabel(tag, true) && WellFormed(value) && Blank(post)
    ensures
      var out := Feed(decode, Live(s), Separator(first) + pre + PrintLabel(tag) + Print(value) + post);
      var named := JudgeName(decode, tag.units, s.seen);
      if named.Failure? then Stops(out, s.entryCap, named.error)
      else
        var verdict := JudgeValue(s.entryCap, named.value, value);
        if verdict.Some? then Stops(out, s.entryCap, verdict.value)
        else out == Live(AfterMember(decode, AfterSeparator(s, first), tag, value, named.value))
  {
    var t, lead := AfterSeparator(s, first), Separator(first) + pre;
    var member := PrintLabel(tag) + Print(value);
    FeedMemberStart(decode, s, first, pre);
    FeedMember(decode, t, tag, value);
    assert lead + PrintLabel(tag) + Print(value) == lead + member;
    FeedConcat(decode, Live(s), lead, member);
    FeedConcat(decode, Live(s), lead + member, post);
    var named := JudgeName(decode, tag.units, s.seen);
    if named.Success? && JudgeValue(s.entryCap, named.value, value).None? {
      FeedBlank(decode, AfterMember(decode, t, tag, value, named.value), post);
    }
  }

  lemma {:induction false} FeedMembers(decode: Decoder, s: State, items: Items, first: bool)
    requires AtTop(s) && (first ==> s.expectTopKey) && WellFormedItems(items, true) && TreeUncounted(s)
    ensures JudgesMembers(decode, s, items, PrintItems(items, first))
    decreases items
  {
    match items
    case End(blank) => FeedBlank(decode, s, blank);
    case Item(pre, tag, value, post, rest) =>
      var head := Separator(first) + pre + PrintLabel(tag) + Print(value) + post;
      FeedMemberItem(decode, s, first, pre, tag, value, post);
      FeedConcat(decode, Live(s), head, PrintItems(rest, false));
      var named := JudgeName(decode, tag.units, s.seen);
      if named.Success? && JudgeValue(s.entryCap, named.value, value).None? {
        FeedMembers(decode, AfterMember(decode, AfterSeparator(s, first), tag, value, named.value), rest, false);
      }
  }

  // ----- which documents are admissible

  predicate NameOk(decode: Decoder, m: Member) {
    m.tag.Named? && |Body(m.tag.units)| <= MAX_KEY_BYTES && decode(Body(m.tag.units)).Some?
  }

  function NameOf(decode: Decoder, m: Member): string
    requires NameOk(decode, m)
  {
    decode(Body(m.tag.units)).value
  }

  predicate AllObjects(ms: seq<Member>) {
    forall k :: 0 <= k < |ms| ==> ms[k].value.Object?
  }

  predicate TreeOk(cap: Option<nat>, name: string, value: Json) {
    IsTree(cap, name) ==>
      value.Array? && |Members(value.items)| <= cap.value && AllObjects(Members(value.items))
  }

  predicate MemberOk(decode: Decoder, cap: Option<nat>, m: Member) {
    NameOk(decode, m) && TreeOk(cap, NameOf(decode, m), m.value) && Fits(1, m.value)
  }

  predicate FreshNames(decode: Decoder, ms: seq<Member>, seen: set<string>)
    requires forall i :: 0 <= i < |ms| ==> NameOk(decode, ms[i])
  {
    && (forall i :: 0 <= i < |ms| ==> NameOf(decode, ms[i]) !in seen)
    && (forall i, j :: 0 <= i < j < |ms| ==> NameOf(decode, ms[i]) != NameOf(decode, ms[j]))
  }

  predicate AdmissibleMembers(decode: Decoder, cap: Option<nat>, ms: seq<Member>, seen: set<string>) {
    (forall i :: 0 <= i < |ms| ==> MemberOk(decode, cap, ms[i])) && FreshNames(decode, ms, seen)
  }

  /**
   Distinct decodable names of at most 256 encoded bytes, container nesting at most 24,
   and, when a cap is set, a `tree` member that is an array of at most `cap` objects.
   */
  predicate Admissible(decode: Decoder, cap: Option<nat>, items: Items) {
    AdmissibleMembers(decode, cap, Members(items), {})
  }

  lemma {:induction false} EntriesJudged(cap: nat, items: Items, n: nat)
    requires n <= cap
    ensures JudgeEntries(cap, items, n).None? <==>
            n + |Members(items)| <= cap && AllObjects(Members(items)) && 2 + ItemsNesting(items) <= MAX_DEPTH
    decreases items
  {
    if items.Item? {
      var ms := Members(items);
      assert ms[1..] == Members(items.rest);
      assert ms[0].value == items.value;
      assert forall k :: 0 < k < |ms| ==> ms[k] == ms[1..][k - 1];
      if n < cap {
        EntriesJudged(cap, items.rest, n + 1);
        assert AllObjects(ms) <==> ms[0].value.Object? && AllObjects(ms[1..]);
      }
    }
  }

  lemma ValueJudged(cap: Option<nat>, name: string, value: Json)
    ensures JudgeValue(cap, name, value).None? <==> TreeOk(cap, name, value) && Fits(1, value)
  {
    if IsTree(cap, name) && value.Array? {
      EntriesJudged(cap.value, value.items, 0);
    }
  }

  lemma FreshNamesSplit(decode: Decoder, ms: seq<Member>, seen: set<string>)
    requires ms != [] && forall i :: 0 <= i < |ms| ==> NameOk(decode, ms[i])
    ensures FreshNames(decode, ms, seen) <==>
            && NameOf(decode, ms[0]) !in seen
            && FreshNames(decode, ms[1..], seen + {NameOf(decode, ms[0])})
  {
    var rest := ms[1..];
    assert forall i :: 0 <= i < |rest| ==> rest[i] == ms[i + 1];
    if NameOf(decode, ms[0]) !in seen && FreshNames(decode, rest, seen + {NameOf(decode, ms[0])}) {
      forall i, j | 0 <= i < j < |ms| ensures NameOf(decode, ms[i]) != NameOf(decode, ms[j]) {
        assert ms[j] == rest[j - 1];
        if i > 0 { assert ms[i] == rest[i - 1]; }
      }
      forall i | 0 <= i < |ms| ensures NameOf(decode, ms[i]) !in seen {
        if i > 0 { assert ms[i] == rest[i - 1]; }
      }
    }
  }

  /** The structural verdict is acceptance exactly for the admissible member lists. */
  lemma {:induction false} MembersJudged(decode: Decoder, cap: Option<nat>, items: Items, seen: set<string>)
    requires WellFormedItems(items, true)
    ensures JudgeMembers(decode, cap, items, seen).None? <==> AdmissibleMembers(decode, cap, Members(items), seen)
    decreases items
  {
    if items.Item? {
      var ms, m := Members(items), Member(items.tag, items.value);
      var rest := Members(items.rest);
      assert ms[0] == m && ms[1..] == rest;
      if NameOk(decode, m) {
        var name := NameOf(decode, m);
        ValueJudged(cap, name, items.value);
        MembersJudged(decode, cap, items.rest, seen + {name});
        AllSplit(decode, cap, ms);
        if forall i :: 0 <= i < |ms| ==> MemberOk(decode, cap, ms[i]) {
          FreshNamesSplit(decode, ms, seen);
        }
      } else {
        assert !MemberOk(decode, cap, ms[0]);
      }
    }
  }

  lemma AllSplit(decode: Decoder, cap: Option<nat>, ms: seq<Member>)
    requires ms != []
    ensures (forall i :: 0 <= i < |ms| ==> MemberOk(decode, cap, ms[i])) <==>
            MemberOk(decode, cap, ms[0]) && forall i :: 0 <= i < |ms[1..]| ==> MemberOk(decode, cap, ms[1..][i])
  {
    forall i | 0 < i < |ms| ensures ms[i] == ms[1..][i - 1] {}
  }

  // ----- the count is the length of the tree array

  predicate IsTreeMember(decode: Decoder, m: Member) {
    m.tag.Named? && decode(Body(m.tag.units)) == Some(TREE)
  }

  lemma {:induction false} CountWithoutTree(decode: Decoder, cap: Option<nat>, items: Items)
    requires forall i :: 0 <= i < |Members(items)| ==> !IsTreeMember(decode, Members(items)[i])
    ensures CountEntries(decode, cap, items) == 0
    decreases items
  {
    if items.Item? {
      var ms := Members(items);
      assert ms[0] == Member(items.tag, items.value);
      assert ms[1..] == Members(items.rest);
      forall i | 0 <= i < |Members(items.rest)| ensures !IsTreeMember(decode, Members(items.rest)[i]) {
        assert ms[i + 1] == Members(items.rest)[i];
      }
      assert !IsTreeMember(decode, ms[0]);
      CountWithoutTree(decode, cap, items.rest);
    }
  }

  lemma {:induction false} CountIsTreeLength(decode: Decoder, cap: nat, items: Items, seen: set<string>, k: nat)
    requires AdmissibleMembers(decode, Some(cap), Members(items), seen)
    requires k < |Members(items)| && IsTreeMember(decode, Members(items)[k])
    ensures Members(items)[k].value.Array?
    ensures CountEntries(decode, Some(cap), items) == |Members(Members(items)[k].value.items)|
    decreases items
  {
    var ms, rest := Members(items), Members(items.rest);
    assert ms[1..] == rest && MemberOk(decode, Some(cap), ms[k]);
    FreshNamesSplit(decode, ms, seen);
    assert forall i :: 0 <= i < |rest| ==> rest[i] == ms[i + 1];
    if k == 0 {
      forall i | 0 <= i < |rest| ensures !IsTreeMember(decode, rest[i]) {
        assert NameOf(decode, ms[0]) != NameOf(decode, ms[i + 1]);
      }
      CountWithoutTree(decode, Some(cap), items.rest);
    } else {
      assert NameOf(decode, ms[0]) != NameOf(decode, ms[k]);
      CountIsTreeLength(decode, cap, items.rest, seen + {NameOf(decode, ms[0])}, k - 1);
    }
  }

  // ----- the theorems

  lemma FeedOpening(decode: Decoder, cap: Option<nat>, pre: bytes)
    requires Blank(pre)
    ensures Feed(decode, Live(Init(cap)), pre + [LBRACE]) == Live(Init(cap).(started := true, stack := [LBRACE]))
  {
    assert Init(cap).stack + [LBRACE] == [LBRACE];
    FeedBlank(decode, Init(cap), pre);
    StepByte(decode, Init(cap), LBRACE);
    FeedConcat(decode, Live(Init(cap)), pre, [LBRACE]);
  }

  lemma FeedClosing(decode: Decoder, s: State, post: bytes)
    requires AtTop(s) && Blank(post)
    ensures Feed(decode, Live(s), [RBRACE] + post) == Live(s.(stack := [], closed := true))
  {
    StepByte(decode, s, RBRACE);
    StepKeepsInv(decode, s, RBRACE);
    FeedBlank(decode, s.(stack := [], closed := true), post);
    FeedConcat(decode, Live(s), [RBRACE], post);
  }

  /** On a printed document the byte automaton gives the structural verdict, with the same reason. */
  lemma GuardVerdictOnDocument(decode: Decoder, cap: Option<nat>, d: Document)
    requires WellFormedDocument(d)
    ensures
      var out := Feed(decode, Live(Init(cap)), PrintDocument(d));
      var verdict := JudgeMembers(decode, cap, d.items, {});
      if verdict.Some? then Stops(out, cap, verdict.value)
      else out.Live? && out.s.closed && out.s.treeEntries == CountEntries(decode, cap, d.items)
  {
    var s, t := Live(Init(cap)), Init(cap).(started := true, stack := [LBRACE]);
    var lead, body, tail := d.pre + [LBRACE], PrintItems(d.items, true), [RBRACE] + d.post;
    assert PrintDocument(d) == lead + body + tail;
    FeedOpening(decode, cap, d.pre);
    FeedMembers(decode, t, d.items, true);
    FeedConcat(decode, s, lead, body);
    FeedConcat(decode, s, lead + body, tail);
    if JudgeMembers(decode, cap, d.items, {}).None? {
      FeedClosing(decode, Feed(decode, Live(t), body).s, d.post);
    }
  }

  /** The guard accepts every byte and ends closed exactly on the admissible documents. */
  lemma GuardDecidesAdmissible(decode: Decoder, cap: Option<nat>, d: Document)
    requires WellFormedDocument(d)
    ensures
      var out := Feed(decode, Live(Init(cap)), PrintDocument(d));
      && (out.Live? <==> Admissible(decode, cap, d.items))
      && (out.Live? ==> out.s.closed)
      && (Admissible(decode, cap, d.items) ==> CountsTree(decode, cap, d.items, out.s.treeEntries))
  {
    GuardVerdictOnDocument(decode, cap, d);
    MembersJudged(decode, cap, d.items, {});
    if Admissible(decode, cap, d.items) {
      var ms := Members(d.items);
      if cap.None? {
        var out := Feed(decode, Live(Init(cap)), PrintDocument(d));
        NeverPastCap(decode, Init(cap), PrintDocument(d));
        assert Inv(out.s);
      } else if k :| 0 <= k < |ms| && IsTreeMember(decode, ms[k]) {
        forall i | 0 <= i < |ms| && IsTreeMember(decode, ms[i])
          ensures ms[i].value.Array? && CountEntries(decode, cap, d.items) == |Members(ms[i].value.items)|
        {
          CountIsTreeLength(decode, cap.value, d.items, {}, i);
        }
      } else {
        CountWithoutTree(decode, cap, d.items);
      }
    }
  }

  /** `n` is the exact length of the `tree` array, or 0 without one or without a cap. */
  predicate CountsTree(decode: Decoder, cap: Option<nat>, items: Items, n: nat) {
    var ms := Members(items);
    && (cap.Some? ==> forall i :: 0 <= i < |ms| && IsTreeMember(decode, ms[i]) ==>
          ms[i].value.Array? && n == |Members(ms[i].value.items)|)
    && (cap.None? || (forall i :: 0 <= i < |ms| ==> !IsTreeMember(decode, ms[i])) ==> n == 0)
  }

  // ----- where a document with too many entries is refused

  lemma {:induction false} TooManyEntries(cap: nat, items: Items, n: nat)
    requires AllObjects(Members(items)) && 2 + ItemsNesting(items) <= MAX_DEPTH
    requires n + |Members(items)| > cap >= n
    ensures JudgeEntries(cap, items, n) == Some(TreeEntryCapExceeded)
    decreases items
  {
    var ms := Members(items);
    assert ms[0].value == items.value;
    assert ms[1..] == Members(items.rest);
    assert forall k :: 0 < k < |ms| ==> ms[k] == ms[1..][k - 1];
    if n < cap {
      TooManyEntries(cap, items.rest, n + 1);
    }
  }

  lemma {:induction false} TooManyJudged(decode: Decoder, cap: nat, larger: nat, items: Items, seen: set<string>, k: nat)
    requires WellFormedItems(items, true) && AdmissibleMembers(decode, Some(larger), Members(items), seen)
    requires k < |Members(items)| && IsTreeMember(decode, Members(items)[k])
    requires Members(items)[k].value.Array? && |Members(Members(items)[k].value.items)| > cap
    ensures JudgeMembers(decode, Some(cap), items, seen) == Some(TreeEntryCapExceeded)
    decreases items
  {
    var ms, rest := Members(items), Members(items.rest);
    assert ms[0] == Member(items.tag, items.value) && ms[1..] == rest;
    assert MemberOk(decode, Some(larger), ms[0]) && MemberOk(decode, Some(larger), ms[k]);
    FreshNamesSplit(decode, ms, seen);
    if k == 0 {
      TooManyEntries(cap, items.value.items, 0);
    } else {
      assert ms[k] == rest[k - 1];
      assert NameOf(decode, ms[0]) != NameOf(decode, ms[k]);
      AllSplit(decode, Some(larger), ms);
      TooManyJudged(decode, cap, larger, items.rest, seen + {NameOf(decode, ms[0])}, k - 1);
    }
  }

  /**
   A document whose only fault is a `tree` array longer than the cap is refused on the comma
   that follows entry number `cap` (on the first entry's brace if the cap is 0): every byte
   before it was accepted, exactly `cap` entries are counted and all of them are closed.
   */
  lemma CapRefusalPosition(decode: Decoder, cap: nat, larger: nat, d: Document, k: nat)
    requires WellFormedDocument(d) && Admissible(decode, Some(larger), d.items)
    requires k < |Members(d.items)| && IsTreeMember(decode, Members(d.items)[k])
    requires Members(d.items)[k].value.Array? && |Members(Members(d.items)[k].value.items)| > cap
    ensures
      var text := PrintDocument(d);
      var out := Feed(decode, Live(Init(Some(cap))), text);
      && out.Stopped? && out.why == TreeEntryCapExceeded && CapStop(out, Some(cap))
      && 0 < |out.unread| <= |text| && out.unread == text[|text| - |out.unread|..]
      && Feed(decode, Live(Init(Some(cap))), text[..|text| - |out.unread|]).Live?
  {
    TooManyJudged(decode, cap, larger, d.items, {}, k);
    GuardVerdictOnDocument(decode, Some(cap), d);
    StopPosition(decode, Init(Some(cap)), PrintDocument(d));
  }
}
