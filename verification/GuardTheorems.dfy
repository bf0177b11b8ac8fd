/**
 What the guard decides about a whole text. `Feed` runs the automaton over a text and
 keeps, on a refusal, the bytes from the refused one on. The main results say that on a
 printed document the guard gives exactly the verdict of a structural reading of the
 tree, and that this verdict is acceptance exactly for the admissible documents.
 */
module GuardTheorems {
  import opened Wrappers
  import opened JsonText
  import opened StreamingGuard

  datatype Run = Live(s: State) | Stopped(s: State, why: Refusal, unread: bytes)

  predicate Fed(r: Run) {
    r.Live? ==> Inv(r.s)
  }

  function Feed(decode: Decoder, r: Run, text: bytes): (out: Run)
    requires Fed(r)
    ensures Fed(out)
    decreases |text|
  {
    match r
    case Stopped(s, why, unread) => Stopped(s, why, unread + text)
    case Live(s) =>
      if text == [] then r
      else
        StepKeepsInv(decode, s, text[0]);
        match Step(decode, s, text[0])
        case Ok(t) => Feed(decode, Live(t), text[1..])
        case Err(t, why) => Stopped(t, why, text)
  }

  lemma {:induction false} FeedConcat(decode: Decoder, r: Run, a: bytes, b: bytes)
    requires Fed(r)
    ensures Feed(decode, r, a + b) == Feed(decode, Feed(decode, r, a), b)
    decreases |a|
  {
    if a == [] {
      assert a + b == b;
    } else if r.Live? {
      assert (a + b)[1..] == a[1..] + b;
      StepKeepsInv(decode, r.s, a[0]);
      var step := Step(decode, r.s, a[0]);
      if step.Ok? {
        FeedConcat(decode, Live(step.s), a[1..], b);
      }
    } else {
      assert r.unread + (a + b) == r.unread + a + b;
    }
  }

  /** A refusal keeps the unread tail: everything before it was accepted byte by byte. */
  lemma {:induction false} StopPosition(decode: Decoder, s: State, text: bytes)
    requires Inv(s)
    ensures var out := Feed(decode, Live(s), text);
      out.Stopped? ==>
        && 0 < |out.unread| <= |text|
        && out.unread == text[|text| - |out.unread|..]
        && Feed(decode, Live(s), text[..|text| - |out.unread|]).Live?
    decreases |text|
  {
    if text != [] {
      StepKeepsInv(decode, s, text[0]);
      var step := Step(decode, s, text[0]);
      if step.Ok? {
        StopPosition(decode, step.s, text[1..]);
        var out := Feed(decode, Live(s), text);
        if out.Stopped? {
          var n := |text| - |out.unread|;
          assert text[..n][1..] == text[1..][..n - 1];
        }
      }
    }
  }

  /** Arbitrary bytes: the cap never moves and the count never passes it, refused or not. */
  lemma {:induction false} NeverPastCap(decode: Decoder, s: State, text: bytes)
    requires Inv(s)
    ensures var out := Feed(decode, Live(s), text);
      && out.s.entryCap == s.entryCap
      && s.treeEntries <= out.s.treeEntries
      && (s.entryCap.Some? ==> out.s.treeEntries <= s.entryCap.value)
    decreases |text|
  {
    if text != [] {
      StepKeepsInv(decode, s, text[0]);
      var step := Step(decode, s, text[0]);
      if step.Ok? {
        NeverPastCap(decode, step.s, text[1..]);
      }
    }
  }

  // ----- values below the top level

  /** Between tokens, inside a container that is not the tree array itself. */
  predicate Inside(s: State) {
    Inv(s) && !s.inString && |s.stack| >= 2 && !(|s.stack| == 2 && s.inTree)
  }

  predicate Fits(depth: nat, v: Json) {
    depth + Nesting(v) <= MAX_DEPTH
  }

  predicate TooDeep(r: Run) {
    r.Stopped? && r.why == JsonDepthExceeded
  }

  lemma StepByte(decode: Decoder, s: State, b: byte)
    requires Inv(s)
    ensures Feed(decode, Live(s), [b]) ==
            match Step(decode, s, b) { case Ok(t) => Live(t) case Err(t, why) => Stopped(t, why, [b]) }
  {
    StepKeepsInv(decode, s, b);
    var step := Step(decode, s, b);
    if step.Ok? {
      assert [b][1..] == [];
      assert Feed(decode, Live(step.s), []) == Live(step.s);
    }
  }

  /** Blanks outside strings change nothing, at any point of a document. */
  lemma {:induction false} FeedBlank(decode: Decoder, s: State, ws: bytes)
    requires Inv(s) && !s.inString && Blank(ws)
    ensures Feed(decode, Live(s), ws) == Live(s)
    decreases |ws|
  {
    if ws != [] {
      assert IsBlank(ws[0]);
      FeedBlank(decode, s, ws[1..]);
    }
  }

  lemma {:induction false} FeedLiteral(decode: Decoder, s: State, text: bytes)
    requires Inside(s) && |s.stack| <= MAX_DEPTH
    requires forall i :: 0 <= i < |text| ==> !IsBlank(text[i]) && !IsStructural(text[i])
    ensures Feed(decode, Live(s), text) == Live(s)
    decreases |text|
  {
    if text != [] {
      assert Step(decode, s, text[0]) == Ok(s);
      FeedLiteral(decode, s, text[1..]);
    }
  }

  lemma FeedUnit(decode: Decoder, s: State, u: Unit)
    requires Inv(s) && s.inString && !s.escape && !s.captureKey && WellFormedUnit(u)
    ensures Feed(decode, Live(s), UnitText(u)) == Live(s)
  {
    if u.Plain? {
      assert Step(decode, s, u.b) == Ok(s);
      StepByte(decode, s, u.b);
    } else {
      var t := s.(escape := true);
      assert Step(decode, s, BACKSLASH) == Ok(t);
      assert Step(decode, t, u.b) == Ok(s);
      StepByte(decode, s, BACKSLASH);
      StepByte(decode, t, u.b);
      FeedConcat(decode, Live(s), [BACKSLASH], [u.b]);
      assert [BACKSLASH, u.b] == [BACKSLASH] + [u.b];
    }
  }

  lemma {:induction false} FeedBody(decode: Decoder, s: State, units: seq<Unit>)
    requires Inv(s) && s.inString && !s.escape && !s.captureKey && WellFormedUnits(units)
    ensures Feed(decode, Live(s), Body(units)) == Live(s)
    decreases |units|
  {
    if units != [] {
      FeedUnit(decode, s, units[0]);
      FeedBody(decode, s, units[1..]);
      FeedConcat(decode, Live(s), UnitText(units[0]), Body(units[1..]));
    }
  }

  /** A string that is not a top-level key leaves no trace. */
  lemma FeedQuoted(decode: Decoder, s: State, units: seq<Unit>)
    requires Inv(s) && !s.inString && 1 <= |s.stack| <= MAX_DEPTH && WellFormedUnits(units)
    requires |s.stack| == 1 ==> !s.pendingTree && !s.expectTopKey
    requires !(|s.stack| == 2 && s.inTree)
    ensures Feed(decode, Live(s), Quoted(units)) == Live(s)
  {
    var t := s.(inString := true);
    assert Step(decode, s, QUOTE) == Ok(t);
    StepByte(decode, s, QUOTE);
    StepKeepsInv(decode, s, QUOTE);
    FeedBody(decode, t, units);
    assert Step(decode, t, QUOTE) == Ok(s);
    StepByte(decode, t, QUOTE);
    FeedConcat(decode, Live(s), [QUOTE], Body(units));
    FeedConcat(decode, Live(s), [QUOTE] + Body(units), [QUOTE]);
  }

  lemma PrintStartsNonBlank(v: Json)
    requires WellFormed(v)
    ensures Print(v) != [] && !IsBlank(Print(v)[0])
  {
  }

  /** The text is skipped without trace if it fits, and is refused for depth if it does not. */
  predicate Settles(decode: Decoder, s: State, text: bytes, fits: bool)
    requires Inv(s)
  {
    var out := Feed(decode, Live(s), text);
    if fits then out == Live(s) else TooDeep(out)
  }

  lemma FeedNestedLabel(decode: Decoder, s: State, tag: Label, named: bool)
    requires Inside(s) && |s.stack| <= MAX_DEPTH && WellFormedLabel(tag, named)
    ensures Feed(decode, Live(s), PrintLabel(tag)) == Live(s)
  {
    if named {
      FeedQuoted(decode, s, tag.units);
      FeedBlank(decode, s, tag.mid);
      assert Step(decode, s, COLON) == Ok(s);
      StepByte(decode, s, COLON);
      FeedBlank(decode, s, tag.gap);
      FeedConcat(decode, Live(s), Quoted(tag.units), tag.mid);
      FeedConcat(decode, Live(s), Quoted(tag.units) + tag.mid, [COLON]);
      FeedConcat(decode, Live(s), Quoted(tag.units) + tag.mid + [COLON], tag.gap);
    }
  }

  lemma FeedSeparator(decode: Decoder, s: State, first: bool, pre: bytes)
    requires Inside(s) && Blank(pre)
    ensures |s.stack| <= MAX_DEPTH || first ==> Feed(decode, Live(s), Separator(first) + pre) == Live(s)
    ensures |s.stack| > MAX_DEPTH && !first ==> TooDeep(Feed(decode, Live(s), Separator(first) + pre))
  {
    FeedBlank(decode, s, pre);
    FeedConcat(decode, Live(s), Separator(first), pre);
    if !first {
      StepByte(decode, s, COMMA);
    }
  }

  /** Separator, blanks, name and value of one item below the top level. */
  lemma FeedNestedItem(decode: Decoder, s: State, first: bool, pre: bytes, tag: Label, named: bool, value: Json)
    requires Inside(s) && Blank(pre) && WellFormedLabel(tag, named) && WellFormed(value)
    requires Settles(decode, s, Print(value), Fits(|s.stack|, value))
    ensures Settles(decode, s, Separator(first) + pre + PrintLabel(tag) + Print(value), Fits(|s.stack|, value))
  {
    var lead := Separator(first) + pre;
    FeedSeparator(decode, s, first, pre);
    FeedConcat(decode, Live(s), lead, PrintLabel(tag));
    FeedConcat(decode, Live(s), lead + PrintLabel(tag), Print(value));
    if |s.stack| <= MAX_DEPTH {
      FeedNestedLabel(decode, s, tag, named);
    } else if first {
      PrintStartsNonBlank(value);
      FeedConcat(decode, Live(s), PrintLabel(tag), Print(value));
    }
  }

  /** Below the top level the guard sees only nesting: by induction over the value. */
  lemma {:induction false} FeedNestedValue(decode: Decoder, s: State, v: Json)
    requires Inside(s) && WellFormed(v)
    ensures Settles(decode, s, Print(v), Fits(|s.stack|, v))
    decreases v
  {
    PrintStartsNonBlank(v);
    if |s.stack| > MAX_DEPTH {
    } else {
      match v
      case Literal(text) => FeedLiteral(decode, s, text);
      case Text(units) => FeedQuoted(decode, s, units);
      case Array(items) => FeedNestedContainer(decode, s, items, false);
      case Object(items) => FeedNestedContainer(decode, s, items, true);
    }
  }

  function Container(named: bool, items: Items): Json {
    if named then Object(items) else Array(items)
  }

  function Opening(named: bool): byte {
    if named then LBRACE else LBRACKET
  }

  function Closing(named: bool): byte {
    if named then RBRACE else RBRACKET
  }

  /** A container: `open` leads from `s` to `t`, the items leave `t` alone, `close` leads to `u`. */
  lemma FeedBracketed(decode: Decoder, s: State, t: State, u: State, items: Items, named: bool)
    requires Inv(s) && Inside(t) && Step(decode, s, Opening(named)) == Ok(t)
    requires |t.stack| <= MAX_DEPTH ==> Step(decode, t, Closing(named)) == Ok(u)
    requires Settles(decode, t, PrintItems(items, true), items.End? || |t.stack| + ItemsNesting(items) <= MAX_DEPTH)
    ensures
      var out := Feed(decode, Live(s), Print(Container(named, items)));
      if |t.stack| + ItemsNesting(items) <= MAX_DEPTH then out == Live(u) else TooDeep(out)
  {
    var open, close, body := [Opening(named)], [Closing(named)], PrintItems(items, true);
    StepByte(decode, s, Opening(named));
    StepByte(decode, t, Closing(named));
    FeedConcat(decode, Live(s), open, body);
    FeedConcat(decode, Live(s), open + body, close);
    assert Print(Container(named, items)) == open + body + close;
  }

  lemma {:induction false} FeedNestedContainer(decode: Decoder, s: State, items: Items, named: bool)
    requires Inside(s) && |s.stack| <= MAX_DEPTH && WellFormedItems(items, named)
    ensures Settles(decode, s, Print(Container(named, items)), Fits(|s.stack|, Container(named, items)))
    decreases items, 1
  {
    var t := s.(stack := s.stack + [Opening(named)]);
    StepKeepsInv(decode, s, Opening(named));
    FeedNestedItems(decode, t, items, named, true);
    assert t.stack[..|t.stack| - 1] == s.stack;
    FeedBracketed(decode, s, t, s, items, named);
  }

  lemma {:induction false} FeedNestedItems(decode: Decoder, s: State, items: Items, named: bool, first: bool)
    requires Inside(s) && WellFormedItems(items, named)
    ensures Settles(decode, s, PrintItems(items, first), items.End? || |s.stack| + ItemsNesting(items) <= MAX_DEPTH)
    decreases items, 0
  {
    match items
    case End(blank) => FeedBlank(decode, s, blank);
    case Item(pre, tag, value, post, rest) =>
      FeedNestedValue(decode, s, value);
      FeedNestedItem(decode, s, first, pre, tag, named, value);
      var head := Separator(first) + pre + PrintLabel(tag) + Print(value);
      FeedConcat(decode, Live(s), head, post);
      FeedConcat(decode, Live(s), head + post, PrintItems(rest, false));
      if Fits(|s.stack|, value) {
        FeedBlank(decode, s, post);
        FeedNestedItems(decode, s, rest, named, false);
      }
  }
}
