/**
 Where in the document a `tree` array with too many entries is refused. The position is given by
 the document's own text: everything up to the end of entry number `cap`.
 */
module GuardPosition {
  import opened Wrappers
  import opened JsonText
  import opened StreamingGuard
  import opened GuardTheorems
  import opened GuardVerdict

  /** Separator, blanks and name of the first item. */
  function Lead(items: Items, first: bool): bytes
    requires items.Item?
  {
    Separator(first) + items.pre + PrintLabel(items.tag)
  }

  /** The whole first item. */
  function Head(items: Items, first: bool): bytes
    requires items.Item?
  {
    Lead(items, first) + Print(items.value) + items.post
  }

  /** The text of the first `n` items. */
  function PrintFirst(items: Items, first: bool, n: nat): bytes
    requires n <= |Members(items)|
    decreases items
  {
    if n == 0 then [] else Head(items, first) + PrintFirst(items.rest, false, n - 1)
  }

  /** The text of the items after the first `n`. */
  function PrintRest(items: Items, first: bool, n: nat): bytes
    requires n <= |Members(items)|
    decreases items
  {
    if n == 0 then PrintItems(items, first) else PrintRest(items.rest, false, n - 1)
  }

  lemma Regroup(a: bytes, b: bytes, c: bytes)
    ensures a + (b + c) == a + b + c
  {
  }

  lemma {:induction false} ItemsSplit(items: Items, first: bool, n: nat)
    requires n <= |Members(items)|
    ensures PrintItems(items, first) == PrintFirst(items, first, n) + PrintRest(items, first, n)
    decreases items
  {
    if n == 0 {
      assert [] + PrintItems(items, first) == PrintItems(items, first);
    } else {
      ItemsSplit(items.rest, false, n - 1);
      Regroup(Head(items, first), PrintFirst(items.rest, false, n - 1), PrintRest(items.rest, false, n - 1));
    }
  }

  /** Past the first item, the text of further items starts with their comma. */
  lemma {:induction false} RestStartsWithComma(items: Items, first: bool, n: nat)
    requires 0 < n < |Members(items)|
    ensures [COMMA] <= PrintRest(items, first, n)
    decreases items
  {
    assert |Members(items.rest)| == |Members(items)| - 1;
    if n > 1 {
      RestStartsWithComma(items.rest, false, n - 1);
    } else {
      assert items.rest.Item?;
    }
  }

  predicate LongTreeAt(decode: Decoder, items: Items, k: nat, cap: nat) {
    && k < |Members(items)| && IsTreeMember(decode, Members(items)[k])
    && Members(items)[k].value.Array? && |Members(Members(items)[k].value.items)| > cap
  }

  lemma TreeInTail(decode: Decoder, items: Items, k: nat, cap: nat)
    requires LongTreeAt(decode, items, k, cap)
    ensures items.Item? && (if k == 0 then Members(items)[0] == Member(items.tag, items.value)
                            else LongTreeAt(decode, items.rest, k - 1, cap))
  {
    if k > 0 {
      assert Members(items)[k] == Members(items.rest)[k - 1];
    }
  }

  /** The text of the members up to the end of entry number `cap` in the array of member `k`. */
  function UpToEntry(decode: Decoder, items: Items, first: bool, k: nat, cap: nat): bytes
    requires LongTreeAt(decode, items, k, cap)
    decreases items
  {
    TreeInTail(decode, items, k, cap);
    if k == 0 then Lead(items, first) + ([LBRACKET] + PrintFirst(items.value.items, true, cap))
    else Head(items, first) + UpToEntry(decode, items.rest, false, k - 1, cap)
  }

  /** The text of the members from there on. */
  function FromEntry(decode: Decoder, items: Items, k: nat, cap: nat): bytes
    requires LongTreeAt(decode, items, k, cap)
    decreases items
  {
    TreeInTail(decode, items, k, cap);
    if k == 0 then PrintRest(items.value.items, true, cap) + ([RBRACKET] + items.post + PrintItems(items.rest, false))
    else FromEntry(decode, items.rest, k - 1, cap)
  }

  lemma RegroupArray(lead: bytes, open: bytes, a: bytes, b: bytes, close: bytes, post: bytes, rest: bytes)
    ensures lead + (open + (a + b) + close) + post + rest == (lead + (open + a)) + (b + (close + post + rest))
  {
  }

  lemma {:induction false} MembersSplit(decode: Decoder, items: Items, first: bool, k: nat, cap: nat)
    requires LongTreeAt(decode, items, k, cap)
    ensures PrintItems(items, first) == UpToEntry(decode, items, first, k, cap) + FromEntry(decode, items, k, cap)
    decreases items
  {
    TreeInTail(decode, items, k, cap);
    if k == 0 {
      var entries := items.value.items;
      ItemsSplit(entries, true, cap);
      RegroupArray(Lead(items, first), [LBRACKET], PrintFirst(entries, true, cap), PrintRest(entries, true, cap),
                   [RBRACKET], items.post, PrintItems(items.rest, false));
    } else {
      MembersSplit(decode, items.rest, false, k - 1, cap);
      Regroup(Head(items, first), UpToEntry(decode, items.rest, false, k - 1, cap),
              FromEntry(decode, items.rest, k - 1, cap));
    }
  }

  lemma {:induction false} FromEntryStartsWithComma(decode: Decoder, items: Items, k: nat, cap: nat)
    requires LongTreeAt(decode, items, k, cap) && cap > 0
    ensures [COMMA] <= FromEntry(decode, items, k, cap)
    decreases items
  {
    TreeInTail(decode, items, k, cap);
    if k == 0 {
      RestStartsWithComma(items.value.items, true, cap);
    } else {
      FromEntryStartsWithComma(decode, items.rest, k - 1, cap);
    }
  }

  // ----- the automaton up to that point

  lemma ObjectsTail(items: Items)
    requires items.Item? && AllObjects(Members(items))
    ensures |Members(items)| == 1 + |Members(items.rest)| && items.value.Object? && AllObjects(Members(items.rest))
  {
    var ms := Members(items);
    assert ms[0].value == items.value && ms[1..] == Members(items.rest);
    assert forall k :: 0 < k < |ms| ==> ms[k] == ms[1..][k - 1];
  }

  /** One entry of the array within the cap. */
  lemma FeedHead(decode: Decoder, s: State, n: nat, items: Items)
    requires InTree(s, n) && items.Item? && WellFormedItems(items, false) && n < s.entryCap.value
    requires items.value.Object? && 2 + ItemsNesting(items) <= MAX_DEPTH
    ensures InTree(s.(treeEntries := n + 1), n + 1)
    ensures Feed(decode, Live(s), Head(items, n == 0)) == Live(s.(treeEntries := n + 1))
  {
    assert Lead(items, n == 0) == Separator(n == 0) + items.pre;
    FeedEntry(decode, s, n, items.pre, items.value, items.post);
  }

  /** The first entries of the array, as many as the cap allows, are accepted and counted. */
  lemma {:induction false} FeedFirstEntries(decode: Decoder, s: State, n: nat, items: Items, m: nat)
    requires InTree(s, n) && WellFormedItems(items, false) && m <= |Members(items)| && n + m <= s.entryCap.value
    requires AllObjects(Members(items)) && 2 + ItemsNesting(items) <= MAX_DEPTH
    ensures Feed(decode, Live(s), PrintFirst(items, n == 0, m)) == Live(s.(treeEntries := n + m))
    decreases items
  {
    if m > 0 {
      ObjectsTail(items);
      FeedHead(decode, s, n, items);
      FeedConcat(decode, Live(s), Head(items, n == 0), PrintFirst(items.rest, false, m - 1));
      FeedFirstEntries(decode, s.(treeEntries := n + 1), n + 1, items.rest, m - 1);
    }
  }

  /** Name and colon of a member whose name is new. */
  lemma FeedLabel(decode: Decoder, s: State, tag: Label)
    requires AtTop(s) && s.expectTopKey && WellFormedLabel(tag, true) && JudgeName(decode, tag.units, s.seen).Success?
    ensures
      var name := JudgeName(decode, tag.units, s.seen).value;
      Feed(decode, Live(s), PrintLabel(tag)) ==
      Live(AfterKey(s, Body(tag.units), name).(pendingTree := IsTree(s.entryCap, name)))
  {
    var key := Quoted(tag.units);
    FeedKey(decode, s, tag.units);
    FeedConcat(decode, Live(s), key, tag.mid);
    FeedConcat(decode, Live(s), key + tag.mid, [COLON]);
    FeedConcat(decode, Live(s), key + tag.mid + [COLON], tag.gap);
    var t := AfterKey(s, Body(tag.units), JudgeName(decode, tag.units, s.seen).value);
    FeedBlank(decode, t, tag.mid);
    StepByte(decode, t, COLON);
    StepKeepsInv(decode, t, COLON);
    FeedBlank(decode, t.(pendingTree := IsTree(s.entryCap, t.lastTopKey)), tag.gap);
  }

  /** From the key `tree` to the end of entry number `cap`. */
  lemma FeedIntoTree(decode: Decoder, s: State, tag: Label, items: Items, cap: nat)
    requires AtTop(s) && s.expectTopKey && s.entryCap == Some(cap) && s.treeEntries == 0
    requires WellFormedLabel(tag, true) && JudgeName(decode, tag.units, s.seen) == Success(TREE)
    requires WellFormedItems(items, false) && cap <= |Members(items)|
    requires AllObjects(Members(items)) && 2 + ItemsNesting(items) <= MAX_DEPTH
    ensures
      var out := Feed(decode, Live(s), PrintLabel(tag) + ([LBRACKET] + PrintFirst(items, true, cap)));
      out.Live? && InTree(out.s, cap) && out.s.entryCap == Some(cap)
  {
    var u := AfterKey(s, Body(tag.units), TREE).(pendingTree := true);
    var t := u.(stack := u.stack + [LBRACKET], inTree := true, pendingTree := false);
    FeedLabel(decode, s, tag);
    assert Inv(u);
    assert Step(decode, u, LBRACKET) == Ok(t);
    StepKeepsInv(decode, u, LBRACKET);
    StepByte(decode, u, LBRACKET);
    FeedFirstEntries(decode, t, 0, items, cap);
    FeedConcat(decode, Live(u), [LBRACKET], PrintFirst(items, true, cap));
    FeedConcat(decode, Live(s), PrintLabel(tag), [LBRACKET] + PrintFirst(items, true, cap));
  }

  lemma FeedUpToHere(decode: Decoder, s: State, items: Items, first: bool, cap: nat, larger: nat)
    requires AtTop(s) && (first ==> s.expectTopKey) && TreeUncounted(s) && s.entryCap == Some(cap)
    requires WellFormedItems(items, true) && LongTreeAt(decode, items, 0, cap)
    requires MemberOk(decode, Some(larger), Members(items)[0]) && TREE !in s.seen
    ensures
      var out := Feed(decode, Live(s), UpToEntry(decode, items, first, 0, cap));
      out.Live? && InTree(out.s, cap) && out.s.entryCap == Some(cap)
  {
    TreeInTail(decode, items, 0, cap);
    var tail := [LBRACKET] + PrintFirst(items.value.items, true, cap);
    FeedMemberStart(decode, s, first, items.pre);
    FeedIntoTree(decode, AfterSeparator(s, first), items.tag, items.value.items, cap);
    FeedConcat(decode, Live(s), Separator(first) + items.pre, PrintLabel(items.tag) + tail);
    Regroup(Separator(first) + items.pre, PrintLabel(items.tag), tail);
  }

  /** A member before the tree is passed. */
  lemma FeedPastMember(decode: Decoder, s: State, items: Items, first: bool, larger: nat) returns (t: State)
    requires AtTop(s) && (first ==> s.expectTopKey) && TreeUncounted(s) && s.entryCap.Some?
    requires items.Item? && WellFormedItems(items, true)
    requires
      var m := Member(items.tag, items.value);
      MemberOk(decode, Some(larger), m) && NameOf(decode, m) != TREE && NameOf(decode, m) !in s.seen
    ensures Feed(decode, Live(s), Head(items, first)) == Live(t)
    ensures AtTop(t) && TreeUncounted(t) && t.entryCap == s.entryCap
    ensures t.seen == s.seen + {NameOf(decode, Member(items.tag, items.value))}
  {
    var name := NameOf(decode, Member(items.tag, items.value));
    FeedMemberItem(decode, s, first, items.pre, items.tag, items.value, items.post);
    assert JudgeName(decode, items.tag.units, s.seen) == Success(name);
    assert JudgeValue(s.entryCap, name, items.value).None?;
    t := AfterMember(decode, AfterSeparator(s, first), items.tag, items.value, name);
  }

  /** The first member of an admissible list, and the list after it. */
  lemma AdmissibleTail(decode: Decoder, larger: nat, items: Items, seen: set<string>, k: nat, cap: nat)
    requires WellFormedItems(items, true) && AdmissibleMembers(decode, Some(larger), Members(items), seen)
    requires LongTreeAt(decode, items, k, cap) && items.Item?
    ensures Members(items)[0] == Member(items.tag, items.value)
    ensures MemberOk(decode, Some(larger), Member(items.tag, items.value))
    ensures NameOf(decode, Member(items.tag, items.value)) !in seen
    ensures NameOf(decode, Member(items.tag, items.value)) == TREE <==> k == 0
    ensures AdmissibleMembers(decode, Some(larger), Members(items.rest),
                              seen + {NameOf(decode, Member(items.tag, items.value))})
  {
    var ms := Members(items);
    assert ms[0] == Member(items.tag, items.value) && ms[1..] == Members(items.rest);
    assert MemberOk(decode, Some(larger), ms[0]) && MemberOk(decode, Some(larger), ms[k]);
    FreshNamesSplit(decode, ms, seen);
    AllSplit(decode, Some(larger), ms);
    if k > 0 {
      assert NameOf(decode, ms[0]) != NameOf(decode, ms[k]);
    }
  }

  /** Accepted, inside the array and after entry number `cap`. */
  ghost predicate AtEntry(out: Run, cap: nat) {
    out.Live? && InTree(out.s, cap) && out.s.entryCap == Some(cap)
  }

  lemma FeedOn(decode: Decoder, s: State, t: State, a: bytes, b: bytes, cap: nat)
    requires Inv(s) && Inv(t) && Feed(decode, Live(s), a) == Live(t) && AtEntry(Feed(decode, Live(t), b), cap)
    ensures AtEntry(Feed(decode, Live(s), a + b), cap)
  {
    FeedConcat(decode, Live(s), a, b);
  }

  lemma {:induction false} FeedUpToEntry(decode: Decoder, s: State, items: Items, first: bool, k: nat, cap: nat,
                                         larger: nat)
    requires AtTop(s) && (first ==> s.expectTopKey) && TreeUncounted(s) && s.entryCap == Some(cap)
    requires WellFormedItems(items, true) && AdmissibleMembers(decode, Some(larger), Members(items), s.seen)
    requires LongTreeAt(decode, items, k, cap)
    ensures AtEntry(Feed(decode, Live(s), UpToEntry(decode, items, first, k, cap)), cap)
    decreases items
  {
    TreeInTail(decode, items, k, cap);
    AdmissibleTail(decode, larger, items, s.seen, k, cap);
    if k == 0 {
      FeedUpToHere(decode, s, items, first, cap, larger);
    } else {
      var t := FeedPastMember(decode, s, items, first, larger);
      FeedUpToEntry(decode, t, items.rest, false, k - 1, cap, larger);
      FeedOn(decode, s, t, Head(items, first), UpToEntry(decode, items.rest, false, k - 1, cap), cap);
    }
  }

  lemma DocumentSplit(decode: Decoder, d: Document, k: nat, cap: nat)
    requires LongTreeAt(decode, d.items, k, cap)
    ensures PrintDocument(d) == d.pre + [LBRACE] + UpToEntry(decode, d.items, true, k, cap)
                                + (FromEntry(decode, d.items, k, cap) + [RBRACE] + d.post)
  {
    MembersSplit(decode, d.items, true, k, cap);
    RegroupDocument(d.pre, [LBRACE], UpToEntry(decode, d.items, true, k, cap), FromEntry(decode, d.items, k, cap),
                    [RBRACE], d.post);
  }

  lemma RegroupDocument(pre: bytes, open: bytes, a: bytes, b: bytes, close: bytes, post: bytes)
    ensures pre + (open + (a + b) + close) + post == pre + open + a + (b + close + post)
  {
  }

  /**
   A document whose only fault is a `tree` array of more than `cap` entries, `cap` at least 1: the text
   accepted is exactly the document up to the end of entry number `cap`, and the text left unread
   is the rest of the document, which starts with the comma after that entry.
   */
  lemma CapRefusalInDocument(decode: Decoder, cap: nat, larger: nat, d: Document, k: nat)
    requires WellFormedDocument(d) && Admissible(decode, Some(larger), d.items)
    requires LongTreeAt(decode, d.items, k, cap) && cap > 0
    ensures
      var accepted := d.pre + [LBRACE] + UpToEntry(decode, d.items, true, k, cap);
      var unread := FromEntry(decode, d.items, k, cap) + [RBRACE] + d.post;
      var out := Feed(decode, Live(Init(Some(cap))), PrintDocument(d));
      && PrintDocument(d) == accepted + unread && [COMMA] <= unread
      && Feed(decode, Live(Init(Some(cap))), accepted).Live?
      && out.Stopped? && out.why == TreeEntryCapExceeded && out.unread == unread
  {
    var s := Live(Init(Some(cap)));
    var t := Init(Some(cap)).(started := true, stack := [LBRACE]);
    var lead, text := d.pre + [LBRACE], UpToEntry(decode, d.items, true, k, cap);
    var unread := FromEntry(decode, d.items, k, cap) + [RBRACE] + d.post;
    FeedOpening(decode, Some(cap), d.pre);
    FeedUpToEntry(decode, t, d.items, true, k, cap, larger);
    FeedConcat(decode, s, lead, text);
    DocumentSplit(decode, d, k, cap);
    FromEntryStartsWithComma(decode, d.items, k, cap);
    FeedConcat(decode, s, lead + text, unread);
    RefusedAtCap(decode, Feed(decode, s, lead + text).s, unread);
  }

  lemma RefusedAtCap(decode: Decoder, u: State, unread: bytes)
    requires u.entryCap.Some? && u.entryCap.value > 0 && InTree(u, u.entryCap.value) && [COMMA] <= unread
    ensures Feed(decode, Live(u), unread) == Stopped(u, TreeEntryCapExceeded, unread)
  {
    assert unread[0] == COMMA;
    assert Step(decode, u, COMMA) == Err(u, TreeEntryCapExceeded);
  }
}
