/**
 The streaming guard of tools/_retrieval_inventory_transport.py: a byte-at-a-time
 automaton that tracks the top level of a JSON object and caps the entries of its
 `tree` array before the next entry is read.

 `json.loads` on a captured key is the parameter `decode`: encoded body bytes to the
 decoded name, or None where it raises. Nothing is assumed about it.
 */
module StreamingGuard {
  import opened Wrappers
  import opened JsonText

  type Decoder = bytes -> Option<string>

  datatype Refusal =
    | MalformedJson
    | InvalidJsonObject
    | DuplicateJsonKey
    | JsonDepthExceeded
    | InvalidTreeField
    | InvalidTreeEntry
    | TreeEntryCapExceeded

  const MAX_DEPTH: nat := 24
  const MAX_KEY_BYTES: nat := 256
  const TREE: string := "tree"

  datatype State = State(
    entryCap: Option<nat>,
    keyBuf: bytes,
    stack: bytes,
    started: bool,
    closed: bool,
    inString: bool,
    escape: bool,
    expectTopKey: bool,
    lastTopKey: string,
    treeEntries: nat,
    captureKey: bool,
    pendingTree: bool,
    inTree: bool,
    expectEntry: bool,
    seen: set<string>)

  function Init(entryCap: Option<nat>): State {
    State(entryCap, [], [], false, false, false, false, true, "", 0, false, false, false, false, {})
  }

  /** What every accepted byte keeps, on arbitrary input. */
  predicate Inv(s: State) {
    && (s.entryCap.Some? ==> s.treeEntries <= s.entryCap.value)
    && (s.entryCap.None? ==> s.treeEntries == 0 && !s.inTree && !s.pendingTree)
    && |s.keyBuf| <= MAX_KEY_BYTES
    && |s.stack| <= MAX_DEPTH + 1
    && (forall i :: 0 <= i < |s.stack| ==> s.stack[i] == LBRACE || s.stack[i] == LBRACKET)
    && (s.started && !s.closed <==> s.stack != [])
    && (s.closed ==> s.started && !s.inString)
    && (s.stack != [] ==> s.stack[0] == LBRACE)
    && (s.inTree ==> |s.stack| >= 2 && s.stack[1] == LBRACKET && !s.pendingTree)
    && (s.expectEntry ==> s.inTree && s.treeEntries > 0)
    && (s.escape ==> s.inString)
    && (s.captureKey ==> s.inString && s.expectTopKey && |s.stack| == 1)
    && (s.inString ==> s.stack != [])
  }

  datatype StepResult = Ok(s: State) | Err(s: State, why: Refusal)

  function FinishTopKey(decode: Decoder, s: State): StepResult {
    match decode(s.keyBuf)
    case None => Err(s, MalformedJson)
    case Some(key) =>
      if key in s.seen then Err(s, DuplicateJsonKey)
      else Ok(s.(seen := s.seen + {key}, lastTopKey := key, captureKey := false, expectTopKey := false))
  }

  function StringStep(decode: Decoder, s: State, b: byte): StepResult {
    if s.escape || b == BACKSLASH then
      if s.captureKey && |s.keyBuf| >= MAX_KEY_BYTES then Err(s, MalformedJson)
      else Ok(s.(keyBuf := if s.captureKey then s.keyBuf + [b] else s.keyBuf, escape := !s.escape))
    else if b == QUOTE then
      var t := s.(inString := false);
      if s.captureKey then FinishTopKey(decode, t) else Ok(t)
    else if b < 0x20 || (s.captureKey && |s.keyBuf| >= MAX_KEY_BYTES) then Err(s, MalformedJson)
    else Ok(s.(keyBuf := if s.captureKey then s.keyBuf + [b] else s.keyBuf))
  }

  function TopStep(s: State, b: byte): StepResult
    requires |s.stack| == 1
  {
    if s.pendingTree then
      if b != LBRACKET then Err(s, InvalidTreeField)
      else Ok(s.(stack := s.stack + [LBRACKET], inTree := true, pendingTree := false))
    else if b == QUOTE then
      Ok(if s.expectTopKey then s.(inString := true, captureKey := true, keyBuf := []) else s.(inString := true))
    else if b == COLON then
      if s.expectTopKey then Err(s, MalformedJson)
      else Ok(s.(pendingTree := s.entryCap.Some? && s.lastTopKey == TREE))
    else if b == COMMA then Ok(s.(expectTopKey := true, lastTopKey := ""))
    else if b == LBRACE || b == LBRACKET then Ok(s.(stack := s.stack + [b]))
    else if b == RBRACE then Ok(s.(stack := [], closed := true))
    else Ok(s.(expectTopKey := false))
  }

  function TreeStep(s: State, b: byte): StepResult
    requires |s.stack| == 2 && s.entryCap.Some?
  {
    if b == RBRACKET then
      if s.expectEntry then Err(s, MalformedJson)
      else Ok(s.(inTree := false, stack := s.stack[..1]))
    else if b == LBRACE && (s.treeEntries == 0 || s.expectEntry) then
      if s.treeEntries >= s.entryCap.value then Err(s, TreeEntryCapExceeded)
      else Ok(s.(treeEntries := s.treeEntries + 1, expectEntry := false, stack := s.stack + [LBRACE]))
    else if b == COMMA && s.treeEntries > 0 && !s.expectEntry then
      if s.treeEntries >= s.entryCap.value then Err(s, TreeEntryCapExceeded)
      else Ok(s.(expectEntry := true))
    else Err(s, InvalidTreeEntry)
  }

  function NestedStep(s: State, b: byte): StepResult
    requires s.stack != []
  {
    var top := |s.stack| - 1;
    if b == QUOTE then Ok(s.(inString := true))
    else if b == LBRACE || b == LBRACKET then Ok(s.(stack := s.stack + [b]))
    else if b == RBRACE || b == RBRACKET then
      if s.stack[top] != (if b == RBRACE then LBRACE else LBRACKET) then Err(s, MalformedJson)
      else Ok(s.(stack := s.stack[..top]))
    else Ok(s)
  }

  /** One call of `feed`: the fields afterwards, and the refusal if one was raised. */
  function Step(decode: Decoder, s: State, b: byte): StepResult
    requires Inv(s)
  {
    if s.closed then
      if IsBlank(b) then Ok(s) else Err(s, MalformedJson)
    else if !s.started then
      if IsBlank(b) then Ok(s)
      else if b != LBRACE then Err(s, InvalidJsonObject)
      else Ok(s.(started := true, stack := s.stack + [LBRACE]))
    else if s.inString then StringStep(decode, s, b)
    else if IsBlank(b) then Ok(s)
    else if |s.stack| > MAX_DEPTH then Err(s, JsonDepthExceeded)
    else if |s.stack| == 1 then TopStep(s, b)
    else if |s.stack| == 2 && s.inTree then TreeStep(s, b)
    else NestedStep(s, b)
  }

  /** `r` is a legal outcome of feeding a byte to `s`: the cap is fixed and never passed. */
  predicate Keeps(s: State, r: StepResult) {
    && (r.Ok? ==> Inv(r.s))
    && r.s.entryCap == s.entryCap
    && s.treeEntries <= r.s.treeEntries
    && (s.entryCap.Some? ==> r.s.treeEntries <= s.entryCap.value)
  }

  lemma StringStepKeepsInv(decode: Decoder, s: State, b: byte)
    requires Inv(s) && s.inString
    ensures Keeps(s, StringStep(decode, s, b))
  {
  }

  lemma TopStepKeepsInv(s: State, b: byte)
    requires Inv(s) && !s.inString && |s.stack| == 1
    ensures Keeps(s, TopStep(s, b))
  {
  }

  lemma TreeStepKeepsInv(s: State, b: byte)
    requires Inv(s) && !s.inString && |s.stack| == 2 && s.inTree
    ensures Keeps(s, TreeStep(s, b))
  {
  }

  lemma NestedStepKeepsInv(s: State, b: byte)
    requires Inv(s) && !s.inString && 2 <= |s.stack| <= MAX_DEPTH && !(|s.stack| == 2 && s.inTree)
    ensures Keeps(s, NestedStep(s, b))
  {
  }

  /** Every accepted byte keeps the invariant, whatever the bytes are. */
  lemma StepKeepsInv(decode: Decoder, s: State, b: byte)
    requires Inv(s)
    ensures Keeps(s, Step(decode, s, b))
  {
    if s.stack != [] {
      if s.inString {
        StringStepKeepsInv(decode, s, b);
      } else if |s.stack| == 1 {
        TopStepKeepsInv(s, b);
      } else if |s.stack| == 2 && s.inTree {
        TreeStepKeepsInv(s, b);
      } else if |s.stack| <= MAX_DEPTH {
        NestedStepKeepsInv(s, b);
      }
    }
  }

  /** The guard object of the source; `Feed` is proved against `Step`. */
  class StreamingJsonGuard {
    const decode: Decoder
    const entryCap: Option<nat>
    var keyBuf: bytes
    var stack: bytes
    var started: bool
    var closed: bool
    var inString: bool
    var escape: bool
    var expectTopKey: bool
    var lastTopKey: string
    var treeEntries: nat
    var captureKey: bool
    var pendingTree: bool
    var inTree: bool
    var expectEntry: bool
    var seen: set<string>

    ghost function View(): State
      reads this
    {
      State(entryCap, keyBuf, stack, started, closed, inString, escape, expectTopKey, lastTopKey,
            treeEntries, captureKey, pendingTree, inTree, expectEntry, seen)
    }

    ghost predicate Valid()
      reads this
    {
      Inv(View())
    }

    constructor (decode: Decoder, entryCap: Option<nat>)
      ensures Valid() && View() == Init(entryCap) && this.decode == decode && this.entryCap == entryCap
    {
      this.decode, this.entryCap := decode, entryCap;
      keyBuf, stack, seen := [], [], {};
      started, closed, inString, escape := false, false, false, false;
      expectTopKey, lastTopKey, treeEntries := true, "", 0;
      captureKey, pendingTree, inTree, expectEntry := false, false, false, false;
    }

    method FinishKey() returns (refusal: Option<Refusal>)
      modifies this
      ensures View() == FinishTopKey(decode, old(View())).s
      ensures refusal == Verdict(FinishTopKey(decode, old(View())))
    {
      var decoded := decode(keyBuf);
      if decoded.None? {
        return Some(MalformedJson);
      }
      if decoded.value in seen {
        return Some(DuplicateJsonKey);
      }
      seen := seen + {decoded.value};
      lastTopKey, captureKey, expectTopKey := decoded.value, false, false;
      return None;
    }

    /** Refused or not, the fields afterwards are those of `Step`; an accepted byte keeps `Valid`. */
    method Feed(b: byte) returns (refusal: Option<Refusal>)
      requires Valid()
      modifies this
      ensures View() == Step(decode, old(View()), b).s
      ensures refusal == Verdict(Step(decode, old(View()), b))
      ensures refusal.None? ==> Valid()
    {
      StepKeepsInv(decode, View(), b);
      var ws := IsBlank(b);
      if closed {
        return if ws then None else Some(MalformedJson);
      }
      if !started {
        if !ws {
          if b != LBRACE {
            return Some(InvalidJsonObject);
          }
          started := true;
          stack := stack + [LBRACE];
        }
        return None;
      }
      if inString {
        refusal := FeedString(b);
        return;
      }
      if ws {
        return None;
      }
      if |stack| > MAX_DEPTH {
        return Some(JsonDepthExceeded);
      }
      if |stack| == 1 {
        refusal := FeedTop(b);
      } else if |stack| == 2 && inTree {
        refusal := FeedTree(b);
      } else {
        refusal := FeedNested(b);
      }
    }

    method FeedString(b: byte) returns (refusal: Option<Refusal>)
      modifies this
      ensures View() == StringStep(decode, old(View()), b).s
      ensures refusal == Verdict(StringStep(decode, old(View()), b))
    {
      refusal := None;
      if escape || b == BACKSLASH {
        if captureKey {
          if |keyBuf| >= MAX_KEY_BYTES {
            return Some(MalformedJson);
          }
          keyBuf := keyBuf + [b];
        }
        escape := !escape;
      } else if b == QUOTE {
        inString := false;
        if captureKey {
          refusal := FinishKey();
        }
      } else {
        if b < 0x20 || (captureKey && |keyBuf| >= MAX_KEY_BYTES) {
          return Some(MalformedJson);
        }
        if captureKey {
          keyBuf := keyBuf + [b];
        }
      }
    }

    /** A byte of the outermost level that ends a member or changes the depth, or belongs to a bare value. */
    method FeedMark(b: byte)
      requires |stack| == 1 && !pendingTree && b != QUOTE && b != COLON
      modifies this
      ensures TopStep(old(View()), b) == Ok(View())
    {
      if b == COMMA {
        expectTopKey, lastTopKey := true, "";
      } else if b == LBRACE || b == LBRACKET {
        stack := stack + [b];
      } else if b == RBRACE {
        stack := stack[..|stack| - 1];
        closed := true;
      } else {
        expectTopKey := false;
      }
    }

    method FeedTop(b: byte) returns (refusal: Option<Refusal>)
      requires |stack| == 1
      modifies this
      ensures View() == TopStep(old(View()), b).s
      ensures refusal == Verdict(TopStep(old(View()), b))
    {
      refusal := None;
      if pendingTree {
        if b != LBRACKET {
          return Some(InvalidTreeField);
        }
        stack := stack + [LBRACKET];
        inTree, pendingTree := true, false;
      } else if b == QUOTE {
        inString := true;
        if expectTopKey {
          captureKey := true;
          keyBuf := [];
        }
      } else if b == COLON {
        if expectTopKey {
          return Some(MalformedJson);
        }
        pendingTree := entryCap.Some? && lastTopKey == TREE;
      } else {
        FeedMark(b);
      }
    }

    method FeedTree(b: byte) returns (refusal: Option<Refusal>)
      requires |stack| == 2 && entryCap.Some?
      modifies this
      ensures View() == TreeStep(old(View()), b).s
      ensures refusal == Verdict(TreeStep(old(View()), b))
    {
      refusal := None;
      if b == RBRACKET {
        if expectEntry {
          return Some(MalformedJson);
        }
        inTree := false;
        stack := stack[..|stack| - 1];
      } else if b == LBRACE && (treeEntries == 0 || expectEntry) {
        if treeEntries >= entryCap.value {
          return Some(TreeEntryCapExceeded);
        }
        treeEntries := treeEntries + 1;
        expectEntry := false;
        stack := stack + [LBRACE];
      } else if b == COMMA && treeEntries > 0 && !expectEntry {
        if treeEntries >= entryCap.value {
          return Some(TreeEntryCapExceeded);
        }
        expectEntry := true;
      } else {
        return Some(InvalidTreeEntry);
      }
    }

    method FeedNested(b: byte) returns (refusal: Option<Refusal>)
      requires stack != []
      modifies this
      ensures View() == NestedStep(old(View()), b).s
      ensures refusal == Verdict(NestedStep(old(View()), b))
    {
      refusal := None;
      if b == QUOTE {
        inString := true;
      } else if b == LBRACE || b == LBRACKET {
        stack := stack + [b];
      } else if b == RBRACE || b == RBRACKET {
        if stack[|stack| - 1] != (if b == RBRACE then LBRACE else LBRACKET) {
          return Some(MalformedJson);
        }
        stack := stack[..|stack| - 1];
      }
    }
  }

  function Verdict(r: StepResult): Option<Refusal> {
    if r.Ok? then None else Some(r.why)
  }
}
