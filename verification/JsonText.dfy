/**
 JSON documents as bytes. A document is a tree that remembers every insignificant
 blank, so `Print` reaches every layout of the grammar in sections 2 to 7 of RFC 8259.
 Literals and string bodies are described loosely (any bytes that cannot be mistaken
 for structure), so the documents here include all RFC 8259 objects.
 */
module JsonText {
  type byte = b: int | 0 <= b < 256
  type bytes = seq<byte>

  const QUOTE: byte := 0x22
  const COMMA: byte := 0x2C
  const COLON: byte := 0x3A
  const BACKSLASH: byte := 0x5C
  const LBRACKET: byte := 0x5B
  const RBRACKET: byte := 0x5D
  const LBRACE: byte := 0x7B
  const RBRACE: byte := 0x7D

  predicate IsBlank(b: byte) {
    b == 0x20 || b == 0x09 || b == 0x0A || b == 0x0D
  }

  predicate Blank(ws: bytes) {
    forall i :: 0 <= i < |ws| ==> IsBlank(ws[i])
  }

  predicate IsStructural(b: byte) {
    b == QUOTE || b == COMMA || b == COLON || b == LBRACKET || b == RBRACKET || b == LBRACE || b == RBRACE
  }

  /** One byte of a string body, or a backslash with the byte it escapes. */
  datatype Unit = Plain(b: byte) | Escaped(b: byte)

  predicate WellFormedUnit(u: Unit) {
    u.Plain? ==> u.b >= 0x20 && u.b != QUOTE && u.b != BACKSLASH
  }

  predicate WellFormedUnits(units: seq<Unit>) {
    forall i :: 0 <= i < |units| ==> WellFormedUnit(units[i])
  }

  function UnitText(u: Unit): bytes {
    if u.Plain? then [u.b] else [BACKSLASH, u.b]
  }

  function Body(units: seq<Unit>): bytes {
    if units == [] then [] else UnitText(units[0]) + Body(units[1..])
  }

  function Quoted(units: seq<Unit>): bytes {
    [QUOTE] + Body(units) + [QUOTE]
  }

  /** Array elements are bare; object members carry a name and the blanks around its colon. */
  datatype Label = Bare | Named(units: seq<Unit>, mid: bytes, gap: bytes)

  datatype Json =
    | Literal(text: bytes)
    | Text(units: seq<Unit>)
    | Array(items: Items)
    | Object(items: Items)

  datatype Items =
    | End(blank: bytes)
    | Item(pre: bytes, tag: Label, value: Json, post: bytes, rest: Items)

  predicate WellFormedLabel(tag: Label, named: bool) {
    tag.Named? == named &&
    (named ==> WellFormedUnits(tag.units) && Blank(tag.mid) && Blank(tag.gap))
  }

  predicate WellFormed(v: Json) {
    match v
    case Literal(text) =>
      text != [] && forall i :: 0 <= i < |text| ==> !IsBlank(text[i]) && !IsStructural(text[i])
    case Text(units) => WellFormedUnits(units)
    case Array(items) => WellFormedItems(items, false)
    case Object(items) => WellFormedItems(items, true)
  }

  predicate WellFormedItems(items: Items, named: bool) {
    match items
    case End(blank) => Blank(blank)
    case Item(pre, tag, value, post, rest) =>
      Blank(pre) && WellFormedLabel(tag, named) && WellFormed(value) && Blank(post) &&
      WellFormedItems(rest, named)
  }

  function PrintLabel(tag: Label): bytes {
    match tag
    case Bare => []
    case Named(units, mid, gap) => Quoted(units) + mid + [COLON] + gap
  }

  function Print(v: Json): bytes {
    match v
    case Literal(text) => text
    case Text(units) => Quoted(units)
    case Array(items) => [LBRACKET] + PrintItems(items, true) + [RBRACKET]
    case Object(items) => [LBRACE] + PrintItems(items, true) + [RBRACE]
  }

  function Separator(first: bool): bytes {
    if first then [] else [COMMA]
  }

  function PrintItems(items: Items, first: bool): bytes {
    match items
    case End(blank) => blank
    case Item(pre, tag, value, post, rest) =>
      Separator(first) + pre + PrintLabel(tag) + Print(value) + post + PrintItems(rest, false)
  }

  /** Container nesting: 0 for a scalar, 1 for an empty container. */
  function Nesting(v: Json): nat {
    match v
    case Literal(_) => 0
    case Text(_) => 0
    case Array(items) => 1 + ItemsNesting(items)
    case Object(items) => 1 + ItemsNesting(items)
  }

  function ItemsNesting(items: Items): nat {
    match items
    case End(_) => 0
    case Item(_, _, value, _, rest) =>
      if Nesting(value) >= ItemsNesting(rest) then Nesting(value) else ItemsNesting(rest)
  }

  datatype Member = Member(tag: Label, value: Json)

  /** The members of a container in document order. */
  function Members(items: Items): seq<Member> {
    match items
    case End(_) => []
    case Item(_, tag, value, _, rest) => [Member(tag, value)] + Members(rest)
  }

  /** A whole response body: one object with blanks around it. */
  datatype Document = Document(pre: bytes, items: Items, post: bytes)

  predicate WellFormedDocument(d: Document) {
    Blank(d.pre) && WellFormedItems(d.items, true) && Blank(d.post)
  }

  function PrintDocument(d: Document): bytes {
    d.pre + Print(Object(d.items)) + d.post
  }
}
