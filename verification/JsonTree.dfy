/**
 * What a JSON document says, byte by byte: the pieces of its strings, the blanks between its tokens,
 * and the value that its text spells (RFC 8259, as src/third_part/json/jsoncpp.cpp reads it).
 */
module JsonTree {
  import opened Bytes
  import opened JsonText
  import opened JsonScan
  import opened Wrappers

  // ---------------------------------------------------------------------------
  // Pieces of a string

  /** A character as it is, an escaped one, and one or two unicode escapes of four digits each. */
  datatype Piece = Raw(c: Byte) | Mark(c: Byte) | Code(h: Text) | Pair(h: Text, l: Text)

  /** A hexadecimal digit, in either case. */
  predicate IsHex(c: Byte) { 0x30 <= c <= 0x39 || 0x41 <= c <= 0x46 || 0x61 <= c <= 0x66 }

  function HexOf(c: Byte): nat
    requires IsHex(c)
  {
    if c <= 0x39 then c - 0x30 else if c <= 0x46 then c - 0x41 + 10 else c - 0x61 + 10
  }

  predicate IsFour(h: Text) { |h| == 4 && IsHex(h[0]) && IsHex(h[1]) && IsHex(h[2]) && IsHex(h[3]) }

  function FourOf(h: Text): nat
    requires IsFour(h)
  {
    HexOf(h[0]) * 0x1000 + HexOf(h[1]) * 0x100 + HexOf(h[2]) * 0x10 + HexOf(h[3])
  }

  predicate PieceOk(p: Piece) {
    match p
    case Raw(c) => c != 0x22 && c != 0x5c
    case Mark(c) => c in [0x22, 0x5c, 0x2f, 0x62, 0x66, 0x6e, 0x72, 0x74]
    case Code(h) => IsFour(h) && !(0xd800 <= FourOf(h) <= 0xdbff)
    case Pair(h, l) => IsFour(h) && IsFour(l) && 0xd800 <= FourOf(h) <= 0xdbff
  }

  function PieceText(p: Piece): Text {
    match p
    case Raw(c) => [c]
    case Mark(c) => [0x5c, c]
    case Code(h) => [0x5c, 0x75] + h
    case Pair(h, l) => [0x5c, 0x75] + (h + ([0x5c, 0x75] + l))
  }

  /** The bytes that a piece stands for. */
  function PieceBytes(p: Piece): Text
    requires PieceOk(p)
  {
    match p
    case Raw(c) => [c]
    case Mark(c) =>
      [if c == 0x62 then 0x08 else if c == 0x66 then 0x0c else if c == 0x6e then 0x0a
       else if c == 0x72 then 0x0d else if c == 0x74 then 0x09 else c]
    case Code(h) => Utf8(FourOf(h))
    case Pair(h, l) => Utf8(0x10000 + (FourOf(h) - 0xd800) * 0x400 + FourOf(l) % 0x400)
  }

  predicate PiecesOk(ps: seq<Piece>) { forall i :: 0 <= i < |ps| ==> PieceOk(ps[i]) }

  function PiecesText(ps: seq<Piece>): Text {
    if ps == [] then [] else PieceText(ps[0]) + PiecesText(ps[1..])
  }

  function PiecesBytes(ps: seq<Piece>): Text
    requires PiecesOk(ps)
  {
    if ps == [] then [] else PieceBytes(ps[0]) + PiecesBytes(ps[1..])
  }

  function StringText(ps: seq<Piece>): Text { [0x22] + (PiecesText(ps) + [0x22]) }

  // ---------------------------------------------------------------------------
  // Values

  /**
   * The text of a value, with the blanks before it.  Behind an opening bracket or brace come the
   * elements or the members, with the blanks behind each of them, up to the closing one.
   */
  datatype Tree =
    | Word(gap: Text, word: Text)
    | Numeral(gap: Text, text: Text)
    | Quote(gap: Text, pieces: seq<Piece>)
    | EmptyList(gap: Text, inner: Text)
    | List(gap: Text, elems: Elems)
    | Record(gap: Text, rows: Rows)

  datatype Elems = LastElem(tree: Tree, tail: Text) | NextElem(tree: Tree, tail: Text, rest: Elems)

  datatype Rows =
    | NoRow(gap: Text)
    | LastRow(gap: Text, name: seq<Piece>, colon: Text, tree: Tree, tail: Text)
    | NextRow(gap: Text, name: seq<Piece>, colon: Text, tree: Tree, tail: Text, rest: Rows)

  /** Blanks, tabs and line ends. */
  predicate GapOk(g: Text) { forall i :: 0 <= i < |g| ==> g[i] == 0x20 || g[i] == 0x09 || g[i] == 0x0d || g[i] == 0x0a }

  const WORDS: seq<Text> :=
    [[0x6e, 0x75, 0x6c, 0x6c], [0x74, 0x72, 0x75, 0x65], [0x66, 0x61, 0x6c, 0x73, 0x65]]

  /** A digit, or one of . e E + - */
  predicate InNumeral(c: Byte) { 0x30 <= c <= 0x39 || c == 0x2e || c == 0x65 || c == 0x45 || c == 0x2b || c == 0x2d }

  predicate NumeralOk(x: Text) {
    x != [] && (0x30 <= x[0] <= 0x39 || x[0] == 0x2d) && forall i :: 0 <= i < |x| ==> InNumeral(x[i])
  }

  /** A '.', an exponent or a sign inside. */
  predicate Marked(x: Text) {
    exists i ::
      && 0 <= i < |x|
      && (x[i] == 0x2e || x[i] == 0x65 || x[i] == 0x45 || x[i] == 0x2b || (x[i] == 0x2d && i > 0))
  }

  predicate IsDecimal(s: Text) { forall i :: 0 <= i < |s| ==> 0x30 <= s[i] <= 0x39 }

  /** The number that decimal digits denote. */
  function Decimal(s: Text): nat
    requires IsDecimal(s)
  {
    if s == [] then 0 else Decimal(s[..|s| - 1]) * 10 + (s[|s| - 1] - 0x30)
  }

  /** An integer from -2^63 to 2^64 - 1, or else a real. */
  ghost function NumeralMeaning(x: Text): Json {
    var negative := x != [] && x[0] == 0x2d;
    var digits := if negative then x[1..] else x;
    if Marked(x) || !IsDecimal(digits) then Real(x)
    else
      var n: int := Decimal(digits);
      if n > (if negative then 0x8000_0000_0000_0000 else 0xffff_ffff_ffff_ffff) then Real(x)
      else if negative then Num(-n) else Num(n)
  }

  ghost predicate Spelled(t: Tree) {
    && GapOk(t.gap)
    && match t
       case Word(_, word) => word in WORDS
       case Numeral(_, text) => NumeralOk(text)
       case Quote(_, pieces) => PiecesOk(pieces)
       case EmptyList(_, inner) => GapOk(inner)
       case List(_, elems) => ElemsSpelled(elems)
       case Record(_, rows) => RowsSpelled(rows, [])
  }

  ghost predicate ElemsSpelled(e: Elems) {
    && Spelled(e.tree) && GapOk(e.tail)
    && (e.NextElem? ==> ElemsSpelled(e.rest))
  }

  /** A brace may close the object at its start, and behind a comma if the last name is empty. */
  ghost predicate RowsSpelled(r: Rows, last: Text) {
    && GapOk(r.gap)
    && match r
       case NoRow(_) => last == []
       case LastRow(_, name, colon, tree, tail) => PiecesOk(name) && GapOk(colon) && Spelled(tree) && GapOk(tail)
       case NextRow(_, name, colon, tree, tail, rest) =>
         PiecesOk(name) && GapOk(colon) && Spelled(tree) && GapOk(tail) && RowsSpelled(rest, PiecesBytes(name))
  }

  function Layout(t: Tree): Text {
    match t
    case Word(gap, word) => gap + word
    case Numeral(gap, text) => gap + text
    case Quote(gap, pieces) => gap + StringText(pieces)
    case EmptyList(gap, inner) => gap + ([0x5b] + (inner + [0x5d]))
    case List(gap, elems) => gap + ([0x5b] + ElemsText(elems))
    case Record(gap, rows) => gap + ([0x7b] + RowsText(rows))
  }

  function ElemsText(e: Elems): Text {
    Layout(e.tree) + (e.tail + if e.LastElem? then [0x5d] else [0x2c] + ElemsText(e.rest))
  }

  function RowsText(r: Rows): Text {
    if r.NoRow? then r.gap + [0x7d]
    else r.gap + (StringText(r.name) + (r.colon + ([0x3a] + (Layout(r.tree) +
           (r.tail + if r.LastRow? then [0x7d] else [0x2c] + RowsText(r.rest))))))
  }

  ghost function Meaning(t: Tree): Json
    requires Spelled(t)
  {
    match t
    case Word(_, word) =>
      if word == [0x6e, 0x75, 0x6c, 0x6c] then Null else Bool(word == [0x74, 0x72, 0x75, 0x65])
    case Numeral(_, text) => NumeralMeaning(text)
    case Quote(_, pieces) => Str(PiecesBytes(pieces))
    case EmptyList(_, _) => Arr([])
    case List(_, elems) => Arr(ElemsMeaning(elems))
    case Record(_, rows) => Obj(Assigned(RowsMeaning(rows, [])))
  }

  ghost function ElemsMeaning(e: Elems): seq<Json>
    requires ElemsSpelled(e)
  {
    [Meaning(e.tree)] + if e.LastElem? then [] else ElemsMeaning(e.rest)
  }

  /** The members in the order of the document. */
  ghost function RowsMeaning(r: Rows, last: Text): seq<Member>
    requires RowsSpelled(r, last)
  {
    if r.NoRow? then []
    else [Member(PiecesBytes(r.name), Meaning(r.tree))]
         + if r.LastRow? then [] else RowsMeaning(r.rest, PiecesBytes(r.name))
  }

  /** The text at place `i` of the document spells a value; a number ends where its characters end. */
  ghost predicate Spells(doc: Text, i: nat, t: Tree) {
    && Spelled(t) && i + |Layout(t)| <= |doc| && doc[i..i + |Layout(t)|] == Layout(t)
    && (t.Numeral? && i + |Layout(t)| < |doc| ==> !InNumeral(doc[i + |Layout(t)|]))
  }
}
