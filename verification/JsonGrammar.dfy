/**
 * Reader (src/third_part/json/jsoncpp.cpp) as functions of the document, and their meaning: they
 * yield a value exactly where the text of the document spells one, and then that value.
 */
module JsonGrammar {
  import opened Bytes
  import opened JsonText
  import opened JsonScan
  import opened JsonTree
  import opened Wrappers

  // ---------------------------------------------------------------------------
  // The reader as functions

  datatype Read = Read(v: Json, end: nat)
  datatype ReadItems = ReadItems(items: seq<Json>, end: nat)
  datatype ReadMembers = ReadMembers(pairs: seq<Member>, end: nat)

  /**
   * What the reader asks the document: the next token from a place on, the value and the string of a
   * token, and the place behind a bracket that closes an empty array.
   */
  datatype Lexer = Lexer(
    size: nat,
    token: nat -> Token,
    scalar: Token -> Option<Json>,
    name: Token -> Option<Text>,
    empty: nat -> Option<nat>)
  {
    /** A token that lies behind place `i`. */
    predicate Goes(i: nat) { i < token(i).end <= size }
  }

  function LexerOf(doc: Text): Lexer {
    Lexer(|doc|, (i: nat) => if i <= |doc| then TokenFrom(doc, i) else Token(EndOfStream, i, i),
          (tok: Token) => ScalarOf(doc, tok), (tok: Token) => NameOf(doc, tok), (i: nat) => EmptyAt(doc, i))
  }

  /** A value that is a single token. */
  function ScalarOf(doc: Text, tok: Token): Option<Json> {
    if tok.start > |doc| || tok != TokenAt(doc, tok.start) then None
    else match tok.kind
      case NumberToken =>
        NumberChars(doc[tok.start..tok.end]);
        Some(NumberValue(doc[tok.start..tok.end]))
      case StringToken =>
        var s := NameOf(doc, tok);
        if s.None? then None else Some(Str(s.value))
      case TrueToken => Some(Bool(true))
      case FalseToken => Some(Bool(false))
      case NullToken => Some(Null)
      case _ => None
  }

  /** The string between the quotes of a token. */
  function NameOf(doc: Text, tok: Token): Option<Text> {
    if tok.kind == StringToken && tok.start + 2 <= tok.end <= |doc| then Unescape(doc[tok.start + 1..tok.end - 1])
    else None
  }

  function EmptyAt(doc: Text, i: nat): Option<nat> {
    if i <= |doc| && Char(doc, SkipSpaces(doc, i)) == CLOSE_ARRAY then Some(SkipSpaces(doc, i) + 1) else None
  }

  /** The value that readValue reads from place `i` on. */
  function ReadAt(lex: Lexer, i: nat): (r: Option<Read>)
    ensures r.Some? ==> i < r.value.end <= lex.size
    decreases lex.size - i, 1
  {
    var tok := lex.token(i);
    if !lex.Goes(i) then None
    else if tok.kind == ObjectBegin then
      var m := MembersAt(lex, tok.end, []);
      if m.None? then None else Some(Read(Obj(Assigned(m.value.pairs)), m.value.end))
    else if tok.kind == ArrayBegin then
      var closed := lex.empty(tok.end);
      if closed.Some? then if tok.end < closed.value <= lex.size then Some(Read(Arr([]), closed.value)) else None
      else
        var a := ItemsAt(lex, tok.end);
        if a.None? then None else Some(Read(Arr(a.value.items), a.value.end))
    else if lex.scalar(tok).None? then None
    else Some(Read(lex.scalar(tok).value, tok.end))
  }

  /** The loop of readArray, up to the closing bracket. */
  function ItemsAt(lex: Lexer, i: nat): (r: Option<ReadItems>)
    ensures r.Some? ==> i < r.value.end <= lex.size
    decreases lex.size - i, 2
  {
    var first := ReadAt(lex, i);
    if first.None? || !lex.Goes(first.value.end) then None
    else
      var tok := lex.token(first.value.end);
      if tok.kind == Separator then
        var rest := ItemsAt(lex, tok.end);
        if rest.None? then None else Some(ReadItems([first.value.v] + rest.value.items, rest.value.end))
      else if tok.kind == ArrayEnd then Some(ReadItems([first.value.v], tok.end))
      else None
  }

  /** The loop of readObject, up to the closing brace; `last` is the name read last. */
  function MembersAt(lex: Lexer, i: nat, last: Text): (r: Option<ReadMembers>)
    ensures r.Some? ==> i < r.value.end <= lex.size
    decreases lex.size - i, 2
  {
    var tok := lex.token(i);
    if !lex.Goes(i) then None
    else if tok.kind == ObjectEnd && last == [] then Some(ReadMembers([], tok.end))
    else if tok.kind != StringToken || lex.name(tok).None? || !lex.Goes(tok.end) then None
    else
      var colon, name := lex.token(tok.end), lex.name(tok).value;
      if colon.kind != MemberSeparator then None
      else
        var r := ReadAt(lex, colon.end);
        if r.None? || !lex.Goes(r.value.end) then None
        else
          var comma, pair := lex.token(r.value.end), Member(name, r.value.v);
          if comma.kind == Separator then
            var rest := MembersAt(lex, comma.end, name);
            if rest.None? then None else Some(ReadMembers([pair] + rest.value.pairs, rest.value.end))
          else if comma.kind == ObjectEnd then Some(ReadMembers([pair], comma.end))
          else None
  }

  // ---------------------------------------------------------------------------
  // The document as text and as tokens, for proofs that look into them only where they mention `Open...`

  ghost predicate OpenText(doc: Text, i: nat, n: int) { true }

  ghost predicate OpenLexer(lex: Lexer, n: int) { true }

  ghost predicate Has(doc: Text, i: nat, t: Text) {
    i + |t| <= |doc| && forall n {:trigger OpenText(doc, i, n)} :: OpenText(doc, i, n) ==> Matches(doc, i, t)
  }

  ghost predicate Lexes(doc: Text, lex: Lexer) {
    lex.size == |doc| && forall n {:trigger OpenLexer(lex, n)} :: OpenLexer(lex, n) ==> lex == LexerOf(doc)
  }

  ghost predicate Reads(lex: Lexer, i: nat, v: Json, end: nat) {
    ReadAt(lex, i) == Some(Read(v, end))
  }

  ghost predicate ReadsItems(lex: Lexer, i: nat, items: seq<Json>, end: nat) {
    ItemsAt(lex, i) == Some(ReadItems(items, end))
  }

  ghost predicate ReadsMembers(lex: Lexer, i: nat, last: Text, pairs: seq<Member>, end: nat) {
    MembersAt(lex, i, last) == Some(ReadMembers(pairs, end))
  }

  // ---------------------------------------------------------------------------
  // Blanks and tokens

  lemma HasMatches(doc: Text, i: nat, t: Text)
    ensures Has(doc, i, t) <==> Matches(doc, i, t)
  {
    assert OpenText(doc, i, 0);
  }

  lemma HasSplit(doc: Text, i: nat, a: Text, b: Text)
    ensures Has(doc, i, a + b) <==> Has(doc, i, a) && Has(doc, i + |a|, b)
  {
    HasMatches(doc, i, a + b);
    HasMatches(doc, i, a);
    HasMatches(doc, i + |a|, b);
    MatchesSplit(doc, i, a, b);
  }

  lemma HasFirst(doc: Text, i: nat, t: Text)
    requires Has(doc, i, t) && t != []
    ensures i < |doc| && doc[i] == t[0]
  {
    HasMatches(doc, i, t);
    MatchesFirst(doc, i, t);
  }

  /** A character in front of other text. */
  lemma HasMark(doc: Text, i: nat, c: Byte, rest: Text)
    requires Has(doc, i, [c] + rest)
    ensures i < |doc| && doc[i] == c && Has(doc, i + 1, rest)
  {
    HasSplit(doc, i, [c], rest);
    HasFirst(doc, i, [c]);
  }

  /** Blanks in front of something else are skipped. */
  lemma {:induction false} GapSkipped(doc: Text, i: nat, g: Text)
    requires GapOk(g) && Has(doc, i, g)
    ensures SkipSpaces(doc, i) == SkipSpaces(doc, i + |g|)
    decreases |g|
  {
    if g != [] {
      assert [g[0]] + g[1..] == g;
      HasMark(doc, i, g[0], g[1..]);
      GapSkipped(doc, i + 1, g[1..]);
    }
  }

  /** What is skipped are blanks. */
  lemma {:induction false} SkippedGap(doc: Text, i: nat)
    requires i <= |doc|
    ensures GapOk(doc[i..SkipSpaces(doc, i)])
    decreases |doc| - i
  {
    if i < |doc| && IsSpace(doc[i]) {
      SkippedGap(doc, i + 1);
      var j := SkipSpaces(doc, i);
      forall k | 0 <= k < j - i ensures IsSpace(doc[i..j][k]) {
        assert k > 0 ==> doc[i..j][k] == doc[i + 1..j][k - 1];
      }
    }
  }

  /** Blanks, then a character that is none. */
  lemma TokenBehind(doc: Text, i: nat, g: Text, rest: Text)
    requires GapOk(g) && rest != [] && Has(doc, i, g + rest) && !IsSpace(rest[0])
    ensures Has(doc, i + |g|, rest) && i + |g| < |doc| && doc[i + |g|] == rest[0]
    ensures SkipSpaces(doc, i) == i + |g| && TokenFrom(doc, i) == TokenAt(doc, i + |g|)
  {
    HasSplit(doc, i, g, rest);
    HasFirst(doc, i + |g|, rest);
    GapSkipped(doc, i, g);
  }

  /** Blanks, then a bracket, a brace, a comma or a colon. */
  lemma MarkBehind(doc: Text, lex: Lexer, i: nat, g: Text, c: Byte, rest: Text)
    requires Lexes(doc, lex) && GapOk(g) && Has(doc, i, g + ([c] + rest)) && c in [0x5b, 0x5d, 0x7b, 0x7d, 0x2c, 0x3a]
    ensures Has(doc, i + |g| + 1, rest) && lex.token(i) == Token(MarkKind(c), i + |g|, i + |g| + 1) && lex.Goes(i)
    ensures lex.empty(i) == if c == 0x5d then Some(i + |g| + 1) else None
  {
    TokenBehind(doc, i, g, [c] + rest);
    HasMark(doc, i + |g|, c, rest);
    assert OpenLexer(lex, 0);
  }

  function MarkKind(c: Byte): Kind {
    if c == 0x5b then ArrayBegin else if c == 0x5d then ArrayEnd else if c == 0x7b then ObjectBegin
    else if c == 0x7d then ObjectEnd else if c == 0x2c then Separator else MemberSeparator
  }

  // ---------------------------------------------------------------------------
  // Pieces of a string are decoded

  lemma HexAgrees(c: Byte)
    ensures HexVal(c) == if IsHex(c) then Some(HexOf(c)) else None
  {
  }

  lemma FourAgrees(h: Text)
    requires |h| == 4
    ensures HexNum(h) == if IsFour(h) then Some(FourOf(h)) else None
  {
    assert h[..3][..2] == h[..2] && h[..3][..2][..1] == h[..1] && h[..1][..0] == [];
    HexAgrees(h[0]);
    HexAgrees(h[1]);
    HexAgrees(h[2]);
    HexAgrees(h[3]);
    assert HexNum(h[..1]) == if IsHex(h[0]) then Some(HexOf(h[0])) else None;
    assert HexNum(h[..2]) == if IsHex(h[0]) && IsHex(h[1]) then Some(16 * HexOf(h[0]) + HexOf(h[1])) else None;
    assert HexNum(h[..3]) == if IsHex(h[0]) && IsHex(h[1]) && IsHex(h[2])
      then Some(16 * (16 * HexOf(h[0]) + HexOf(h[1])) + HexOf(h[2])) else None;
  }

  /** One unicode escape or two. */
  lemma CodeRead(h: Text, rest: Text)
    requires IsFour(h) && !(0xd800 <= FourOf(h) <= 0xdbff)
    ensures CodePoint(h + rest) == Some((FourOf(h), 4))
  {
    FourAgrees(h);
    assert (h + rest)[..4] == h;
  }

  lemma PairRead(h: Text, l: Text, rest: Text)
    requires IsFour(h) && IsFour(l) && 0xd800 <= FourOf(h) <= 0xdbff
    ensures CodePoint(h + ([0x5c, 0x75] + l) + rest) ==
            Some((0x10000 + (FourOf(h) - 0xd800) * 0x400 + FourOf(l) % 0x400, 10))
  {
    FourAgrees(h);
    FourAgrees(l);
    var s := h + ([0x5c, 0x75] + l) + rest;
    assert s[..4] == h && s[4] == 0x5c && s[5] == 0x75 && s[6..10] == l;
    assert FourOf(h) % 0x400 == FourOf(h) - 0xd800;
  }

  /** A piece in front of other characters is decoded as what it stands for. */
  lemma PieceRead(p: Piece, rest: Text)
    requires PieceOk(p)
    ensures Unescape(PieceText(p) + rest) == Prepend(PieceBytes(p), Unescape(rest))
  {
    var s := PieceText(p) + rest;
    assert s[|PieceText(p)|..] == rest;
    match p
    case Raw(_) =>
    case Mark(_) =>
    case Code(h) =>
      assert s[2..] == h + rest;
      CodeRead(h, rest);
    case Pair(h, l) =>
      assert s[2..] == h + ([0x5c, 0x75] + l) + rest;
      PairRead(h, l, rest);
  }

  lemma {:induction false} PiecesRead(ps: seq<Piece>)
    requires PiecesOk(ps)
    ensures Unescape(PiecesText(ps)) == Some(PiecesBytes(ps))
  {
    if ps != [] {
      PieceRead(ps[0], PiecesText(ps[1..]));
      PiecesRead(ps[1..]);
    }
  }

  /**
   * Every code point above 0xffff comes back from its surrogate pair, in digits of either case: the
   * bytes are the four of UTF-8 that denote it.
   */
  lemma SurrogatesDecoded(cp: nat, h: Text, l: Text)
    requires 0x10000 <= cp <= 0x10ffff && IsFour(h) && IsFour(l)
    requires FourOf(h) == 0xd800 + (cp - 0x10000) / 0x400 && FourOf(l) == 0xdc00 + (cp - 0x10000) % 0x400
    ensures var u := Unescape([0x5c, 0x75] + h + [0x5c, 0x75] + l);
            u.Some? && |u.value| == 4 && Utf8Value(u.value) == cp
  {
    PairPoint(cp, FourOf(h), FourOf(l));
    PairDecoded(h, l);
    PairBytes(cp, h, l);
  }

  lemma PairBytes(cp: nat, h: Text, l: Text)
    requires 0x10000 <= cp <= 0x10ffff && PieceOk(Pair(h, l))
    requires 0x10000 + (FourOf(h) - 0xd800) * 0x400 + FourOf(l) % 0x400 == cp
    ensures |PieceBytes(Pair(h, l))| == 4 && Utf8Value(PieceBytes(Pair(h, l))) == cp
  {
    Utf8Denotes(cp);
  }

  lemma PairDecoded(h: Text, l: Text)
    requires PieceOk(Pair(h, l))
    ensures Unescape([0x5c, 0x75] + h + [0x5c, 0x75] + l) == Some(PieceBytes(Pair(h, l)))
  {
    var p := Pair(h, l);
    PieceRead(p, []);
    assert PieceText(p) + [] == [0x5c, 0x75] + h + [0x5c, 0x75] + l;
    assert PieceBytes(p) + [] == PieceBytes(p);
  }

  lemma PairPoint(cp: nat, high: nat, low: nat)
    requires 0x10000 <= cp <= 0x10ffff
    requires high == 0xd800 + (cp - 0x10000) / 0x400 && low == 0xdc00 + (cp - 0x10000) % 0x400
    ensures 0xd800 <= high <= 0xdbff && 0x10000 + (high - 0xd800) * 0x400 + low % 0x400 == cp
  {
  }

  /** Every other code point, but for the high surrogates, comes back from one escape. */
  lemma EscapeDecoded(cp: nat, h: Text)
    requires cp < 0x10000 && !(0xd800 <= cp <= 0xdbff) && IsFour(h) && FourOf(h) == cp
    ensures var u := Unescape([0x5c, 0x75] + h);
            u.Some? && |u.value| == (if cp < 0x80 then 1 else if cp < 0x800 then 2 else 3) && Utf8Value(u.value) == cp
  {
    PieceRead(Code(h), []);
    assert PieceText(Code(h)) + [] == [0x5c, 0x75] + h && Utf8(cp) + [] == Utf8(cp);
    Utf8Denotes(cp);
  }

  /** The escapes of two characters. */
  lemma MarksDecoded()
    ensures Unescape([0x5c, 0x22]) == Some([0x22]) && Unescape([0x5c, 0x5c]) == Some([0x5c])
    ensures Unescape([0x5c, 0x2f]) == Some([0x2f]) && Unescape([0x5c, 0x62]) == Some([0x08])
  {
    MarkDecoded(0x22);
    MarkDecoded(0x5c);
    MarkDecoded(0x2f);
    MarkDecoded(0x62);
  }

  lemma MoreMarksDecoded()
    ensures Unescape([0x5c, 0x66]) == Some([0x0c]) && Unescape([0x5c, 0x6e]) == Some([0x0a])
    ensures Unescape([0x5c, 0x72]) == Some([0x0d]) && Unescape([0x5c, 0x74]) == Some([0x09])
  {
    MarkDecoded(0x66);
    MarkDecoded(0x6e);
    MarkDecoded(0x72);
    MarkDecoded(0x74);
  }

  /** There are no others. */
  lemma NoOtherMarks(c: Byte, rest: Text)
    requires c != 0x75 && c !in [0x22, 0x5c, 0x2f, 0x62, 0x66, 0x6e, 0x72, 0x74]
    ensures Unescape([0x5c, c] + rest) == None
  {
    var s := [0x5c, c] + rest;
    assert s[0] == 0x5c && s[1] == c;
  }

  lemma MarkDecoded(c: Byte)
    requires PieceOk(Mark(c))
    ensures Unescape([0x5c, c]) == Some(PieceBytes(Mark(c)))
  {
    PieceRead(Mark(c), []);
    assert [0x5c, c] + [] == [0x5c, c] && PieceBytes(Mark(c)) + [] == PieceBytes(Mark(c));
  }

  // ---------------------------------------------------------------------------
  // The end of a string

  lemma {:induction false} HexSkipped(doc: Text, i: nat, h: Text)
    requires Has(doc, i, h) && forall k :: 0 <= k < |h| ==> IsHex(h[k])
    ensures StringEnd(doc, i) == StringEnd(doc, i + |h|)
    decreases |h|
  {
    if h != [] {
      assert [h[0]] + h[1..] == h;
      HasMark(doc, i, h[0], h[1..]);
      HexSkipped(doc, i + 1, h[1..]);
    }
  }

  lemma EscapeSkipped(doc: Text, i: nat, h: Text)
    requires IsFour(h) && Has(doc, i, [0x5c, 0x75] + h)
    ensures i + 6 <= |doc| && StringEnd(doc, i) == StringEnd(doc, i + 6)
  {
    HasSplit(doc, i, [0x5c, 0x75], h);
    HasFirst(doc, i, [0x5c, 0x75]);
    HexSkipped(doc, i + 2, h);
  }

  lemma PieceSkipped(doc: Text, i: nat, p: Piece)
    requires PieceOk(p) && Has(doc, i, PieceText(p))
    ensures StringEnd(doc, i) == StringEnd(doc, i + |PieceText(p)|)
  {
    HasFirst(doc, i, PieceText(p));
    match p
    case Raw(_) =>
    case Mark(_) =>
    case Code(h) => EscapeSkipped(doc, i, h);
    case Pair(h, l) =>
      assert PieceText(p) == ([0x5c, 0x75] + h) + ([0x5c, 0x75] + l);
      HasSplit(doc, i, [0x5c, 0x75] + h, [0x5c, 0x75] + l);
      EscapeSkipped(doc, i, h);
      EscapeSkipped(doc, i + 6, l);
  }

  /** The string goes on to the quote behind its pieces. */
  lemma {:induction false} PiecesEnd(doc: Text, i: nat, ps: seq<Piece>, q: nat)
    requires PiecesOk(ps) && Has(doc, i, PiecesText(ps)) && q == i + |PiecesText(ps)| && Char(doc, q) == 0x22
    ensures StringEnd(doc, i) == Some(q + 1)
    decreases |ps|
  {
    if ps == [] {
      ScanQuote(doc, i);
    } else {
      HasSplit(doc, i, PieceText(ps[0]), PiecesText(ps[1..]));
      PieceSkipped(doc, i, ps[0]);
      PiecesEnd(doc, i + |PieceText(ps[0])|, ps[1..], q);
    }
  }

  ghost predicate OpenPieces(ps: seq<Piece>, n: int) { true }

  /** The pieces spell the string `out` with the text `x`. */
  ghost predicate StringShape(ps: seq<Piece>, x: Text, out: Text) {
    && |x| >= 2 && x[0] == 0x22
    && forall n {:trigger OpenPieces(ps, n)} :: OpenPieces(ps, n) ==>
         PiecesOk(ps) && StringText(ps) == x && PiecesBytes(ps) == out
  }

  lemma StringSits(doc: Text, i: nat, inner: Text)
    requires Has(doc, i, [0x22] + (inner + [0x22]))
    ensures var q := i + 1 + |inner|;
            && q < |doc| && doc[i] == 0x22 && doc[q] == 0x22 && Has(doc, i + 1, inner) && doc[i + 1..q] == inner
  {
    HasMark(doc, i, 0x22, inner + [0x22]);
    HasSplit(doc, i + 1, inner, [0x22]);
    HasFirst(doc, i + 1 + |inner|, [0x22]);
    HasMatches(doc, i + 1, inner);
  }

  lemma QuoteToken(doc: Text, i: nat, e: nat)
    requires i < |doc| && doc[i] == QUOTE && StringEnd(doc, i + 1) == Some(e)
    ensures TokenAt(doc, i) == Token(StringToken, i, e)
  {
  }

  /** The token of a spelled string, and what it is decoded to. */
  lemma StringRead(doc: Text, lex: Lexer, i: nat, g: Text, ps: seq<Piece>, x: Text, out: Text, rest: Text)
    requires Lexes(doc, lex) && GapOk(g) && StringShape(ps, x, out) && Has(doc, i, g + (x + rest))
    ensures var tok := Token(StringToken, i + |g|, i + |g| + |x|);
            && Has(doc, tok.end, rest) && lex.token(i) == tok && lex.Goes(i)
            && lex.name(tok) == Some(out) && lex.scalar(tok) == Some(Str(out))
  {
    TokenBehind(doc, i, g, x + rest);
    HasSplit(doc, i + |g|, x, rest);
    StringEnds(doc, i + |g|, ps, x, out);
    LexerOpens(doc, lex, i, Token(StringToken, i + |g|, i + |g| + |x|));
  }

  lemma StringEnds(doc: Text, s: nat, ps: seq<Piece>, x: Text, out: Text)
    requires StringShape(ps, x, out) && Has(doc, s, x)
    ensures var tok := Token(StringToken, s, s + |x|);
            s < |doc| && TokenAt(doc, s) == tok && NameOf(doc, tok) == Some(out) && ScalarOf(doc, tok) == Some(Str(out))
  {
    assert OpenPieces(ps, 0);
    StringSits(doc, s, PiecesText(ps));
    StringIsToken(doc, s, ps, s + |x| - 1);
    StringValue(doc, Token(StringToken, s, s + |x|), ps);
  }

  lemma StringIsToken(doc: Text, s: nat, ps: seq<Piece>, q: nat)
    requires PiecesOk(ps) && Has(doc, s + 1, PiecesText(ps)) && q == s + 1 + |PiecesText(ps)| < |doc|
    requires doc[s] == 0x22 == doc[q]
    ensures TokenAt(doc, s) == Token(StringToken, s, q + 1)
  {
    PiecesEnd(doc, s + 1, ps, q);
    QuoteToken(doc, s, q + 1);
  }

  lemma StringValue(doc: Text, tok: Token, ps: seq<Piece>)
    requires tok.start < |doc| && tok == TokenAt(doc, tok.start) && tok.kind == StringToken
    requires PiecesOk(ps) && doc[tok.start + 1..tok.end - 1] == PiecesText(ps)
    ensures NameOf(doc, tok) == Some(PiecesBytes(ps)) && ScalarOf(doc, tok) == Some(Str(PiecesBytes(ps)))
  {
    PiecesRead(ps);
    TextValue(doc, tok, PiecesText(ps), PiecesBytes(ps));
  }

  lemma TextValue(doc: Text, tok: Token, inner: Text, out: Text)
    requires tok.start < |doc| && tok == TokenAt(doc, tok.start) && tok.kind == StringToken
    requires doc[tok.start + 1..tok.end - 1] == inner && Unescape(inner) == Some(out)
    ensures NameOf(doc, tok) == Some(out) && ScalarOf(doc, tok) == Some(Str(out))
  {
  }

  // ---------------------------------------------------------------------------
  // What is spelled is read

  ghost predicate OpenTree(t: Tree, n: int) { true }

  ghost predicate OpenElems(e: Elems, n: int) { true }

  ghost predicate OpenRows(r: Rows, n: int) { true }

  /** The tree spells the value `v` with the text `x`. */
  ghost predicate Shape(t: Tree, x: Text, v: Json) {
    forall n {:trigger OpenTree(t, n)} :: OpenTree(t, n) ==> Spelled(t) && Layout(t) == x && Meaning(t) == v
  }

  ghost predicate ElemsShape(e: Elems, x: Text, items: seq<Json>) {
    forall n {:trigger OpenElems(e, n)} :: OpenElems(e, n) ==>
      ElemsSpelled(e) && ElemsText(e) == x && ElemsMeaning(e) == items
  }

  ghost predicate RowsShape(r: Rows, last: Text, x: Text, pairs: seq<Member>) {
    forall n {:trigger OpenRows(r, n)} :: OpenRows(r, n) ==>
      RowsSpelled(r, last) && RowsText(r) == x && RowsMeaning(r, last) == pairs
  }

  /** A number is not followed by more of it. */
  ghost predicate Ends(doc: Text, t: Tree, j: nat) { t.Numeral? ==> Stops(doc, j) }

  /** The parts of an array's elements, and of an object's members. */
  lemma ElemsParts(e: Elems, x: Text, items: seq<Json>)
    returns (x1: Text, v: Json, x2: Text, rest: seq<Json>)
    requires ElemsShape(e, x, items)
    ensures Shape(e.tree, x1, v) && GapOk(e.tail) && items == [v] + rest
    ensures x == x1 + (e.tail + ([if e.LastElem? then 0x5d else 0x2c] + x2))
    ensures if e.LastElem? then x2 == [] && rest == [] else ElemsShape(e.rest, x2, rest)
  {
    assert OpenElems(e, 0);
    x1, v := Layout(e.tree), Meaning(e.tree);
    x2, rest := if e.LastElem? then [] else ElemsText(e.rest), if e.LastElem? then [] else ElemsMeaning(e.rest);
  }

  /** The parts of a member and what is behind it. */
  datatype Row = Row(quoted: Text, name: Text, text: Text, value: Json, after: Text, others: seq<Member>)

  ghost predicate RowOk(r: Rows, x: Text, pairs: seq<Member>, m: Row)
    requires !r.NoRow?
  {
    && GapOk(r.gap) && GapOk(r.colon) && GapOk(r.tail)
    && StringShape(r.name, m.quoted, m.name) && Shape(r.tree, m.text, m.value)
    && pairs == [Member(m.name, m.value)] + m.others
    && x == r.gap + (m.quoted + (r.colon + ([0x3a] + (m.text + (r.tail + ([RowMark(r)] + m.after))))))
    && if r.LastRow? then m.after == [] && m.others == [] else RowsShape(r.rest, m.name, m.after, m.others)
  }

  function RowMark(r: Rows): Byte { if r.LastRow? then 0x7d else 0x2c }

  lemma RowsParts(r: Rows, last: Text, x: Text, pairs: seq<Member>) returns (m: Row)
    requires !r.NoRow? && RowsShape(r, last, x, pairs)
    ensures RowOk(r, x, pairs, m)
  {
    assert OpenRows(r, 0);
    var name := PiecesBytes(r.name);
    m := Row(StringText(r.name), name, Layout(r.tree), Meaning(r.tree),
             if r.LastRow? then [] else RowsText(r.rest), if r.LastRow? then [] else RowsMeaning(r.rest, name));
  }

  lemma ListParts(t: Tree, x: Text, v: Json) returns (x1: Text, items: seq<Json>)
    requires t.List? && Shape(t, x, v)
    ensures GapOk(t.gap) && x == t.gap + ([0x5b] + x1) && v == Arr(items) && ElemsShape(t.elems, x1, items)
  {
    assert OpenTree(t, 0);
    x1, items := ElemsText(t.elems), ElemsMeaning(t.elems);
  }

  lemma RecordParts(t: Tree, x: Text, v: Json) returns (x1: Text, pairs: seq<Member>)
    requires t.Record? && Shape(t, x, v)
    ensures GapOk(t.gap) && x == t.gap + ([0x7b] + x1) && v == Obj(Assigned(pairs)) && RowsShape(t.rows, [], x1, pairs)
  {
    assert OpenTree(t, 0);
    x1, pairs := RowsText(t.rows), RowsMeaning(t.rows, []);
  }

  /** The first character of an element begins no blank and is no closing bracket. */
  lemma ListGoesOn(doc: Text, i: nat, t: Tree, x: Text, v: Json)
    requires Shape(t, x, v) && Has(doc, i, x)
    ensures Char(doc, SkipSpaces(doc, i)) != CLOSE_ARRAY
  {
    assert OpenTree(t, 0);
    match t
    case Word(g, w) => TokenBehind(doc, i, g, w);
    case Numeral(g, y) => TokenBehind(doc, i, g, y);
    case Quote(g, ps) => TokenBehind(doc, i, g, StringText(ps));
    case EmptyList(g, inner) => TokenBehind(doc, i, g, [0x5b] + (inner + [0x5d]));
    case List(g, e) => TokenBehind(doc, i, g, [0x5b] + ElemsText(e));
    case Record(g, r) => TokenBehind(doc, i, g, [0x7b] + RowsText(r));
  }

  lemma WordToken(doc: Text, i: nat, w: Text)
    requires w in WORDS && Has(doc, i, w)
    ensures i < |doc| && TokenAt(doc, i) ==
            Token(if w == NULL_TEXT then NullToken else if w == TRUE_TEXT then TrueToken else FalseToken, i, i + |w|)
  {
    HasMatches(doc, i, w);
    assert w == [w[0]] + w[1..];
    MatchesSplit(doc, i, [w[0]], w[1..]);
    MatchesFirst(doc, i, w);
    assert w == NULL_TEXT || w == TRUE_TEXT || w == FALSE_TEXT;
  }

  lemma NumeralToken(doc: Text, i: nat, x: Text)
    requires NumeralOk(x) && Has(doc, i, x) && Stops(doc, i + |x|)
    ensures i < |doc| && TokenAt(doc, i) == Token(NumberToken, i, i + |x|) && doc[i..i + |x|] == x
  {
    HasMatches(doc, i, x);
    MatchesFirst(doc, i, x);
    forall k | i + 1 <= k < i + |x| ensures IsNumberChar(doc[k]) {
      assert doc[i..i + |x|][k - i] == x[k - i] && InNumeral(x[k - i]);
    }
    ScanNumber(doc, i + 1, i + |x|);
  }

  lemma {:induction false} DecimalAgrees(s: Text)
    ensures IsDecimal(s) <==> AllDigits(s)
    ensures AllDigits(s) ==> Decimal(s) == DigitsVal(s)
  {
    if s != [] && AllDigits(s) { DecimalAgrees(s[..|s| - 1]); }
  }

  lemma NumeralAgrees(x: Text)
    requires NumeralOk(x)
    ensures forall i :: 0 <= i < |x| ==> IsNumberChar(x[i])
    ensures (!IsDouble(x) ==> AllDigits(Magnitude(x))) && NumberValue(x) == NumeralMeaning(x)
  {
    NumberChars(x);
    DecimalAgrees(Magnitude(x));
    if IsDouble(x) {
      var i :| 0 <= i < |x| && DoubleAt(x, i);
      assert Marked(x);
    }
    if Marked(x) {
      var i :| 0 <= i < |x|
        && (x[i] == 0x2e || x[i] == 0x65 || x[i] == 0x45 || x[i] == 0x2b || (x[i] == 0x2d && i > 0));
      assert DoubleAt(x, i);
    }
  }

  /** What the lexer says where a token is. */
  lemma LexerOpens(doc: Text, lex: Lexer, i: nat, tok: Token)
    requires Lexes(doc, lex) && i <= |doc| && TokenFrom(doc, i) == tok
    ensures lex.token(i) == tok && lex.name(tok) == NameOf(doc, tok) && lex.scalar(tok) == ScalarOf(doc, tok)
  {
    assert OpenLexer(lex, 0);
  }

  /** The next token is a value. */
  ghost predicate Scalar(lex: Lexer, i: nat, v: Json, end: nat) {
    && lex.Goes(i) && lex.token(i).kind != ObjectBegin && lex.token(i).kind != ArrayBegin
    && lex.scalar(lex.token(i)) == Some(v) && lex.token(i).end == end
  }

  lemma WordScalar(doc: Text, lex: Lexer, i: nat, g: Text, w: Text)
    requires Lexes(doc, lex) && GapOk(g) && w in WORDS && Has(doc, i, g + w)
    ensures Scalar(lex, i, Meaning(Word(g, w)), i + |g| + |w|)
  {
    TokenBehind(doc, i, g, w);
    WordToken(doc, i + |g|, w);
    LexerOpens(doc, lex, i, TokenAt(doc, i + |g|));
  }

  lemma NumeralScalar(doc: Text, lex: Lexer, i: nat, g: Text, x: Text)
    requires Lexes(doc, lex) && GapOk(g) && NumeralOk(x) && Has(doc, i, g + x) && Stops(doc, i + |g| + |x|)
    ensures Scalar(lex, i, NumeralMeaning(x), i + |g| + |x|)
  {
    TokenBehind(doc, i, g, x);
    NumeralToken(doc, i + |g|, x);
    NumeralIsScalar(doc, Token(NumberToken, i + |g|, i + |g| + |x|), x);
    LexerOpens(doc, lex, i, Token(NumberToken, i + |g|, i + |g| + |x|));
  }

  lemma NumeralIsScalar(doc: Text, tok: Token, x: Text)
    requires tok.start < |doc| && tok == TokenAt(doc, tok.start) && tok.kind == NumberToken
    requires NumeralOk(x) && doc[tok.start..tok.end] == x
    ensures ScalarOf(doc, tok) == Some(NumeralMeaning(x))
  {
    NumeralAgrees(x);
  }

  lemma QuoteScalar(doc: Text, lex: Lexer, i: nat, g: Text, ps: seq<Piece>)
    requires Lexes(doc, lex) && GapOk(g) && PiecesOk(ps) && Has(doc, i, g + StringText(ps))
    ensures Scalar(lex, i, Str(PiecesBytes(ps)), i + |g| + |StringText(ps)|)
  {
    assert StringText(ps) + [] == StringText(ps);
    StringRead(doc, lex, i, g, ps, StringText(ps), PiecesBytes(ps), []);
  }

  lemma ScalarRead(doc: Text, lex: Lexer, i: nat, t: Tree, x: Text, v: Json)
    requires t.Word? || t.Numeral? || t.Quote?
    requires Lexes(doc, lex) && Shape(t, x, v) && Has(doc, i, x) && Ends(doc, t, i + |x|)
    ensures Scalar(lex, i, v, i + |x|)
  {
    assert OpenTree(t, 0);
    match t
    case Word(g, w) => WordScalar(doc, lex, i, g, w);
    case Numeral(g, y) => NumeralScalar(doc, lex, i, g, y);
    case Quote(g, ps) => QuoteScalar(doc, lex, i, g, ps);
  }

  lemma EmptyRead(doc: Text, lex: Lexer, i: nat, t: Tree, x: Text, v: Json)
    requires t.EmptyList? && Lexes(doc, lex) && Shape(t, x, v) && Has(doc, i, x)
    ensures Reads(lex, i, v, i + |x|)
  {
    assert OpenTree(t, 0);
    MarkBehind(doc, lex, i, t.gap, 0x5b, t.inner + [0x5d]);
    assert [0x5d] + [] == [0x5d];
    MarkBehind(doc, lex, i + |t.gap| + 1, t.inner, 0x5d, []);
  }

  /** Behind a value come blanks and a mark: no number goes on, and the mark is the next token. */
  lemma TailRead(doc: Text, lex: Lexer, j: nat, tail: Text, c: Byte, rest: Text)
    requires Lexes(doc, lex) && GapOk(tail) && c in [0x5d, 0x2c, 0x7d] && Has(doc, j, tail + ([c] + rest))
    ensures Stops(doc, j) && Has(doc, j + |tail| + 1, rest)
    ensures lex.token(j) == Token(MarkKind(c), j + |tail|, j + |tail| + 1) && lex.Goes(j)
  {
    MarkBehind(doc, lex, j, tail, c, rest);
    HasFirst(doc, j, tail + ([c] + rest));
  }

  /** Where the text spells a value, that value is read. */
  lemma {:induction false} TreeRead(doc: Text, lex: Lexer, i: nat, t: Tree, x: Text, v: Json)
    requires Lexes(doc, lex) && Shape(t, x, v) && Has(doc, i, x) && Ends(doc, t, i + |x|)
    ensures Reads(lex, i, v, i + |x|)
    decreases t
  {
    match t
    case EmptyList(_, _) => EmptyRead(doc, lex, i, t, x, v);
    case List(g, e) =>
      var x1, items := ListParts(t, x, v);
      ListOpens(doc, lex, i, g, e, x1, items);
      ElemsRead(doc, lex, i + |g| + 1, e, x1, items);
    case Record(g, r) =>
      var x1, pairs := RecordParts(t, x, v);
      MarkBehind(doc, lex, i, g, 0x7b, x1);
      RowsRead(doc, lex, i + |g| + 1, r, [], x1, pairs);
    case _ => ScalarRead(doc, lex, i, t, x, v);
  }

  lemma ListOpens(doc: Text, lex: Lexer, i: nat, g: Text, e: Elems, x: Text, items: seq<Json>)
    requires Lexes(doc, lex) && GapOk(g) && ElemsShape(e, x, items) && Has(doc, i, g + ([0x5b] + x))
    ensures var j := i + |g| + 1;
            && Has(doc, j, x) && lex.token(i) == Token(ArrayBegin, j - 1, j) && lex.Goes(i) && lex.empty(j) == None
  {
    MarkBehind(doc, lex, i, g, 0x5b, x);
    var x1, v, x2, rest := ElemsParts(e, x, items);
    HasSplit(doc, i + |g| + 1, x1, e.tail + ([if e.LastElem? then 0x5d else 0x2c] + x2));
    ListGoesOn(doc, i + |g| + 1, e.tree, x1, v);
    assert OpenLexer(lex, 0);
  }

  lemma {:induction false} ElemsRead(doc: Text, lex: Lexer, i: nat, e: Elems, x: Text, items: seq<Json>)
    requires Lexes(doc, lex) && ElemsShape(e, x, items) && Has(doc, i, x)
    ensures ReadsItems(lex, i, items, i + |x|)
    decreases e
  {
    var x1, v, x2, rest := ElemsParts(e, x, items);
    var j := i + |x1|;
    HasSplit(doc, i, x1, e.tail + ([if e.LastElem? then 0x5d else 0x2c] + x2));
    TailRead(doc, lex, j, e.tail, if e.LastElem? then 0x5d else 0x2c, x2);
    TreeRead(doc, lex, i, e.tree, x1, v);
    if e.NextElem? {
      ElemsRead(doc, lex, j + |e.tail| + 1, e.rest, x2, rest);
      NextItemReads(lex, i, v, j, rest, i + |x|);
    } else {
      LastItemReads(lex, i, v, j);
    }
  }

  lemma LastItemReads(lex: Lexer, i: nat, v: Json, j: nat)
    requires Reads(lex, i, v, j) && lex.Goes(j) && lex.token(j).kind == ArrayEnd
    ensures ReadsItems(lex, i, [v], lex.token(j).end) && [v] + [] == [v]
  {
  }

  lemma NextItemReads(lex: Lexer, i: nat, v: Json, j: nat, rest: seq<Json>, end: nat)
    requires Reads(lex, i, v, j) && lex.Goes(j) && lex.token(j).kind == Separator
    requires ReadsItems(lex, lex.token(j).end, rest, end)
    ensures ReadsItems(lex, i, [v] + rest, end)
  {
  }

  lemma {:induction false} RowsRead(doc: Text, lex: Lexer, i: nat, r: Rows, last: Text, x: Text, pairs: seq<Member>)
    requires Lexes(doc, lex) && RowsShape(r, last, x, pairs) && Has(doc, i, x)
    ensures ReadsMembers(lex, i, last, pairs, i + |x|)
    decreases r
  {
    if r.NoRow? {
      CloseRead(doc, lex, i, r, last, x, pairs);
    } else {
      var m := RowsParts(r, last, x, pairs);
      var j := RowRead(doc, lex, i, r, x, pairs, m);
      TreeRead(doc, lex, j, r.tree, m.text, m.value);
      if r.NextRow? { RowsRead(doc, lex, lex.token(j + |m.text|).end, r.rest, m.name, m.after, m.others); }
      RowCloses(lex, i, r, last, x, pairs, m, j);
    }
  }

  /** The member and what is behind it are read. */
  lemma RowCloses(lex: Lexer, i: nat, r: Rows, last: Text, x: Text, pairs: seq<Member>, m: Row, j: nat)
    requires !r.NoRow? && Named(lex, i, m.name, j) && Reads(lex, j, m.value, j + |m.text|) && lex.Goes(j + |m.text|)
    requires var mark := lex.token(j + |m.text|);
             && mark.kind == MarkKind(RowMark(r)) && i + |x| == mark.end + |m.after|
             && (r.LastRow? ==> m.after == [] && m.others == [])
             && (r.NextRow? ==> ReadsMembers(lex, mark.end, m.name, m.others, mark.end + |m.after|))
    requires pairs == [Member(m.name, m.value)] + m.others
    ensures ReadsMembers(lex, i, last, pairs, i + |x|)
  {
    var k := j + |m.text|;
    if r.NextRow? {
      NextMemberReads(lex, i, last, m.name, j, m.value, k, m.others, lex.token(k).end + |m.after|);
    } else {
      LastMemberReads(lex, i, last, m.name, j, m.value, k);
    }
  }

  /** A member up to its value at `j`, and what is behind the value. */
  lemma RowRead(doc: Text, lex: Lexer, i: nat, r: Rows, x: Text, pairs: seq<Member>, m: Row) returns (j: nat)
    requires !r.NoRow? && Lexes(doc, lex) && RowOk(r, x, pairs, m) && Has(doc, i, x)
    ensures Named(lex, i, m.name, j) && Has(doc, j, m.text) && Stops(doc, j + |m.text|)
    ensures var k := j + |m.text| + |r.tail|;
            && lex.token(j + |m.text|) == Token(MarkKind(RowMark(r)), k, k + 1) && lex.Goes(j + |m.text|)
            && Has(doc, k + 1, m.after) && i + |x| == k + 1 + |m.after|
  {
    var y := r.tail + ([RowMark(r)] + m.after);
    j := NameRead(doc, lex, i, r.gap, r.name, m.quoted, m.name, r.colon, m.text + y);
    HasSplit(doc, j, m.text, y);
    TailRead(doc, lex, j + |m.text|, r.tail, RowMark(r), m.after);
  }

  lemma LastMemberReads(lex: Lexer, i: nat, last: Text, name: Text, j: nat, v: Json, k: nat)
    requires Named(lex, i, name, j) && Reads(lex, j, v, k) && lex.Goes(k) && lex.token(k).kind == ObjectEnd
    ensures ReadsMembers(lex, i, last, [Member(name, v)], lex.token(k).end)
    ensures [Member(name, v)] + [] == [Member(name, v)]
  {
  }

  lemma NextMemberReads(lex: Lexer, i: nat, last: Text, name: Text, j: nat, v: Json, k: nat, rest: seq<Member>,
                        end: nat)
    requires Named(lex, i, name, j) && Reads(lex, j, v, k) && lex.Goes(k) && lex.token(k).kind == Separator
    requires ReadsMembers(lex, lex.token(k).end, name, rest, end)
    ensures ReadsMembers(lex, i, last, [Member(name, v)] + rest, end)
  {
  }

  lemma CloseRead(doc: Text, lex: Lexer, i: nat, r: Rows, last: Text, x: Text, pairs: seq<Member>)
    requires r.NoRow? && Lexes(doc, lex) && RowsShape(r, last, x, pairs) && Has(doc, i, x)
    ensures ReadsMembers(lex, i, last, pairs, i + |x|)
  {
    assert OpenRows(r, 0);
    assert [0x7d] + [] == [0x7d];
    MarkBehind(doc, lex, i, r.gap, 0x7d, []);
  }

  /** A member's name and colon; its value begins at `j`. */
  ghost predicate Named(lex: Lexer, i: nat, name: Text, j: nat) {
    var tok := lex.token(i);
    && lex.Goes(i) && tok.kind == StringToken && lex.name(tok) == Some(name)
    && lex.Goes(tok.end) && lex.token(tok.end).kind == MemberSeparator && lex.token(tok.end).end == j
  }

  lemma NameRead(doc: Text, lex: Lexer, i: nat, g: Text, ps: seq<Piece>, x: Text, name: Text, colon: Text, value: Text)
    returns (j: nat)
    requires Lexes(doc, lex) && GapOk(g) && StringShape(ps, x, name) && GapOk(colon)
    requires Has(doc, i, g + (x + (colon + ([0x3a] + value))))
    ensures Named(lex, i, name, j) && Has(doc, j, value) && j == i + |g| + |x| + |colon| + 1
  {
    StringRead(doc, lex, i, g, ps, x, name, colon + ([0x3a] + value));
    MarkBehind(doc, lex, i + |g| + |x|, colon, 0x3a, value);
    j := i + |g| + |x| + |colon| + 1;
  }
}
