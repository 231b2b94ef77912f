/**
 * The other direction: whatever Reader (src/third_part/json/jsoncpp.cpp) accepts is text that spells
 * the value it yields.
 */
module JsonSound {
  import opened Bytes
  import opened JsonText
  import opened JsonScan
  import opened JsonTree
  import opened JsonGrammar
  import opened Wrappers

  // ---------------------------------------------------------------------------
  // Strings

  lemma FourFound(h: Text)
    requires |h| == 4 && HexNum(h).Some?
    ensures IsFour(h) && HexNum(h) == Some(FourOf(h))
  {
    FourAgrees(h);
  }

  /** The first piece of what can be decoded. */
  lemma FirstPiece(s: Text) returns (p: Piece)
    requires s != [] && s[0] != QUOTE && Unescape(s).Some?
    ensures PieceOk(p) && 0 < |PieceText(p)| <= |s| && s[..|PieceText(p)|] == PieceText(p)
  {
    if s[0] != BACKSLASH {
      p := Raw(s[0]);
    } else if s[1] == 0x75 {
      p := CodeFound(s);
    } else {
      p := Mark(s[1]);
      assert s[..2] == [0x5c, s[1]];
    }
  }

  lemma CodeFound(s: Text) returns (p: Piece)
    requires |s| >= 2 && s[0] == BACKSLASH && s[1] == 0x75 && CodePoint(s[2..]).Some?
    ensures PieceOk(p) && 0 < |PieceText(p)| <= |s| && s[..|PieceText(p)|] == PieceText(p)
  {
    var h := s[2..6];
    assert s[2..][..4] == h;
    FourFound(h);
    if 0xd800 <= FourOf(h) <= 0xdbff {
      var l := s[8..12];
      assert s[2..][6..10] == l && s[2..][4] == s[6] && s[2..][5] == s[7];
      FourFound(l);
      p := Pair(h, l);
      assert s[..12] == [s[0], s[1]] + (h + ([s[6], s[7]] + l));
    } else {
      p := Code(h);
      assert s[..6] == [s[0], s[1]] + h;
    }
  }

  /** The characters up to the closing quote are pieces. */
  lemma {:induction false} PiecesFound(doc: Text, i: nat, q: nat) returns (ps: seq<Piece>)
    requires i <= |doc| && StringEnd(doc, i) == Some(q + 1)
    requires i <= q ==> Unescape(doc[i..q]).Some?
    ensures i <= q < |doc| && doc[q] == 0x22 && PiecesOk(ps) && PiecesText(ps) == doc[i..q]
    decreases |doc| - i
  {
    if doc[i] == QUOTE {
      ps := [];
    } else {
      BehindFirst(doc, i, q);
      var p := FirstPiece(doc[i..q]);
      var j := i + |PieceText(p)|;
      PieceStep(doc, i, q, p);
      var rest := PiecesFound(doc, j, q);
      ps := [p] + rest;
      PiecesJoin(doc, i, j, q, p, rest);
    }
  }

  lemma PiecesJoin(doc: Text, i: nat, j: nat, q: nat, p: Piece, rest: seq<Piece>)
    requires i <= j <= q <= |doc| && doc[i..j] == PieceText(p) && PiecesText(rest) == doc[j..q]
    requires PieceOk(p) && PiecesOk(rest)
    ensures PiecesOk([p] + rest) && PiecesText([p] + rest) == doc[i..q]
  {
    assert ([p] + rest)[1..] == rest && doc[i..q] == doc[i..j] + doc[j..q];
  }

  lemma BehindFirst(doc: Text, i: nat, q: nat)
    requires i < |doc| && doc[i] != QUOTE && StringEnd(doc, i) == Some(q + 1)
    ensures i < q
  {
  }

  lemma PieceStep(doc: Text, i: nat, q: nat, p: Piece)
    requires i < q <= |doc| && PieceOk(p) && |PieceText(p)| <= q - i && doc[i..q][..|PieceText(p)|] == PieceText(p)
    requires Unescape(doc[i..q]).Some?
    ensures var j := i + |PieceText(p)|;
            StringEnd(doc, j) == StringEnd(doc, i) && Unescape(doc[j..q]).Some? && doc[i..j] == PieceText(p)
  {
    var j := i + |PieceText(p)|;
    assert doc[i..j] == doc[i..q][..|PieceText(p)|];
    HasMatches(doc, i, PieceText(p));
    PieceSkipped(doc, i, p);
    assert doc[i..q] == PieceText(p) + doc[j..q];
    PieceRead(p, doc[j..q]);
  }

  // ---------------------------------------------------------------------------
  // Tokens

  /** The blanks in front of a token. */
  lemma GapFound(doc: Text, lex: Lexer, i: nat) returns (g: Text)
    requires Lexes(doc, lex) && i <= |doc|
    ensures var tok := lex.token(i);
            tok == TokenFrom(doc, i) && GapOk(g) && Has(doc, i, g) && tok.start == i + |g|
  {
    g := doc[i..SkipSpaces(doc, i)];
    SkippedGap(doc, i);
    HasMatches(doc, i, g);
    LexerOpens(doc, lex, i, TokenFrom(doc, i));
  }

  predicate IsMark(k: Kind) {
    k == ArrayBegin || k == ArrayEnd || k == ObjectBegin || k == ObjectEnd || k == Separator || k == MemberSeparator
  }

  function MarkOf(k: Kind): Byte
    requires IsMark(k)
  {
    match k
    case ArrayBegin => 0x5b
    case ArrayEnd => 0x5d
    case ObjectBegin => 0x7b
    case ObjectEnd => 0x7d
    case Separator => 0x2c
    case MemberSeparator => 0x3a
  }

  lemma MarkToken(doc: Text, i: nat)
    requires i <= |doc| && IsMark(TokenAt(doc, i).kind)
    ensures TokenAt(doc, i).end == i + 1 && i < |doc| && doc[i] == MarkOf(TokenAt(doc, i).kind)
  {
  }

  /** A bracket, a brace, a comma or a colon, with the blanks before it. */
  lemma MarkFound(doc: Text, lex: Lexer, i: nat) returns (g: Text)
    requires Lexes(doc, lex) && i <= |doc| && IsMark(lex.token(i).kind)
    ensures GapOk(g) && Has(doc, i, g + [MarkOf(lex.token(i).kind)]) && lex.token(i).end == i + |g| + 1
  {
    g := GapFound(doc, lex, i);
    var s := i + |g|;
    MarkToken(doc, s);
    HasMatches(doc, s, [doc[s]]);
    HasSplit(doc, i, g, [doc[s]]);
  }

  /** A string, with the blanks before it. */
  lemma StringFound(doc: Text, lex: Lexer, i: nat) returns (g: Text, ps: seq<Piece>, x: Text)
    requires Lexes(doc, lex) && i <= |doc| && lex.token(i).kind == StringToken && lex.name(lex.token(i)).Some?
    ensures GapOk(g) && StringShape(ps, x, lex.name(lex.token(i)).value)
    ensures Has(doc, i, g + x) && lex.token(i).end == i + |g| + |x|
  {
    g := GapFound(doc, lex, i);
    LexerOpens(doc, lex, i, TokenFrom(doc, i));
    ps, x := QuotedFound(doc, i + |g|);
    HasSplit(doc, i, g, x);
  }

  lemma QuotedFound(doc: Text, s: nat) returns (ps: seq<Piece>, x: Text)
    requires s <= |doc| && TokenAt(doc, s).kind == StringToken && NameOf(doc, TokenAt(doc, s)).Some?
    ensures StringShape(ps, x, NameOf(doc, TokenAt(doc, s)).value)
    ensures Has(doc, s, x) && TokenAt(doc, s).end == s + |x|
  {
    QuoteBegins(doc, s);
    var q := TokenAt(doc, s).end - 1;
    ps := PiecesFound(doc, s + 1, q);
    x := StringText(ps);
    QuotedText(doc, s, q, PiecesText(ps));
    HasMatches(doc, s, x);
    PiecesRead(ps);
    PiecesShape(ps);
  }

  lemma QuotedText(doc: Text, s: nat, q: nat, inner: Text)
    requires s + 1 <= q < |doc| && doc[s] == 0x22 == doc[q] && inner == doc[s + 1..q]
    ensures doc[s..q + 1] == [0x22] + (inner + [0x22])
  {
  }

  lemma PiecesShape(ps: seq<Piece>)
    requires PiecesOk(ps)
    ensures StringShape(ps, StringText(ps), PiecesBytes(ps))
  {
  }

  lemma QuoteBegins(doc: Text, s: nat)
    requires s <= |doc| && TokenAt(doc, s).kind == StringToken
    ensures s < |doc| && doc[s] == 0x22 && StringEnd(doc, s + 1) == Some(TokenAt(doc, s).end)
  {
  }

  // ---------------------------------------------------------------------------
  // Values

  lemma {:induction false} NumberStops(doc: Text, i: nat)
    requires i <= |doc|
    ensures Stops(doc, NumberEnd(doc, i))
    decreases |doc| - i
  {
    if i < |doc| && IsNumberChar(doc[i]) { NumberStops(doc, i + 1); }
  }

  lemma NumeralFound(doc: Text, s: nat) returns (x: Text)
    requires s <= |doc| && TokenAt(doc, s).kind == NumberToken
    ensures NumeralOk(x) && Has(doc, s, x) && TokenAt(doc, s).end == s + |x| && Stops(doc, s + |x|)
  {
    var tok := TokenAt(doc, s);
    x := doc[s..tok.end];
    HasMatches(doc, s, x);
    NumberStops(doc, s + 1);
    forall k | 0 <= k < |x| ensures InNumeral(x[k]) { assert IsNumberChar(doc[s + k]); }
  }

  lemma WordFound(doc: Text, s: nat) returns (w: Text)
    requires s <= |doc| && TokenAt(doc, s).kind in [TrueToken, FalseToken, NullToken]
    ensures w in WORDS && Has(doc, s, w) && TokenAt(doc, s).end == s + |w|
  {
    var k := TokenAt(doc, s).kind;
    w := if k == TrueToken then TRUE_TEXT else if k == FalseToken then FALSE_TEXT else NULL_TEXT;
    assert w == WORDS[0] || w == WORDS[1] || w == WORDS[2];
    assert w == [w[0]] + w[1..] && doc[s..s + 1] == [w[0]];
    MatchesSplit(doc, s, [w[0]], w[1..]);
    HasMatches(doc, s, w);
  }

  /** A value that is a single token. */
  lemma ScalarFound(doc: Text, lex: Lexer, i: nat, v: Json) returns (t: Tree, x: Text)
    requires Lexes(doc, lex) && i <= |doc| && lex.scalar(lex.token(i)) == Some(v)
    ensures Shape(t, x, v) && Has(doc, i, x) && lex.token(i).end == i + |x| && Ends(doc, t, i + |x|)
  {
    if lex.token(i).kind == StringToken {
      t, x := QuoteFound(doc, lex, i, v);
    } else {
      t, x := PlainFound(doc, lex, i, v);
    }
  }

  lemma PlainFound(doc: Text, lex: Lexer, i: nat, v: Json) returns (t: Tree, x: Text)
    requires Lexes(doc, lex) && i <= |doc| && lex.scalar(lex.token(i)) == Some(v) && lex.token(i).kind != StringToken
    ensures Shape(t, x, v) && Has(doc, i, x) && lex.token(i).end == i + |x| && Ends(doc, t, i + |x|)
  {
    if lex.token(i).kind == NumberToken {
      var g, y := NumberFound(doc, lex, i);
      t, x := Numeral(g, y), g + y;
      NumeralShape(g, y);
    } else {
      var g, w := WordTokenFound(doc, lex, i);
      t, x := Word(g, w), g + w;
      WordShape(g, w);
    }
  }

  lemma NumberFound(doc: Text, lex: Lexer, i: nat) returns (g: Text, x: Text)
    requires Lexes(doc, lex) && i <= |doc| && lex.token(i).kind == NumberToken
    ensures GapOk(g) && NumeralOk(x) && Has(doc, i, g + x) && lex.token(i).end == i + |g + x|
    ensures Stops(doc, i + |g + x|) && lex.scalar(lex.token(i)) == Some(NumeralMeaning(x))
  {
    g := GapFound(doc, lex, i);
    x := NumeralFound(doc, i + |g|);
    HasSplit(doc, i, g, x);
    NumeralScalar(doc, lex, i, g, x);
  }

  lemma WordTokenFound(doc: Text, lex: Lexer, i: nat) returns (g: Text, w: Text)
    requires Lexes(doc, lex) && i <= |doc| && lex.scalar(lex.token(i)).Some?
    requires lex.token(i).kind != NumberToken && lex.token(i).kind != StringToken
    ensures GapOk(g) && w in WORDS && Has(doc, i, g + w) && lex.token(i).end == i + |g + w|
    ensures lex.scalar(lex.token(i)) == Some(Meaning(Word(g, w)))
  {
    g := GapFound(doc, lex, i);
    PlainKind(doc, lex, i);
    w := WordFound(doc, i + |g|);
    HasSplit(doc, i, g, w);
    WordScalar(doc, lex, i, g, w);
  }

  lemma PlainKind(doc: Text, lex: Lexer, i: nat)
    requires Lexes(doc, lex) && i <= |doc| && lex.scalar(lex.token(i)).Some?
    ensures lex.token(i).kind in [NumberToken, StringToken, TrueToken, FalseToken, NullToken]
  {
    LexerOpens(doc, lex, i, TokenFrom(doc, i));
  }

  lemma NumeralShape(g: Text, x: Text)
    requires GapOk(g) && NumeralOk(x)
    ensures Shape(Numeral(g, x), g + x, NumeralMeaning(x))
  {
  }

  lemma WordShape(g: Text, w: Text)
    requires GapOk(g) && w in WORDS
    ensures Shape(Word(g, w), g + w, Meaning(Word(g, w)))
  {
  }

  lemma QuoteFound(doc: Text, lex: Lexer, i: nat, v: Json) returns (t: Tree, x: Text)
    requires Lexes(doc, lex) && i <= |doc| && lex.scalar(lex.token(i)) == Some(v) && lex.token(i).kind == StringToken
    ensures t.Quote? && Shape(t, x, v) && Has(doc, i, x) && lex.token(i).end == i + |x|
  {
    QuoteScalarName(doc, lex, i, v);
    var g, ps, y := StringFound(doc, lex, i);
    t, x := Quote(g, ps), g + y;
    QuoteShape(g, ps, y, lex.name(lex.token(i)).value);
  }

  lemma QuoteScalarName(doc: Text, lex: Lexer, i: nat, v: Json)
    requires Lexes(doc, lex) && i <= |doc| && lex.scalar(lex.token(i)) == Some(v) && lex.token(i).kind == StringToken
    ensures lex.name(lex.token(i)).Some? && v == Str(lex.name(lex.token(i)).value)
  {
    LexerOpens(doc, lex, i, TokenFrom(doc, i));
  }

  lemma QuoteShape(g: Text, ps: seq<Piece>, y: Text, out: Text)
    requires GapOk(g) && StringShape(ps, y, out)
    ensures Shape(Quote(g, ps), g + y, Str(out))
  {
    assert OpenPieces(ps, 0);
  }

  lemma EmptyFound(doc: Text, lex: Lexer, j: nat, end: nat) returns (inner: Text)
    requires Lexes(doc, lex) && j <= |doc| && lex.empty(j) == Some(end)
    ensures GapOk(inner) && Has(doc, j, inner + [0x5d]) && end == j + |inner| + 1
  {
    assert OpenLexer(lex, 0);
    var k := SkipSpaces(doc, j);
    inner := doc[j..k];
    SkippedGap(doc, j);
    HasMatches(doc, j, inner);
    HasMatches(doc, k, [0x5d]);
    HasSplit(doc, j, inner, [0x5d]);
  }

  /** What is read is spelled. */
  lemma {:induction false} TreeFound(doc: Text, lex: Lexer, i: nat, v: Json, end: nat) returns (t: Tree, x: Text)
    requires Lexes(doc, lex) && i <= |doc| && Reads(lex, i, v, end)
    ensures Shape(t, x, v) && Has(doc, i, x) && end == i + |x| && Ends(doc, t, end)
    decreases lex.size - i, 1
  {
    var tok := lex.token(i);
    if tok.kind == ObjectBegin {
      var g := MarkFound(doc, lex, i);
      var pairs := RecordRead(lex, i, v, end);
      var r, y := RowsFound(doc, lex, tok.end, [], pairs, end);
      t, x := Record(g, r), g + ([0x7b] + y);
      RecordShape(g, r, y, pairs);
      HasBehind(doc, i, g, 0x7b, y);
    } else if tok.kind == ArrayBegin {
      var g := MarkFound(doc, lex, i);
      if lex.empty(tok.end).Some? {
        var inner := EmptyFound(doc, lex, tok.end, end);
        t, x := EmptyList(g, inner), g + ([0x5b] + (inner + [0x5d]));
        EmptyShape(g, inner);
        HasBehind(doc, i, g, 0x5b, inner + [0x5d]);
      } else {
        var items := ListRead(lex, i, v, end);
        var e, y := ElemsFound(doc, lex, tok.end, items, end);
        t, x := List(g, e), g + ([0x5b] + y);
        ListShape(g, e, y, items);
        HasBehind(doc, i, g, 0x5b, y);
      }
    } else {
      t, x := ScalarFound(doc, lex, i, v);
    }
  }

  lemma HasBehind(doc: Text, i: nat, g: Text, c: Byte, y: Text)
    requires Has(doc, i, g + [c]) && Has(doc, i + |g| + 1, y)
    ensures Has(doc, i, g + ([c] + y))
  {
    HasSplit(doc, i, g, [c]);
    HasSplit(doc, i + |g|, [c], y);
    HasSplit(doc, i, g, [c] + y);
  }

  lemma RecordRead(lex: Lexer, i: nat, v: Json, end: nat) returns (pairs: seq<Member>)
    requires Reads(lex, i, v, end) && lex.token(i).kind == ObjectBegin
    ensures lex.Goes(i) && ReadsMembers(lex, lex.token(i).end, [], pairs, end) && v == Obj(Assigned(pairs))
  {
    pairs := MembersAt(lex, lex.token(i).end, []).value.pairs;
  }

  lemma ListRead(lex: Lexer, i: nat, v: Json, end: nat) returns (items: seq<Json>)
    requires Reads(lex, i, v, end) && lex.token(i).kind == ArrayBegin && lex.empty(lex.token(i).end).None?
    ensures lex.Goes(i) && ReadsItems(lex, lex.token(i).end, items, end) && v == Arr(items)
  {
    items := ItemsAt(lex, lex.token(i).end).value.items;
  }

  lemma RecordShape(g: Text, r: Rows, y: Text, pairs: seq<Member>)
    requires GapOk(g) && RowsShape(r, [], y, pairs)
    ensures Shape(Record(g, r), g + ([0x7b] + y), Obj(Assigned(pairs)))
  {
    assert OpenRows(r, 0);
  }

  lemma EmptyShape(g: Text, inner: Text)
    requires GapOk(g) && GapOk(inner)
    ensures Shape(EmptyList(g, inner), g + ([0x5b] + (inner + [0x5d])), Arr([]))
  {
  }

  lemma ListShape(g: Text, e: Elems, y: Text, items: seq<Json>)
    requires GapOk(g) && ElemsShape(e, y, items)
    ensures Shape(List(g, e), g + ([0x5b] + y), Arr(items))
  {
    assert OpenElems(e, 0);
  }

  /** The first element, and what is behind it. */
  lemma ItemRead(lex: Lexer, i: nat, items: seq<Json>, end: nat) returns (v: Json, j: nat, rest: seq<Json>)
    requires ReadsItems(lex, i, items, end)
    ensures Reads(lex, i, v, j) && lex.Goes(j) && items == [v] + rest
    ensures lex.token(j).kind == ArrayEnd || lex.token(j).kind == Separator
    ensures lex.token(j).kind == ArrayEnd ==> rest == [] && end == lex.token(j).end
    ensures lex.token(j).kind == Separator ==> ReadsItems(lex, lex.token(j).end, rest, end)
  {
    var first := ReadAt(lex, i).value;
    v, j := first.v, first.end;
    rest := if lex.token(j).kind == Separator then ItemsAt(lex, lex.token(j).end).value.items else [];
  }

  lemma {:induction false} ElemsFound(doc: Text, lex: Lexer, i: nat, items: seq<Json>, end: nat)
    returns (e: Elems, x: Text)
    requires Lexes(doc, lex) && i <= |doc| && ReadsItems(lex, i, items, end)
    ensures ElemsShape(e, x, items) && Has(doc, i, x) && end == i + |x|
    decreases lex.size - i, 2
  {
    var v, j, rest := ItemRead(lex, i, items, end);
    var t, x1 := TreeFound(doc, lex, i, v, j);
    var tail := MarkFound(doc, lex, j);
    if lex.token(j).kind == ArrayEnd {
      e, x := LastElem(t, tail), x1 + (tail + ([0x5d] + []));
      LastElemShape(t, x1, v, tail);
      HasAfter(doc, i, x1, tail, 0x5d, []);
    } else {
      var others, x2 := ElemsFound(doc, lex, lex.token(j).end, rest, end);
      e, x := NextElem(t, tail, others), x1 + (tail + ([0x2c] + x2));
      NextElemShape(t, x1, v, tail, others, x2, rest);
      HasAfter(doc, i, x1, tail, 0x2c, x2);
    }
  }

  lemma HasAfter(doc: Text, i: nat, x1: Text, tail: Text, c: Byte, x2: Text)
    requires Has(doc, i, x1) && Has(doc, i + |x1|, tail + [c]) && (x2 != [] ==> Has(doc, i + |x1| + |tail| + 1, x2))
    ensures Has(doc, i, x1 + (tail + ([c] + x2)))
  {
    var j := i + |x1|;
    HasSplit(doc, j, tail, [c]);
    if x2 == [] { HasMatches(doc, j + |tail| + 1, []); }
    HasSplit(doc, j + |tail|, [c], x2);
    HasSplit(doc, j, tail, [c] + x2);
    HasSplit(doc, i, x1, tail + ([c] + x2));
  }

  lemma LastElemShape(t: Tree, x1: Text, v: Json, tail: Text)
    requires Shape(t, x1, v) && GapOk(tail)
    ensures ElemsShape(LastElem(t, tail), x1 + (tail + ([0x5d] + [])), [v] + [])
  {
    assert OpenTree(t, 0);
    assert [0x5d] + [] == [0x5d];
  }

  lemma NextElemShape(t: Tree, x1: Text, v: Json, tail: Text, e: Elems, x2: Text, rest: seq<Json>)
    requires Shape(t, x1, v) && GapOk(tail) && ElemsShape(e, x2, rest)
    ensures ElemsShape(NextElem(t, tail, e), x1 + (tail + ([0x2c] + x2)), [v] + rest)
  {
    assert OpenTree(t, 0) && OpenElems(e, 0);
  }

  /** The first member, and what is behind it. */
  lemma MemberRead(lex: Lexer, i: nat, last: Text, pairs: seq<Member>, end: nat)
    returns (name: Text, j: nat, v: Json, k: nat, rest: seq<Member>)
    requires ReadsMembers(lex, i, last, pairs, end) && !(lex.token(i).kind == ObjectEnd && last == [])
    ensures Named(lex, i, name, j) && Reads(lex, j, v, k) && lex.Goes(k) && pairs == [Member(name, v)] + rest
    ensures lex.token(k).kind == ObjectEnd || lex.token(k).kind == Separator
    ensures lex.token(k).kind == ObjectEnd ==> rest == [] && end == lex.token(k).end
    ensures lex.token(k).kind == Separator ==> ReadsMembers(lex, lex.token(k).end, name, rest, end)
  {
    var tok := lex.token(i);
    name, j := lex.name(tok).value, lex.token(tok.end).end;
    v, k := ReadAt(lex, j).value.v, ReadAt(lex, j).value.end;
    rest := if lex.token(k).kind == Separator then MembersAt(lex, lex.token(k).end, name).value.pairs else [];
  }

  lemma {:induction false} RowsFound(doc: Text, lex: Lexer, i: nat, last: Text, pairs: seq<Member>, end: nat)
    returns (r: Rows, x: Text)
    requires Lexes(doc, lex) && i <= |doc| && ReadsMembers(lex, i, last, pairs, end)
    ensures RowsShape(r, last, x, pairs) && Has(doc, i, x) && end == i + |x|
    decreases lex.size - i, 2
  {
    if lex.token(i).kind == ObjectEnd && last == [] {
      r, x := NoRowFound(doc, lex, i, pairs, end);
    } else {
      var name, j, v, k, rest := MemberRead(lex, i, last, pairs, end);
      var g, ps, q, colon := NameFound(doc, lex, i, name, j);
      var t, x1 := TreeFound(doc, lex, j, v, k);
      var tail := MarkFound(doc, lex, k);
      var y;
      if lex.token(k).kind == ObjectEnd {
        r, y := LastRow(g, ps, colon, t, tail), x1 + (tail + ([0x7d] + []));
        LastRowShape(g, ps, q, name, colon, t, x1, v, tail, last);
        HasAfter(doc, j, x1, tail, 0x7d, []);
      } else {
        var others, x2 := RowsFound(doc, lex, lex.token(k).end, name, rest, end);
        r, y := NextRow(g, ps, colon, t, tail, others), x1 + (tail + ([0x2c] + x2));
        NextRowShape(g, ps, q, name, colon, t, x1, v, tail, last, others, x2, rest);
        HasAfter(doc, j, x1, tail, 0x2c, x2);
      }
      x := g + (q + (colon + ([0x3a] + y)));
      HasRow(doc, i, g, q, colon, y);
    }
  }

  lemma NoRowFound(doc: Text, lex: Lexer, i: nat, pairs: seq<Member>, end: nat) returns (r: Rows, x: Text)
    requires Lexes(doc, lex) && i <= |doc| && ReadsMembers(lex, i, [], pairs, end) && lex.token(i).kind == ObjectEnd
    ensures RowsShape(r, [], x, pairs) && Has(doc, i, x) && end == i + |x|
  {
    var g := MarkFound(doc, lex, i);
    r, x := NoRow(g), g + [0x7d];
  }

  /** The name of a member and the colon behind it. */
  lemma NameFound(doc: Text, lex: Lexer, i: nat, name: Text, j: nat)
    returns (g: Text, ps: seq<Piece>, q: Text, colon: Text)
    requires Lexes(doc, lex) && i <= |doc| && Named(lex, i, name, j)
    ensures GapOk(g) && StringShape(ps, q, name) && GapOk(colon) && Has(doc, i, g + q)
    ensures Has(doc, i + |g| + |q|, colon + [0x3a]) && j == i + |g| + |q| + |colon| + 1
  {
    g, ps, q := StringFound(doc, lex, i);
    colon := MarkFound(doc, lex, lex.token(i).end);
  }

  lemma HasRow(doc: Text, i: nat, g: Text, q: Text, colon: Text, y: Text)
    requires Has(doc, i, g + q) && Has(doc, i + |g| + |q|, colon + [0x3a]) && Has(doc, i + |g| + |q| + |colon| + 1, y)
    ensures Has(doc, i, g + (q + (colon + ([0x3a] + y))))
  {
    HasSplit(doc, i, g, q);
    HasBehind(doc, i + |g| + |q|, colon, 0x3a, y);
    HasSplit(doc, i + |g|, q, colon + ([0x3a] + y));
    HasSplit(doc, i, g, q + (colon + ([0x3a] + y)));
  }

  lemma LastRowShape(g: Text, ps: seq<Piece>, q: Text, name: Text, colon: Text, t: Tree, x1: Text, v: Json, tail: Text,
                     last: Text)
    requires GapOk(g) && StringShape(ps, q, name) && GapOk(colon) && Shape(t, x1, v) && GapOk(tail)
    ensures RowsShape(LastRow(g, ps, colon, t, tail), last,
                      g + (q + (colon + ([0x3a] + (x1 + (tail + ([0x7d] + [])))))), [Member(name, v)] + [])
  {
    assert OpenPieces(ps, 0) && OpenTree(t, 0);
    assert [0x7d] + [] == [0x7d];
  }

  lemma NextRowShape(g: Text, ps: seq<Piece>, q: Text, name: Text, colon: Text, t: Tree, x1: Text, v: Json, tail: Text,
                     last: Text, r: Rows, x2: Text, rest: seq<Member>)
    requires GapOk(g) && StringShape(ps, q, name) && GapOk(colon) && Shape(t, x1, v) && GapOk(tail)
    requires RowsShape(r, name, x2, rest)
    ensures RowsShape(NextRow(g, ps, colon, t, tail, r), last,
                      g + (q + (colon + ([0x3a] + (x1 + (tail + ([0x2c] + x2)))))), [Member(name, v)] + rest)
  {
    assert OpenPieces(ps, 0) && OpenTree(t, 0) && OpenRows(r, 0);
  }

  // ---------------------------------------------------------------------------
  // Both directions

  /** A value is read at a place exactly if the text there spells one, and it is the value that is spelled. */
  lemma ReadExactly(doc: Text, lex: Lexer, i: nat)
    requires Lexes(doc, lex) && i <= |doc|
    ensures ReadAt(lex, i).Some? <==> exists t :: Spells(doc, i, t)
    ensures forall t :: Spells(doc, i, t) ==> ReadAt(lex, i).Some? && ReadAt(lex, i).value.v == Meaning(t)
  {
    forall t | Spells(doc, i, t) ensures ReadAt(lex, i).Some? && ReadAt(lex, i).value.v == Meaning(t) {
      SpelledIsRead(doc, lex, i, t);
    }
    if ReadAt(lex, i).Some? {
      var t := ReadIsSpelled(doc, lex, i);
    }
  }

  lemma SpelledIsRead(doc: Text, lex: Lexer, i: nat, t: Tree)
    requires Lexes(doc, lex) && Spells(doc, i, t)
    ensures Reads(lex, i, Meaning(t), i + |Layout(t)|)
  {
    var x, v := Layout(t), Meaning(t);
    HasMatches(doc, i, x);
    SpellsShape(t, x, v);
    TreeRead(doc, lex, i, t, x, v);
  }

  lemma SpellsShape(t: Tree, x: Text, v: Json)
    requires Spelled(t) && Layout(t) == x && Meaning(t) == v
    ensures Shape(t, x, v)
  {
  }

  lemma LexesItself(doc: Text)
    ensures Lexes(doc, LexerOf(doc))
  {
  }

  lemma ReadIsSpelled(doc: Text, lex: Lexer, i: nat) returns (t: Tree)
    requires Lexes(doc, lex) && i <= |doc| && ReadAt(lex, i).Some?
    ensures Spells(doc, i, t)
  {
    var r := ReadAt(lex, i).value;
    var x;
    t, x := TreeFound(doc, lex, i, r.v, r.end);
    ShapeSpells(doc, i, t, x, r.v);
  }

  lemma ShapeSpells(doc: Text, i: nat, t: Tree, x: Text, v: Json)
    requires Shape(t, x, v) && Has(doc, i, x) && Ends(doc, t, i + |x|)
    ensures Spells(doc, i, t)
  {
    assert OpenTree(t, 0);
    HasMatches(doc, i, x);
  }
}
