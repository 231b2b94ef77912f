/**
 * The text that FastWriter writes for a value (src/third_part/json/jsoncpp.cpp) spells that value,
 * but for NULs in its strings.
 */
module JsonRound {
  import opened Bytes
  import opened JsonText
  import opened JsonScan
  import opened JsonTree
  import opened JsonGrammar
  import opened JsonSound
  import opened Wrappers

  /** How a character is written. */
  lemma EscapePiece(c: Byte) returns (p: Piece)
    requires c != 0
    ensures PieceOk(p) && PieceText(p) == Escape(c) && PieceBytes(p) == [c]
  {
    if c == 0x22 || c == 0x5c {
      p := Mark(c);
    } else if c == 0x08 {
      p := Mark(0x62);
    } else if c == 0x0c {
      p := Mark(0x66);
    } else if c == 0x0a {
      p := Mark(0x6e);
    } else if c == 0x0d {
      p := Mark(0x72);
    } else if c == 0x09 {
      p := Mark(0x74);
    } else if c <= 0x1f {
      p := Code([0x30, 0x30, Hex(c / 16), Hex(c % 16)]);
      assert HexOf(Hex(c / 16)) == c / 16 && HexOf(Hex(c % 16)) == c % 16;
    } else {
      p := Raw(c);
    }
  }

  lemma {:induction false} EscapedPieces(s: Text) returns (ps: seq<Piece>)
    requires NoNul(s)
    ensures PiecesOk(ps) && PiecesText(ps) == Escaped(s) && PiecesBytes(ps) == s
  {
    if s == [] {
      ps := [];
    } else {
      var p := EscapePiece(s[0]);
      var rest := EscapedPieces(s[1..]);
      ps := [p] + rest;
      assert ps[1..] == rest && s == [s[0]] + s[1..];
    }
  }

  /** The writer's escapes are undone. */
  lemma UnescapeEscaped(s: Text)
    requires NoNul(s)
    ensures Unescape(Escaped(s)) == Some(s)
  {
    var ps := EscapedPieces(s);
    PiecesRead(ps);
  }

  /** The token of a quoted string ends at its own quote, whatever follows, and is decoded to the string. */
  lemma QuotedToken(doc: Text, i: nat, s: Text)
    requires Matches(doc, i, Quoted(s))
    ensures var tok := Token(StringToken, i, i + |Quoted(s)|);
            i < |doc| && TokenFrom(doc, i) == tok && NameOf(doc, tok) == Some(CStr(s))
  {
    HasMatches(doc, i, Quoted(s));
    var ps := QuotedSpells(s);
    StringEnds(doc, i, ps, Quoted(s), CStr(s));
    HasFirst(doc, i, Quoted(s));
  }

  lemma QuotedSpells(s: Text) returns (ps: seq<Piece>)
    ensures StringShape(ps, Quoted(s), CStr(s))
  {
    ps := EscapedPieces(CStr(s));
    PiecesShape(ps);
    assert Quoted(s) == [0x22] + (Escaped(CStr(s)) + [0x22]);
  }

  lemma IntSpells(n: int)
    requires MIN_INT <= n <= MAX_UINT
    ensures Shape(Numeral([], IntText(n)), IntText(n), Num(n))
  {
    var x := IntText(n);
    NumberRoundTrip(n);
    assert NumeralOk(x) by { forall i | 0 <= i < |x| ensures InNumeral(x[i]) { assert IsNumberChar(x[i]); } }
    NumeralAgrees(x);
    NumeralShape([], x);
    assert [] + x == x;
  }

  /** The text of a value spells it, cut at its NULs. */
  lemma {:induction false} TextSpells(v: Json) returns (t: Tree)
    requires Proper(v)
    ensures Shape(t, TextOf(v), Cut(v))
    decreases v, Width(v) + 1
  {
    match v
    case Null =>
      t := Word([], NULL_TEXT);
      WordSpells(NULL_TEXT, v);
    case Bool(b) =>
      t := Word([], if b then TRUE_TEXT else FALSE_TEXT);
      WordSpells(if b then TRUE_TEXT else FALSE_TEXT, v);
    case Num(n) =>
      t := Numeral([], IntText(n));
      IntSpells(n);
    case Str(s) =>
      var ps := QuotedSpells(s);
      t := Quote([], ps);
      QuoteShape([], ps, Quoted(s), CStr(s));
      assert [] + Quoted(s) == Quoted(s);
    case Arr(items) =>
      if items == [] {
        t := EmptyList([], []);
        EmptyShape([], []);
        EmptyText(v);
      } else {
        var e, x := ItemsSpell(v, 0);
        t := List([], e);
        ListShape([], e, x, Cut(v).items);
        ListText(v, x);
      }
    case Obj(members) =>
      var r, x;
      if members == [] {
        r, x := NoRow([]), [0x7d];
        NoRowShape();
        NoMembers(v);
      } else {
        r, x := MembersSpell(v, 0, []);
      }
      t := Record([], r);
      RecordShape([], r, x, Cut(v).members);
      RecordText(v, x, Cut(v).members);
  }

  lemma NoRowShape()
    ensures RowsShape(NoRow([]), [], [0x7d], [])
  {
  }

  lemma NoMembers(v: Json)
    requires v == Obj([])
    ensures MembersFrom(v, 0) + [CLOSE_OBJECT] == [0x7d] && Cut(v).members == []
  {
  }

  lemma WordSpells(w: Text, v: Json)
    requires || (w == NULL_TEXT && v == Null) || (w == TRUE_TEXT && v == Bool(true))
             || (w == FALSE_TEXT && v == Bool(false))
    ensures Shape(Word([], w), w, v)
  {
    assert w == WORDS[0] || w == WORDS[1] || w == WORDS[2];
    WordShape([], w);
    assert [] + w == w;
  }

  lemma EmptyText(v: Json)
    requires v == Arr([])
    ensures TextOf(v) == [] + ([0x5b] + ([] + [0x5d])) && Cut(v) == Arr([])
  {
    assert ItemsFrom(v, 0) == [];
  }

  lemma ListText(v: Json, x: Text)
    requires v.Arr? && v.items != [] && ItemsFrom(v, 0) + [CLOSE_ARRAY] == x
    ensures TextOf(v) == [] + ([0x5b] + x) && Cut(v) == Arr(Cut(v).items)
  {
    assert TextOf(v) == [OPEN_ARRAY] + (ItemsFrom(v, 0) + [CLOSE_ARRAY]);
  }

  /** The elements from `k` on; the text begins without the comma. */
  lemma {:induction false} ItemsSpell(v: Json, k: nat) returns (e: Elems, x: Text)
    requires v.Arr? && Proper(v) && k < |v.items|
    ensures ElemsShape(e, x, Cut(v).items[k..])
    ensures ItemsFrom(v, k) + [CLOSE_ARRAY] == (if k > 0 then [COMMA] else []) + x
    decreases v, |v.items| - k
  {
    var t := TextSpells(v.items[k]);
    var x1, v1 := TextOf(v.items[k]), Cut(v.items[k]);
    if k + 1 == |v.items| {
      e, x := LastElem(t, []), x1 + ([] + ([0x5d] + []));
      LastElemShape(t, x1, v1, []);
      assert Cut(v).items[k..] == [v1] + [];
      LastItemText(v, k, x1);
    } else {
      var rest, x2 := ItemsSpell(v, k + 1);
      e, x := NextElem(t, [], rest), x1 + ([] + ([0x2c] + x2));
      NextElemShape(t, x1, v1, [], rest, x2, Cut(v).items[k + 1..]);
      assert Cut(v).items[k..] == [v1] + Cut(v).items[k + 1..];
      NextItemText(v, k, x1, x2);
    }
  }

  lemma Regroup(c: Text, x: Text, m: Text, close: Byte, y: Text)
    requires m + [close] == y
    ensures c + x + m + [close] == c + (x + ([] + y))
  {
    assert c + x + m + [close] == c + x + (m + [close]);
    assert [] + y == y;
  }

  lemma RegroupMember(q: Text, x: Text, y: Text)
    ensures q + [COLON] + x + ([] + y) == [] + (q + ([] + ([0x3a] + (x + ([] + y)))))
  {
    assert [] + ([0x3a] + (x + ([] + y))) == [0x3a] + (x + ([] + y));
  }

  lemma LastItemText(v: Json, k: nat, x1: Text)
    requires v.Arr? && k + 1 == |v.items| && x1 == TextOf(v.items[k])
    ensures ItemsFrom(v, k) + [CLOSE_ARRAY] == (if k > 0 then [COMMA] else []) + (x1 + ([] + ([0x5d] + [])))
  {
    var c: Text := if k > 0 then [COMMA] else [];
    assert ItemsFrom(v, k + 1) == [];
    Regroup(c, x1, ItemsFrom(v, k + 1), 0x5d, [0x5d] + []);
  }

  lemma NextItemText(v: Json, k: nat, x1: Text, x2: Text)
    requires v.Arr? && k + 1 < |v.items| && x1 == TextOf(v.items[k])
    requires ItemsFrom(v, k + 1) + [CLOSE_ARRAY] == [COMMA] + x2
    ensures ItemsFrom(v, k) + [CLOSE_ARRAY] == (if k > 0 then [COMMA] else []) + (x1 + ([] + ([0x2c] + x2)))
  {
    var c: Text := if k > 0 then [COMMA] else [];
    Regroup(c, x1, ItemsFrom(v, k + 1), 0x5d, [0x2c] + x2);
  }

  /** The members from `k` on, in the same way. */
  lemma {:induction false} MembersSpell(v: Json, k: nat, last: Text) returns (r: Rows, x: Text)
    requires v.Obj? && Proper(v) && k < |v.members|
    ensures RowsShape(r, last, x, Cut(v).members[k..])
    ensures MembersFrom(v, k) + [CLOSE_OBJECT] == (if k > 0 then [COMMA] else []) + x
    decreases v, |v.members| - k
  {
    var m := v.members[k];
    CStrSame(m.name);
    var ps := QuotedSpells(m.name);
    var t := TextSpells(m.value);
    var q, x1, v1 := Quoted(m.name), TextOf(m.value), Cut(m.value);
    if k + 1 == |v.members| {
      r := LastRow([], ps, [], t, []);
      x := [] + (q + ([] + ([0x3a] + (x1 + ([] + ([0x7d] + []))))));
      LastRowShape([], ps, q, m.name, [], t, x1, v1, [], last);
      assert Cut(v).members[k..] == [Member(m.name, v1)] + [];
      LastMemberText(v, k, q, x1);
    } else {
      var rest, x2 := MembersSpell(v, k + 1, m.name);
      r := NextRow([], ps, [], t, [], rest);
      x := [] + (q + ([] + ([0x3a] + (x1 + ([] + ([0x2c] + x2))))));
      NextRowShape([], ps, q, m.name, [], t, x1, v1, [], last, rest, x2, Cut(v).members[k + 1..]);
      assert Cut(v).members[k..] == [Member(m.name, v1)] + Cut(v).members[k + 1..];
      NextMemberText(v, k, q, x1, x2);
    }
  }

  lemma LastMemberText(v: Json, k: nat, q: Text, x1: Text)
    requires v.Obj? && k + 1 == |v.members| && q == Quoted(v.members[k].name) && x1 == TextOf(v.members[k].value)
    ensures MembersFrom(v, k) + [CLOSE_OBJECT] ==
            (if k > 0 then [COMMA] else []) + ([] + (q + ([] + ([0x3a] + (x1 + ([] + ([0x7d] + [])))))))
  {
    var c: Text := if k > 0 then [COMMA] else [];
    assert MembersFrom(v, k + 1) == [];
    Regroup(c, MemberText(v, k), MembersFrom(v, k + 1), 0x7d, [0x7d] + []);
    RegroupMember(q, x1, [0x7d] + []);
  }

  lemma NextMemberText(v: Json, k: nat, q: Text, x1: Text, x2: Text)
    requires v.Obj? && k + 1 < |v.members| && q == Quoted(v.members[k].name) && x1 == TextOf(v.members[k].value)
    requires MembersFrom(v, k + 1) + [CLOSE_OBJECT] == [COMMA] + x2
    ensures MembersFrom(v, k) + [CLOSE_OBJECT] ==
            (if k > 0 then [COMMA] else []) + ([] + (q + ([] + ([0x3a] + (x1 + ([] + ([0x2c] + x2)))))))
  {
    var c: Text := if k > 0 then [COMMA] else [];
    Regroup(c, MemberText(v, k), MembersFrom(v, k + 1), 0x7d, [0x2c] + x2);
    RegroupMember(q, x1, [0x2c] + x2);
  }

  lemma RecordText(v: Json, x: Text, pairs: seq<Member>)
    requires v.Obj? && Proper(v) && MembersFrom(v, 0) + [CLOSE_OBJECT] == x && pairs == Cut(v).members
    ensures TextOf(v) == [] + ([0x7b] + x) && Cut(v) == Obj(Assigned(pairs))
  {
    assert TextOf(v) == [OPEN_OBJECT] + (MembersFrom(v, 0) + [CLOSE_OBJECT]);
    AssignedSorted(pairs);
  }

  /** Members in order with C strings as names are themselves. */
  lemma {:induction false} AssignedSorted(ps: seq<Member>)
    requires forall i :: 0 <= i < |ps| ==> NoNul(ps[i].name)
    requires forall i, j :: 0 <= i < j < |ps| ==> Less(ps[i].name, ps[j].name)
    ensures Assigned(ps) == ps
  {
    if ps != [] {
      var n := |ps| - 1;
      AssignedSorted(ps[..n]);
      CStrSame(ps[n].name);
      InsertLast(ps[..n], ps[n]);
      assert ps[..n] + [ps[n]] == ps;
    }
  }

  /** What FastWriter writes, a value and a line end, spells the value cut at its NULs. */
  lemma WrittenSpells(v: Json) returns (t: Tree)
    requires Proper(v)
    ensures Spells(TextOf(v) + [NEWLINE], 0, t) && Meaning(t) == Cut(v)
  {
    t := TextSpells(v);
    assert OpenTree(t, 0);
    var doc := TextOf(v) + [NEWLINE];
    assert doc[0..|TextOf(v)|] == TextOf(v);
  }
}
