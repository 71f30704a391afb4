/** What the parser takes is a text of the value it gives: with what `Json` proves, a text is taken exactly when it is one. */
module JsonGrammar {
  import opened Wrappers
  import opened Bits
  import opened Utf
  import opened Json

  // ---------------------------------------------------------------- characters

  lemma DigitFound(b: byte)
    requires HexDigit(b) != None
    ensures IsHex(b, HexDigit(b).value)
  {}

  /** Three places of a number. */
  lemma PlacesOf(b: nat, c: nat, e: nat)
    requires c < 16 && e < 16
    ensures var n := (b * 16 + c) * 16 + e; n % 16 == e && n / 16 % 16 == c && n / 256 == b
  {
    Parts(b * 16 + c, e, 16);
    Parts(b, c, 16);
    Parts(b, c * 16 + e, 256);
  }

  lemma QuadFound(s: seq<byte>, at: nat)
    requires HexAt(s, at).Ok?
    ensures QuadOk(Quad(s[at..at + 4], HexAt(s, at).value))
  {
    hide IsHex, HexDigit, Decode;
    var d := s[at..at + 4];
    var plus := d[0] == 0x2B;
    var tail := if plus then d[1..] else d;
    LastDigits(tail);
    var e, c, b := HexDigit(d[3]).value, HexDigit(d[2]).value, HexDigit(d[1]).value;
    DigitFound(d[3]);
    DigitFound(d[2]);
    DigitFound(d[1]);
    DigitsBelow(b, d[1]);
    DigitsBelow(c, d[2]);
    DigitsBelow(e, d[3]);
    var a := if plus then 0 else HexDigit(d[0]).value;
    if !plus {
      DigitFound(d[0]);
      DigitsBelow(a, d[0]);
    }
    PlacesOf(a * 16 + b, c, e);
    Parts(a, b, 16);
    Parts(a, (b * 16 + c) * 16 + e, 4096);
  }

  lemma DigitsBelow(n: nat, b: byte)
    requires IsHex(b, n)
    ensures n < 16
  {}

  /** The digits of a number of three or four. */
  lemma LastDigits(d: seq<byte>)
    requires 3 <= |d| <= 4 && HexNumber(d) != None
    ensures forall i :: 0 <= i < |d| ==> HexDigit(d[i]) != None
    ensures var k := |d| - 3;
            HexNumber(d) == Some((((if k == 1 then HexDigit(d[0]).value else 0) * 16 + HexDigit(d[k]).value) * 16 + HexDigit(d[k + 1]).value) * 16
                                 + HexDigit(d[k + 2]).value)
  {
    hide HexDigit;
    var n := |d|;
    assert d[..n - 1][..n - 2] == d[..n - 2] && d[..n - 2][..n - 3] == d[..n - 3];
    assert HexNumber(d[..n - 1]) != None && HexNumber(d[..n - 2]) != None && HexNumber(d[..n - 3]) != None;
    if n == 4 {
      assert d[..1][..0] == [];
      assert HexNumber(d[..0]) == Some(0);
    }
  }

  lemma LaxFound(s: seq<byte>, at: nat, q: Quad)
    requires at + 6 <= |s| && s[at] == BACKSLASH && s[at + 1] == LOWER_U && q.digits == s[at + 2..at + 6]
    ensures s[at..at + 6] == LaxBytes(q)
  {
    Rejoined(s, at, at + 2, at + 6);
    assert s[at..at + 2] == [BACKSLASH, LOWER_U];
  }

  lemma Rejoined(s: seq<byte>, a: nat, b: nat, c: nat)
    requires a <= b <= c <= |s|
    ensures s[a..c] == s[a..b] + s[b..c]
  {}

  lemma Bracketed(s: seq<byte>, p: nat, q: nat)
    requires p < q < |s|
    ensures s[p..q + 1] == [s[p]] + s[p + 1..q] + [s[q]]
  {}

  /** An escape is a spelling of the character it is read as. */
  lemma EscapeFound(s: seq<byte>, at: nat) returns (p: Spelling)
    requires at < |s| && s[at] == BACKSLASH && EscapeAt(s, at + 1).Ok?
    ensures SpellingOk(p) && p.c == EscapeAt(s, at + 1).value && s[at..EscapeAt(s, at + 1).end] == SpellingBytes(p)
  {
    hide HexAt, QuadOk;
    var r := EscapeAt(s, at + 1);
    if s[at + 1] == LOWER_U {
      var high := HexAt(s, at + 2);
      QuadFound(s, at + 2);
      var first := Quad(s[at + 2..at + 6], high.value);
      LaxFound(s, at, first);
      if r.end == at + 6 {
        p := Lax(r.value, first, None);
        assert LaxBytes(first) + [] == LaxBytes(first);
      } else {
        QuadFound(s, at + 8);
        var low := Quad(s[at + 8..at + 12], HexAt(s, at + 8).value);
        assert s[at + 6..at + 8][0] == s[at + 6] && s[at + 6..at + 8][1] == s[at + 7];
        LaxFound(s, at + 6, low);
        Rejoined(s, at, at + 6, at + 12);
        p := Lax(r.value, first, Some(low));
      }
    } else {
      p := Short(r.value);
      assert s[at..at + 2] == [s[at], s[at + 1]];
    }
  }

  /** Bytes of one character, of which only the first is not a tail, stand as they are. */
  lemma {:induction false} RawFound(s: seq<byte>, at: nat, n: nat)
    requires at < |s| && s[at] != QUOTE && s[at] != BACKSLASH && BytesAt(s, at).Ok?
    requires var b := BytesAt(s, at).value; 0 < n <= |b| && forall k :: 0 < k < n ==> Tail(b[k])
    ensures var b := BytesAt(s, at).value; var more := at + n;
            && more <= |s| && s[at..more] == b[..n]
            && BytesAt(s, more).Ok? && BytesAt(s, more).value == b[n..] && BytesAt(s, more).end == BytesAt(s, at).end
    decreases n
  {
    hide EscapeAt, Utf8Of;
    var b, rest := BytesAt(s, at).value, BytesAt(s, at + 1);
    assert b == [s[at]] + rest.value;
    if n > 1 {
      assert rest.value[0] == b[1];
      if s[at + 1] == BACKSLASH {
        LeadsNoTail(EscapeAt(s, at + 2).value);
        assert false;
      }
      forall k | 0 < k < n - 1
        ensures Tail(rest.value[k])
      {
        assert rest.value[k] == b[k + 1];
      }
      RawFound(s, at + 1, n - 1);
      assert s[at..at + n] == [s[at]] + s[at + 1..at + n];
    }
  }

  lemma LeadsNoTail(c: scalar)
    ensures !Tail(Utf8Of(c)[0]) && forall k :: 0 < k < |Utf8Of(c)| ==> Tail(Utf8Of(c)[k])
  {}

  /** A string's bytes are spellings of the characters it is read as. */
  lemma {:induction false} CharsFound(s: seq<byte>, at: nat) returns (ps: seq<Spelling>)
    requires at <= |s| && BytesAt(s, at).Ok? && Decode(BytesAt(s, at).value) != None
    ensures SpellingsOk(ps) && SpelledText(ps) == Decode(BytesAt(s, at).value).value
    ensures s[at..BytesAt(s, at).end] == SpellingsBytes(ps) + [QUOTE]
    decreases |s| - at
  {
    hide EscapeAt, Utf8Of, First, SpellingOk, SpellingBytes;
    var r := BytesAt(s, at);
    if s[at] == QUOTE {
      ps := [];
      assert s[at..at + 1] == [] + [QUOTE];
      return;
    }
    var p, more := OneFound(s, at);
    hide BytesAt, Decode;
    var rest := CharsFound(s, more);
    ps := [p] + rest;
    Rejoined(s, at, more, r.end);
    assert SpellingBytes(p) + (SpellingsBytes(rest) + [QUOTE]) == (SpellingBytes(p) + SpellingsBytes(rest)) + [QUOTE];
  }

  /** The first character of a string, and the place after it. */
  lemma OneFound(s: seq<byte>, at: nat) returns (p: Spelling, more: nat)
    requires at < |s| && s[at] != QUOTE && BytesAt(s, at).Ok? && Decode(BytesAt(s, at).value) != None
    ensures SpellingOk(p) && at < more <= |s| && s[at..more] == SpellingBytes(p)
    ensures BytesAt(s, more).Ok? && BytesAt(s, more).end == BytesAt(s, at).end && Decode(BytesAt(s, more).value) != None
    ensures Decode(BytesAt(s, at).value).value == [p.c] + Decode(BytesAt(s, more).value).value
  {
    hide EscapeAt, Utf8Of, First;
    var b := BytesAt(s, at).value;
    if s[at] == BACKSLASH {
      var c := EscapeAt(s, at + 1).value;
      more := EscapeAt(s, at + 1).end;
      p := EscapeFound(s, at);
      FirstOf(c, BytesAt(s, more).value);
      assert b[|Utf8Of(c)|..] == BytesAt(s, more).value;
    } else {
      var c := First(b).value;
      p, more := AsIs(c), at + |Utf8Of(c)|;
      FirstIs(b, c);
      LeadsNoTail(c);
      RawFound(s, at, |Utf8Of(c)|);
      assert Utf8Of(c) == b[..|Utf8Of(c)|];
      Utf8First(c, s[at]);
    }
  }

  lemma Utf8First(c: scalar, b: byte)
    requires Utf8Of(c)[0] == b && b != QUOTE && b != BACKSLASH
    ensures SpellingOk(AsIs(c))
  {}

  lemma StringFound(s: seq<byte>, at: nat) returns (ps: seq<Spelling>)
    requires at <= |s| && StringAt(s, at).Ok?
    ensures SpellingsOk(ps) && SpelledText(ps) == StringAt(s, at).value && s[at..StringAt(s, at).end] == InQuotes(ps)
  {
    hide BytesAt, Decode, SpellingsBytes, SpellingsOk, SpelledText;
    ps := CharsFound(s, at + 1);
    var end := StringAt(s, at).end;
    assert s[at..end] == [QUOTE] + s[at + 1..end];
    assert [QUOTE] + (SpellingsBytes(ps) + [QUOTE]) == [QUOTE] + SpellingsBytes(ps) + [QUOTE];
  }

  // ---------------------------------------------------------------- values

  lemma {:induction false} BlankFound(s: seq<byte>, at: nat)
    requires at <= |s|
    ensures Blank(s[at..Skip(s, at)])
    decreases |s| - at
  {
    if at < |s| && Space(s[at]) {
      BlankFound(s, at + 1);
      assert s[at..Skip(s, at)] == [s[at]] + s[at + 1..Skip(s, at)];
    }
  }

  lemma {:induction false} TokenFound(s: seq<byte>, at: nat)
    requires at <= |s|
    ensures forall i :: at <= i < NumericEnd(s, at) ==> Numeric(s[i])
    decreases |s| - at
  {
    if at < |s| && Numeric(s[at]) {
      TokenFound(s, at + 1);
    }
  }

  /** What is read with no blank before it. */
  lemma {:induction false} SyntaxFound(s: seq<byte>, at: nat, depth: nat, accepts: seq<byte> -> bool) returns (x: Syntax)
    requires at <= |s| && ValueAt(s, at, depth, accepts).Ok?
    ensures var r, p := ValueAt(s, at, depth, accepts), Skip(s, at);
            p <= r.end <= |s| && SyntaxOk(x, accepts) && Spelled(x) == s[p..r.end] && Meaning(x) == r.value
    decreases |s| - at, 1
  {
    hide ItemsAt, FieldsAt, StringAt, NumericEnd, Skip, SpellingsOk, InQuotes, SpelledItems, SpelledMembers, Meanings, MemberFields, ItemsOk, MembersOk,
        Blank, SpelledText, TokenOk, ItemOk;
    var r, p := ValueAt(s, at, depth, accepts), Skip(s, at);
    if Starts(s, p, NullWord()) || Starts(s, p, TrueWord()) || Starts(s, p, FalseWord()) {
      x := Literal(r.value);
    } else if s[p] == QUOTE {
      var chars := StringFound(s, p);
      x := Chars(chars);
    } else if s[p] == OPEN {
      x := ListFound(s, p, depth, accepts);
    } else if s[p] == OPEN_BRACE {
      x := RecordFound(s, p, depth, accepts);
    } else {
      x := Digits(s[p..r.end]);
      NumberFound(s, p, accepts);
    }
  }

  lemma NumberFound(s: seq<byte>, p: nat, accepts: seq<byte> -> bool)
    requires p < |s| && (s[p] == 0x2D || 0x30 <= s[p] < 0x3A) && accepts(s[p..NumericEnd(s, p + 1)])
    ensures TokenOk(s[p..NumericEnd(s, p + 1)], accepts)
  {
    hide NumericEnd;
    var token := s[p..NumericEnd(s, p + 1)];
    TokenFound(s, p + 1);
    forall i | 0 <= i < |token|
      ensures Numeric(token[i])
    {
      assert token[i] == s[p + i];
    }
    NumericChars(token);
  }

  /** An array's text. */
  lemma {:induction false} ListFound(s: seq<byte>, p: nat, depth: nat, accepts: seq<byte> -> bool) returns (x: Syntax)
    requires p < |s| && s[p] == OPEN
    requires Eats(s, p + 1, CLOSE) || ItemsAt(s, Skip(s, p + 1), depth, accepts).Ok?
    ensures var end := if Eats(s, p + 1, CLOSE) then Skip(s, p + 1) + 1 else ItemsAt(s, Skip(s, p + 1), depth, accepts).end;
            SyntaxOk(x, accepts) && end <= |s| && p < end && Spelled(x) == s[p..end]
    ensures Meaning(x) == Array(if Eats(s, p + 1, CLOSE) then [] else ItemsAt(s, Skip(s, p + 1), depth, accepts).value)
    decreases |s| - p, 0
  {
    hide ItemsAt, Skip, Spelled, Meaning, SpelledItems, Meanings, ItemsOk, Blank;
    var q := Skip(s, p + 1);
    if Eats(s, p + 1, CLOSE) {
      BlankFound(s, p + 1);
      x := List(s[p + 1..q], []);
      ListIs(s[p + 1..q], []);
      NothingListed();
      Bracketed(s, p, q);
    } else {
      ItemsPast(s, p + 1, depth, accepts);
      var items := ItemsFound(s, p + 1, depth, accepts);
      var end := ItemsAt(s, q, depth, accepts).end;
      x := List([], items);
      ListIs([], items);
      assert s[p..p + 1] == [OPEN];
      Rejoined(s, p, p + 1, end);
      assert [OPEN] + (SpelledItems(items) + [CLOSE]) == [OPEN] + SpelledItems(items) + [CLOSE];
      NoBlank();
    }
  }

  lemma NothingListed()
    ensures Meanings([]) == [] && MemberFields([]) == [] && forall accepts: seq<byte> -> bool :: ItemsOk([], accepts) && MembersOk([], accepts)
  {}

  lemma NoBlank()
    ensures Blank([])
  {}

  /** A value's text, with the blanks before it and those up to `q`. */
  lemma {:induction false} ItemFound(s: seq<byte>, at: nat, q: nat, depth: nat, accepts: seq<byte> -> bool) returns (i: Item)
    requires at <= |s| && ValueAt(s, at, depth, accepts).Ok? && q == Skip(s, ValueAt(s, at, depth, accepts).end)
    ensures at <= q <= |s| && ItemOk(i, accepts) && SpelledItem(i) == s[at..q] && ItemMeaning(i) == ValueAt(s, at, depth, accepts).value
    decreases |s| - at, 2
  {
    hide ValueAt, Skip, Spelled, SyntaxOk, Meaning, Blank;
    var p, end := Skip(s, at), ValueAt(s, at, depth, accepts).end;
    BlankFound(s, at);
    BlankFound(s, end);
    var x := SyntaxFound(s, at, depth, accepts);
    i := Item(s[at..p], x, s[end..q]);
    Rejoined(s, at, p, end);
    Rejoined(s, at, end, q);
  }

  lemma {:induction false} ItemsFound(s: seq<byte>, at: nat, depth: nat, accepts: seq<byte> -> bool) returns (items: seq<Item>)
    requires at <= |s| && ItemsAt(s, at, depth, accepts).Ok?
    ensures var r := ItemsAt(s, at, depth, accepts);
            items != [] && ItemsOk(items, accepts) && s[at..r.end] == SpelledItems(items) + [CLOSE] && Meanings(items) == r.value
    decreases |s| - at, 3
  {
    hide ValueAt, Skip, SpelledItem, ItemOk, ItemMeaning;
    var r, v := ItemsAt(s, at, depth, accepts), ValueAt(s, at, depth + 1, accepts);
    var q := Skip(s, v.end);
    var i := ItemFound(s, at, q, depth + 1, accepts);
    if Eats(s, v.end, CLOSE) {
      items := [i];
      OneItem(items);
      assert s[at..q + 1] == s[at..q] + [CLOSE];
    } else {
      hide ItemsAt, SpelledItems, ItemsOk, Meanings;
      var more := ItemsFound(s, q + 1, depth, accepts);
      items := [i] + more;
      MoreItems(i, more, accepts);
      Spliced(s, at, q, r.end, SpelledItem(i), SpelledItems(more), CLOSE);
    }
  }

  lemma MoreItems(i: Item, more: seq<Item>, accepts: seq<byte> -> bool)
    requires more != []
    ensures var items := [i] + more;
            && SpelledItems(items) == SpelledItem(i) + [COMMA] + SpelledItems(more) && Meanings(items) == [ItemMeaning(i)] + Meanings(more)
            && (ItemOk(i, accepts) && ItemsOk(more, accepts) ==> ItemsOk(items, accepts))
  {
    hide SpelledItem, ItemOk, ItemMeaning;
    assert ([i] + more)[1..] == more;
  }

  /** One part, a comma, and the rest to the end. */
  lemma Spliced(s: seq<byte>, at: nat, q: nat, end: nat, a: seq<byte>, more: seq<byte>, close: byte)
    requires at <= q < end <= |s| && s[q] == COMMA && s[at..q] == a && s[q + 1..end] == more + [close]
    ensures s[at..end] == a + [COMMA] + more + [close]
  {
    assert s[q..q + 1] == [s[q]];
    Rejoined(s, at, q, q + 1);
    Rejoined(s, at, q + 1, end);
    assert a + [COMMA] + (more + [close]) == a + [COMMA] + more + [close];
  }

  /** An object's text. */
  lemma {:induction false} RecordFound(s: seq<byte>, p: nat, depth: nat, accepts: seq<byte> -> bool) returns (x: Syntax)
    requires p < |s| && s[p] == OPEN_BRACE
    requires Eats(s, p + 1, CLOSE_BRACE) || FieldsAt(s, Skip(s, p + 1), depth, accepts).Ok?
    ensures var end := if Eats(s, p + 1, CLOSE_BRACE) then Skip(s, p + 1) + 1 else FieldsAt(s, Skip(s, p + 1), depth, accepts).end;
            SyntaxOk(x, accepts) && end <= |s| && p < end && Spelled(x) == s[p..end]
    ensures Meaning(x) == Object(if Eats(s, p + 1, CLOSE_BRACE) then [] else FieldsAt(s, Skip(s, p + 1), depth, accepts).value)
    decreases |s| - p, 0
  {
    hide FieldAt, FieldsAt, Skip, Spelled, Meaning, SpelledMembers, MemberFields, MembersOk, Blank;
    var q := Skip(s, p + 1);
    if Eats(s, p + 1, CLOSE_BRACE) {
      BlankFound(s, p + 1);
      x := Record(s[p + 1..q], []);
      RecordIs(s[p + 1..q], []);
      NothingListed();
      Bracketed(s, p, q);
    } else {
      AllPast(s, p + 1, depth, accepts);
      var members := FieldsFound(s, p + 1, depth, accepts);
      var end := FieldsAt(s, q, depth, accepts).end;
      x := Record([], members);
      RecordIs([], members);
      assert s[p..p + 1] == [OPEN_BRACE];
      Rejoined(s, p, p + 1, end);
      assert [OPEN_BRACE] + (SpelledMembers(members) + [CLOSE_BRACE]) == [OPEN_BRACE] + SpelledMembers(members) + [CLOSE_BRACE];
      NoBlank();
    }
  }

  lemma AllPast(s: seq<byte>, at: nat, depth: nat, accepts: seq<byte> -> bool)
    requires at <= |s|
    ensures FieldsAt(s, Skip(s, at), depth, accepts) == FieldsAt(s, at, depth, accepts)
  {
    hide FieldAt, Skip;
    FieldsPast(s, at, depth, accepts);
  }

  lemma {:induction false} FieldFound(s: seq<byte>, at: nat, q: nat, depth: nat, accepts: seq<byte> -> bool) returns (m: Member)
    requires at <= |s| && FieldAt(s, at, depth, accepts).Ok? && q == Skip(s, FieldAt(s, at, depth, accepts).end)
    ensures at <= q <= |s| && MemberOk(m, accepts) && SpelledMember(m) == s[at..q] && MemberField(m) == FieldAt(s, at, depth, accepts).value
    decreases |s| - at, 2
  {
    hide ValueAt, StringAt, Skip, InQuotes, SpellingsOk, SpelledText, SpelledItem, ItemOk, ItemMeaning, Blank;
    var p := Skip(s, at);
    var key := StringAt(s, p);
    var colon := Skip(s, key.end);
    BlankFound(s, at);
    BlankFound(s, key.end);
    var name := StringFound(s, p);
    var item := ItemFound(s, colon + 1, q, depth + 1, accepts);
    m := Member(s[at..p], name, s[key.end..colon], item);
    assert s[colon..colon + 1] == [s[colon]];
    Rejoined(s, key.end, colon, colon + 1);
    Rejoined(s, key.end, colon + 1, q);
    Rejoined(s, at, p, key.end);
    Rejoined(s, at, key.end, q);
  }

  lemma {:induction false} FieldsFound(s: seq<byte>, at: nat, depth: nat, accepts: seq<byte> -> bool) returns (members: seq<Member>)
    requires at <= |s| && FieldsAt(s, at, depth, accepts).Ok?
    ensures var r := FieldsAt(s, at, depth, accepts);
            members != [] && MembersOk(members, accepts) && s[at..r.end] == SpelledMembers(members) + [CLOSE_BRACE] && MemberFields(members) == r.value
    decreases |s| - at, 3
  {
    hide FieldAt, Skip, SpelledMember, MemberOk, MemberField;
    var r, f := FieldsAt(s, at, depth, accepts), FieldAt(s, at, depth, accepts);
    var q := Skip(s, f.end);
    var m := FieldFound(s, at, q, depth, accepts);
    if Eats(s, f.end, CLOSE_BRACE) {
      members := [m];
      assert MemberFields(members) == [MemberField(m)] + MemberFields([]);
      assert s[at..q + 1] == s[at..q] + [CLOSE_BRACE];
    } else {
      hide FieldsAt, SpelledMembers, MembersOk, MemberFields;
      var more := FieldsFound(s, q + 1, depth, accepts);
      members := [m] + more;
      MoreMembers(m, more, accepts);
      Spliced(s, at, q, r.end, SpelledMember(m), SpelledMembers(more), CLOSE_BRACE);
    }
  }

  lemma MoreMembers(m: Member, more: seq<Member>, accepts: seq<byte> -> bool)
    requires more != []
    ensures var members := [m] + more;
            && SpelledMembers(members) == SpelledMember(m) + [COMMA] + SpelledMembers(more)
            && MemberFields(members) == [MemberField(m)] + MemberFields(more)
            && (MemberOk(m, accepts) && MembersOk(more, accepts) ==> MembersOk(members, accepts))
  {
    hide SpelledMember, MemberOk, MemberField;
    assert ([m] + more)[1..] == more;
  }

  /** A text parses as `v` exactly when it is a text of `v`, which nests at most 64 deep. */
  lemma ParseExactly(s: seq<byte>, v: Value, accepts: seq<byte> -> bool)
    ensures Parse(s, accepts) == Ok(v, |s|) <==>
            Height(v) <= 64 && exists i: Item :: ItemOk(i, accepts) && SpelledItem(i) == s && ItemMeaning(i) == v
  {
    hide ValueAt, SpelledItem, ItemOk, ItemMeaning, Height, Skip;
    if Parse(s, accepts) == Ok(v, |s|) {
      var i := ItemFound(s, 0, |s|, 0, accepts);
      assert s[0..|s|] == s;
      ParseSpelled(i, accepts);
    }
    forall i: Item | ItemOk(i, accepts) && SpelledItem(i) == s && ItemMeaning(i) == v && Height(v) <= 64
      ensures Parse(s, accepts) == Ok(v, |s|)
    {
      ParseSpelled(i, accepts);
    }
  }
}
