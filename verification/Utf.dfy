/**
 UTF-8 (section 3 of RFC 3629) and UTF-16 (section 2.1 of RFC 2781): a text is
 a sequence of scalar values, and its lengths in bytes and in units are
 compared without decoding it.
 */
module Utf {
  import opened Wrappers
  import opened Bits

  type scalar = c: int | 0 <= c < 0xD800 || 0xE000 <= c < 0x110000
  type unit = u: int | 0 <= u < 0x10000

  function Utf8Of(c: scalar): (b: seq<byte>)
    ensures 1 <= |b| <= 4
  {
    if c < 0x80 then [c]
    else if c < 0x800 then [0xC0 + c / 64, 0x80 + c % 64]
    else if c < 0x10000 then [0xE0 + c / 4096, 0x80 + c / 64 % 64, 0x80 + c % 64]
    else [0xF0 + c / 262144, 0x80 + c / 4096 % 64, 0x80 + c / 64 % 64, 0x80 + c % 64]
  }

  function Utf16Of(c: scalar): (u: seq<unit>)
    ensures 1 <= |u| <= 2
  {
    if c < 0x10000 then [c] else [0xD800 + (c - 0x10000) / 1024, 0xDC00 + (c - 0x10000) % 1024]
  }

  function Utf8(t: seq<scalar>): seq<byte>
  {
    if t == [] then [] else Utf8Of(t[0]) + Utf8(t[1..])
  }

  function Utf16(t: seq<scalar>): seq<unit>
  {
    if t == [] then [] else Utf16Of(t[0]) + Utf16(t[1..])
  }

  predicate Tail(b: byte)
  {
    0x80 <= b < 0xC0
  }

  function Low6(b: byte): int
    requires Tail(b)
  {
    b as int - 0x80
  }

  /** The first character of `b`, if it begins with a well-formed one. */
  function First(b: seq<byte>): Option<scalar>
  {
    if b == [] then None
    else if b[0] < 0x80 then Some(b[0])
    else if 0xC2 <= b[0] < 0xE0 && |b| >= 2 && Tail(b[1]) then Some((b[0] as int - 0xC0) * 64 + Low6(b[1]))
    else if 0xE0 <= b[0] < 0xF0 && |b| >= 3 && Tail(b[1]) && Tail(b[2]) then
      Three((b[0] as int - 0xE0) * 4096 + Low6(b[1]) * 64 + Low6(b[2]))
    else if 0xF0 <= b[0] < 0xF5 && |b| >= 4 && Tail(b[1]) && Tail(b[2]) && Tail(b[3]) then
      Four((b[0] as int - 0xF0) * 262144 + Low6(b[1]) * 4096 + Low6(b[2]) * 64 + Low6(b[3]))
    else None
  }

  function Three(c: int): Option<scalar>
  {
    if 0x800 <= c < 0xD800 || 0xE000 <= c < 0x10000 then Some(c) else None
  }

  function Four(c: int): Option<scalar>
  {
    if 0x10000 <= c < 0x110000 then Some(c) else None
  }

  lemma FirstOf(c: scalar, rest: seq<byte>)
    ensures First(Utf8Of(c) + rest) == Some(c)
  {
    if c >= 0x10000 {
      FirstOf4(c, rest);
    } else if c >= 0x800 {
      FirstOf3(c, rest);
    }
  }

  lemma FirstOf4(c: scalar, rest: seq<byte>)
    requires c >= 0x10000
    ensures First(Utf8Of(c) + rest) == Some(c)
  {
    var a, b := c / 64, c / 4096;
    assert c == a * 64 + c % 64 && a == b * 64 + a % 64 && b == (c / 262144) * 64 + b % 64;
  }

  lemma FirstOf3(c: scalar, rest: seq<byte>)
    requires 0x800 <= c < 0x10000
    ensures First(Utf8Of(c) + rest) == Some(c)
  {
    var a := c / 64;
    assert c == a * 64 + c % 64 && a == (c / 4096) * 64 + a % 64;
  }

  lemma FirstIs(b: seq<byte>, c: scalar)
    requires First(b) == Some(c)
    ensures Utf8Of(c) <= b
  {
    if b[0] >= 0xF0 {
      FourIs(b, c);
    } else if b[0] >= 0xE0 {
      ThreeIs(b, c);
    }
  }

  lemma FourIs(b: seq<byte>, c: scalar)
    requires First(b) == Some(c) && b[0] >= 0xF0
    ensures Utf8Of(c) <= b
  {
    Split3(b[0] as int - 0xF0, Low6(b[1]), Low6(b[2]), Low6(b[3]));
    assert Utf8Of(c) == b[..4];
  }

  lemma ThreeIs(b: seq<byte>, c: scalar)
    requires First(b) == Some(c) && 0xE0 <= b[0] < 0xF0
    ensures Utf8Of(c) <= b
  {
    Split3(0, b[0] as int - 0xE0, Low6(b[1]), Low6(b[2]));
    assert Utf8Of(c) == b[..3];
  }

  lemma Split3(w: int, x: int, y: int, z: int)
    requires 0 <= w && 0 <= x < 64 && 0 <= y < 64 && 0 <= z < 64
    ensures var c := w * 262144 + x * 4096 + y * 64 + z;
            c / 262144 == w && c / 4096 == w * 64 + x && c / 4096 % 64 == x && c / 64 % 64 == y && c % 64 == z
  {
    Parts((w * 64 + x) * 64 + y, z, 64);
    Parts(w * 64 + x, y, 64);
    Parts(w, x, 64);
    Parts(w * 64 + x, y * 64 + z, 4096);
    Parts(w, x * 4096 + y * 64 + z, 262144);
  }

  lemma Parts(a: nat, r: nat, n: nat)
    requires r < n
    ensures (a * n + r) / n == a && (a * n + r) % n == r
  {
    var b := a * n + r;
    var q := b / n - a;
    assert (q >= 1 ==> q * n >= n) && (q <= -1 ==> q * n <= 0 - n);
    assert q * n == r - b % n;
  }

  /** The text that `b` is the UTF-8 of, if any. */
  function Decode(b: seq<byte>): Option<seq<scalar>>
  {
    if b == [] then Some([])
    else if First(b).None? then None
    else
      FirstIs(b, First(b).value);
      var rest := Decode(b[|Utf8Of(First(b).value)|..]);
      if rest.None? then None else Some([First(b).value] + rest.value)
  }

  lemma {:induction false} DecodeUtf8(t: seq<scalar>)
    ensures Decode(Utf8(t)) == Some(t)
  {
    if t != [] {
      hide First, Utf8Of;
      FirstOf(t[0], Utf8(t[1..]));
      DecodeUtf8(t[1..]);
      assert Utf8(t)[|Utf8Of(t[0])|..] == Utf8(t[1..]);
      assert t == [t[0]] + t[1..];
    }
  }

  lemma {:induction false} Utf8Decode(b: seq<byte>)
    requires Decode(b).Some?
    ensures Utf8(Decode(b).value) == b
    decreases |b|
  {
    if b != [] {
      var c := First(b).value;
      FirstIs(b, c);
      Utf8Decode(b[|Utf8Of(c)|..]);
      assert Decode(b).value[1..] == Decode(b[|Utf8Of(c)|..]).value;
    }
  }

  ghost predicate Valid(b: seq<byte>)
  {
    Decode(b).Some?
  }

  /** The JavaScript string a UTF-8 decoder makes of valid UTF-8. */
  function Text(b: seq<byte>): seq<unit>
    requires Valid(b)
  {
    Utf16(Decode(b).value)
  }

  lemma Regroup<T>(a: seq<T>, b: seq<T>, c: seq<T>)
    ensures a + (b + c) == (a + b) + c
  {}

  lemma {:induction false} Utf8Join(t: seq<scalar>, u: seq<scalar>)
    ensures Utf8(t + u) == Utf8(t) + Utf8(u)
  {
    hide Utf8Of;
    if t == [] {
      assert t + u == u;
    } else {
      Utf8Join(t[1..], u);
      assert (t + u)[1..] == t[1..] + u;
      Regroup(Utf8Of(t[0]), Utf8(t[1..]), Utf8(u));
    }
  }

  lemma {:induction false} Utf16Join(t: seq<scalar>, u: seq<scalar>)
    ensures Utf16(t + u) == Utf16(t) + Utf16(u)
  {
    hide Utf16Of;
    if t == [] {
      assert t + u == u;
    } else {
      Utf16Join(t[1..], u);
      assert (t + u)[1..] == t[1..] + u;
      Regroup(Utf16Of(t[0]), Utf16(t[1..]), Utf16(u));
    }
  }

  /** Text put end to end decodes to its parts' texts end to end. */
  lemma TextJoin(a: seq<byte>, b: seq<byte>)
    requires Valid(a) && Valid(b)
    ensures Valid(a + b) && Text(a + b) == Text(a) + Text(b)
  {
    var t, u := Decode(a).value, Decode(b).value;
    Utf8Decode(a);
    Utf8Decode(b);
    Utf8Join(t, u);
    Utf16Join(t, u);
    DecodeUtf8(t + u);
  }

  // ---------------------------------------------------------------- lengths

  function UnitsOf(b: byte): nat
  {
    if Tail(b) then 0 else if b >= 0xF0 then 2 else 1
  }

  /** The units of a text, counted over its bytes: a leading byte counts for the units of its character. */
  function Utf16Len(b: seq<byte>): nat
  {
    if b == [] then 0 else Utf16Len(b[..|b| - 1]) + UnitsOf(b[|b| - 1])
  }

  lemma {:induction false} Utf16LenJoin(a: seq<byte>, b: seq<byte>)
    ensures Utf16Len(a + b) == Utf16Len(a) + Utf16Len(b)
  {
    if b == [] {
      assert a + b == a;
    } else {
      Utf16LenJoin(a, b[..|b| - 1]);
      assert (a + b)[..|a + b| - 1] == a + b[..|b| - 1];
    }
  }

  lemma LenTo(b: seq<byte>, k: nat)
    requires k < |b|
    ensures Utf16Len(b[..k + 1]) == Utf16Len(b[..k]) + UnitsOf(b[k])
  {
    assert b[..k + 1][..k] == b[..k];
  }

  lemma OneLen(c: scalar)
    ensures Utf16Len(Utf8Of(c)) == |Utf16Of(c)|
  {
    var b := Utf8Of(c);
    assert b[..|b|] == b;
    LenTo(b, 0);
    if |b| > 1 {
      LenTo(b, 1);
    }
    if |b| > 2 {
      LenTo(b, 2);
    }
    if |b| > 3 {
      LenTo(b, 3);
    }
  }

  lemma {:induction false} ScalarsLen(t: seq<scalar>)
    ensures Utf16Len(Utf8(t)) == |Utf16(t)|
  {
    if t != [] {
      OneLen(t[0]);
      ScalarsLen(t[1..]);
      Utf16LenJoin(Utf8Of(t[0]), Utf8(t[1..]));
    }
  }

  /** What `utf16_len` counts is the length of the text in UTF-16. */
  lemma LenIsText(b: seq<byte>)
    requires Valid(b)
    ensures Utf16Len(b) == |Text(b)|
  {
    Utf8Decode(b);
    ScalarsLen(Decode(b).value);
  }

  // ---------------------------------------------------------------- ASCII

  predicate Ascii(b: seq<byte>)
  {
    forall i :: 0 <= i < |b| ==> b[i] < 0x80
  }

  lemma {:induction false} AsciiText(b: seq<byte>)
    requires Ascii(b)
    ensures Valid(b) && Text(b) == b
  {
    if b != [] {
      AsciiText(b[1..]);
      assert Utf8Of(b[0]) == [b[0]];
      assert Decode(b).value == [b[0]] + Decode(b[1..]).value;
    }
  }

  lemma {:induction false} LenAtMostBytes(b: seq<byte>)
    requires Valid(b)
    ensures |Text(b)| <= |b|
    ensures |Text(b)| == |b| ==> Ascii(b)
    decreases |b|
  {
    if b != [] {
      var c := First(b).value;
      FirstIs(b, c);
      var rest := b[|Utf8Of(c)|..];
      assert b == Utf8Of(c) + rest;
      LenAtMostBytes(rest);
      assert Decode(b).value == [c] + Decode(rest).value;
      assert Text(b) == Utf16Of(c) + Text(rest);
      if |Text(b)| == |b| {
        assert b[0] < 0x80;
        assert rest == b[1..];
      }
    }
  }

  /** Byte lengths are UTF-16 lengths exactly for ASCII. */
  lemma AsciiExactly(b: seq<byte>)
    requires Valid(b)
    ensures Ascii(b) <==> Utf16Len(b) == |b|
  {
    LenIsText(b);
    LenAtMostBytes(b);
    if Ascii(b) {
      AsciiText(b);
    }
  }

  /** The count of ASCII is its length. */
  lemma LenByAscii(v: seq<byte>)
    requires Valid(v)
    ensures (if Ascii(v) then |v| else Utf16Len(v)) == Utf16Len(v)
  {
    AsciiExactly(v);
  }
}
