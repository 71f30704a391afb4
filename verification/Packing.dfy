/** `js/src/shared.ts`, `js/src/parquet.ts`: texts end to end as UTF-8 with where each ends, and how the module cuts them. */
module Packing {
  import opened Wrappers
  import opened Bits
  import opened Utf

  /** A value to pack: a JavaScript string, or bytes as they are. */
  datatype Text = Str(units: seq<unit>) | Raw(bytes: seq<byte>)

  const REPLACEMENT: scalar := 0xFFFD

  // ---------------------------------------------------------------- strings as UTF-8

  predicate High(u: unit)
  {
    0xD800 <= u < 0xDC00
  }

  predicate Low(u: unit)
  {
    0xDC00 <= u < 0xE000
  }

  /** How many units the first character takes: two for a surrogate pair. */
  function Lead(u: seq<unit>): (n: nat)
    requires u != []
    ensures 1 <= n <= 2 && n <= |u|
  {
    if |u| >= 2 && High(u[0]) && Low(u[1]) then 2 else 1
  }

  /** The first character; a surrogate on its own is the replacement character. */
  function FirstChar(u: seq<unit>): scalar
    requires u != []
  {
    if Lead(u) == 2 then 0x10000 + (u[0] as int - 0xD800) * 1024 + (u[1] as int - 0xDC00)
    else if High(u[0]) || Low(u[0]) then REPLACEMENT
    else u[0]
  }

  /** The UTF-8 a text encoder makes of a string. */
  function ToUtf8(u: seq<unit>): seq<byte>
  {
    if u == [] then [] else Utf8Of(FirstChar(u)) + ToUtf8(u[Lead(u)..])
  }

  /** Of a well-formed string, whatever follows it, it is the UTF-8 of its text. */
  lemma {:induction false} WellFormed(t: seq<scalar>, u: seq<unit>)
    ensures ToUtf8(Utf16(t) + u) == Utf8(t) + ToUtf8(u)
  {
    hide Utf8Of, Utf16Of, ToUtf8;
    if t == [] {
      assert [] + u == u && [] + ToUtf8(u) == ToUtf8(u);
    } else {
      WellFormed(t[1..], u);
      CharEncoded(t[0], Utf16(t[1..]) + u);
      Regroup(Utf16Of(t[0]), Utf16(t[1..]), u);
      Regroup(Utf8Of(t[0]), Utf8(t[1..]), ToUtf8(u));
    }
  }

  lemma CharEncoded(c: scalar, u: seq<unit>)
    ensures ToUtf8(Utf16Of(c) + u) == Utf8Of(c) + ToUtf8(u)
  {
    hide Utf8Of;
    if c >= 0x10000 {
      PairIs(c);
    }
    assert (Utf16Of(c) + u)[|Utf16Of(c)|..] == u;
  }

  /** A surrogate with none to pair with is U+FFFD. */
  lemma LoneReplaced(s: unit, u: seq<unit>)
    requires 0xD800 <= s < 0xE000 && !(s < 0xDC00 && u != [] && 0xDC00 <= u[0] < 0xE000)
    ensures ToUtf8([s] + u) == [0xEF, 0xBF, 0xBD] + ToUtf8(u)
  {
    hide Utf8Of;
    var all := [s] + u;
    assert all[1..] == u && Lead(all) == 1 && FirstChar(all) == 0xFFFD;
    ReplacementBytes();
  }

  lemma ReplacementBytes()
    ensures Utf8Of(0xFFFD) == [0xEF, 0xBF, 0xBD]
  {}

  lemma PairIs(c: scalar)
    requires c >= 0x10000
    ensures var u := Utf16Of(c); |u| == 2 && High(u[0]) && Low(u[1]) && 0x10000 + (u[0] as int - 0xD800) * 1024 + (u[1] as int - 0xDC00) == c
  {}

  /** Every unit is an ASCII character. */
  predicate Plain(u: seq<unit>)
  {
    forall i :: 0 <= i < |u| ==> u[i] < 0x80
  }

  /** A character takes at least as many bytes as units, at most three times as many, and as many only in ASCII. */
  lemma CharSize(u: seq<unit>)
    requires u != []
    ensures Lead(u) <= |Utf8Of(FirstChar(u))| <= 3 * Lead(u)
    ensures |Utf8Of(FirstChar(u))| == Lead(u) <==> u[0] < 0x80
  {}

  lemma {:induction false} PlainUtf8(u: seq<unit>)
    requires Plain(u)
    ensures ToUtf8(u) == u
  {
    if u != [] {
      PlainUtf8(u[1..]);
      assert Utf8Of(u[0]) == [u[0]];
      assert u == [u[0]] + u[1..];
    }
  }

  /** Two halves of a pair are not, apart, what they are together: text that is not ASCII may not be joined. */
  lemma JoinDiffers()
    ensures ToUtf8([0xD83D] + [0xDE00]) != ToUtf8([0xD83D]) + ToUtf8([0xDE00])
  {
    var h: seq<unit>, l: seq<unit> := [0xD83D], [0xDE00];
    assert (h + l)[2..] == [] && h[1..] == [] && l[1..] == [];
    assert |ToUtf8(h + l)| == 4;
    assert |ToUtf8(h)| == 3 && |ToUtf8(l)| == 3;
  }

  // ---------------------------------------------------------------- what packing means

  function BytesOf(t: Text): seq<byte>
  {
    match t
    case Str(units) => ToUtf8(units)
    case Raw(bytes) => bytes
  }

  /** Each value's bytes after those of the one before. */
  function Packed(texts: seq<Text>): seq<byte>
  {
    if texts == [] then [] else Packed(texts[..|texts| - 1]) + BytesOf(texts[|texts| - 1])
  }

  /** Where value `i` ends. */
  function EndOf(texts: seq<Text>, i: nat): nat
    requires i < |texts|
  {
    |Packed(texts[..i + 1])|
  }

  /** Ends are kept in 32 bits. */
  const U32: nat := 0x1_0000_0000

  lemma PackedPush(texts: seq<Text>, i: nat)
    requires i < |texts|
    ensures Packed(texts[..i + 1]) == Packed(texts[..i]) + BytesOf(texts[i])
  {
    assert texts[..i + 1][..i] == texts[..i];
  }

  /** Each value is the bytes between the end before it and its own. */
  lemma {:induction false} PackedCut(texts: seq<Text>, i: nat)
    requires i < |texts|
    ensures |Packed(texts[..i])| <= |Packed(texts[..i + 1])| <= |Packed(texts)|
    ensures Packed(texts)[|Packed(texts[..i])|..|Packed(texts[..i + 1])|] == BytesOf(texts[i])
  {
    hide BytesOf;
    var n := |texts| - 1;
    PackedPush(texts, i);
    if i == n {
      assert texts[..n + 1] == texts;
    } else {
      var front := texts[..n];
      PackedCut(front, i);
      assert front[..i] == texts[..i] && front[..i + 1] == texts[..i + 1];
    }
  }

  // ---------------------------------------------------------------- packing

  /** From this average length on, strings are joined and encoded by the block. */
  const JOIN_LENGTH: nat := 12
  const JOIN_ROWS: nat := 65536

  function LengthOf(t: Text): nat
  {
    match t
    case Str(units) => |units|
    case Raw(bytes) => |bytes|
  }

  class Packer {
    var bytes: array<byte>
    var at: nat
    const ends: array<nat>
    const texts: seq<Text>
    /** The longest string the engine makes. */
    const longest: nat

    constructor (texts: seq<Text>, size: nat, longest: nat)
      ensures Valid() && at == 0 && this.texts == texts && this.longest == longest && bytes.Length == size && Done(0)
      ensures fresh(bytes) && fresh(ends)
    {
      this.texts, this.longest, at := texts, longest, 0;
      bytes := new byte[size];
      ends := new nat[|texts|];
      new;
      assert bytes[..0] == Packed(texts[..0]);
    }

    ghost predicate Valid()
      reads this
    {
      at <= bytes.Length && ends.Length == |texts| && (bytes as object) != ends
    }

    /** The first `n` values are packed, and nothing else. */
    ghost predicate Done(n: nat)
      requires Valid()
      reads this, bytes, ends
    {
      && n <= |texts| && bytes[..at] == Packed(texts[..n])
      && forall i :: 0 <= i < n ==> ends[i] == EndOf(texts, i) % 0x1_0000_0000
    }

    /** Make room for `most` bytes more; what is written so far is kept. */
    method Room(most: nat)
      requires Valid()
      modifies this`bytes
      ensures Valid() && at + most <= bytes.Length && bytes[..at] == old(bytes[..at])
      ensures bytes == old(bytes) || fresh(bytes)
    {
      if at + most <= bytes.Length {
        return;
      }
      var grown := new byte[if 2 * bytes.Length > at + most then 2 * bytes.Length else at + most];
      forall i | 0 <= i < at {
        grown[i] := bytes[i];
      }
      bytes := grown;
    }

    /** Write `b` at `p`. */
    method Put(p: nat, b: seq<byte>)
      requires Valid() && p + |b| <= bytes.Length
      modifies bytes
      ensures bytes[..p] == old(bytes[..p]) && bytes[p..p + |b|] == b
      ensures ends[..] == old(ends[..])
    {
      forall i | 0 <= i < |b| {
        bytes[p + i] := b[i];
      }
    }

    /** Write `b` after the `written` bytes, `done`, that are after `at`. */
    method PutAfter(written: nat, b: seq<byte>, ghost done: seq<byte>)
      requires Valid() && at + written + |b| <= bytes.Length && bytes[at..at + written] == done
      modifies bytes
      ensures bytes[..at] == old(bytes[..at]) && bytes[at..at + written + |b|] == done + b && ends[..] == old(ends[..])
    {
      ghost var before := bytes[..at + written];
      Put(at + written, b);
      Prefix(bytes[..], at, written, |b|, before);
    }

    /** The text encoder: as many whole characters of `u` as fit after `at`; how many units, and bytes, those are. */
    method EncodeInto(u: seq<unit>) returns (read: nat, written: nat)
      requires Valid()
      modifies bytes
      ensures read <= |u| && at + written <= bytes.Length && ends[..] == old(ends[..])
      ensures bytes[..at] == old(bytes[..at]) && bytes[at..at + written] + ToUtf8(u[read..]) == ToUtf8(u)
      ensures written == read <==> Plain(u[..read])
      ensures bytes.Length - at >= 3 * |u| ==> read == |u|
      ensures Plain(u) && bytes.Length - at >= |u| ==> read == |u|
    {
      hide Utf8Of, FirstChar, ToUtf8, Plain, Encoded;
      read, written := 0, 0;
      ghost var done: seq<byte> := [];
      EncodeStarts(u);
      while read < |u|
        invariant read <= |u| && written == |done| && at + written <= bytes.Length && Encoded(u, read, done)
        invariant bytes[..at] == old(bytes[..at]) && bytes[at..at + written] == done && ends[..] == old(ends[..])
      {
        var b := Utf8Of(FirstChar(u[read..]));
        EncodeStep(u, read, done, bytes.Length - at);
        if at + written + |b| > bytes.Length {
          EncodeEnds(u, read, done);
          return;
        }
        PutAfter(written, b, done);
        done := done + b;
        read, written := read + Lead(u[read..]), written + |b|;
      }
      EncodeEnds(u, read, done);
    }

    /** Write a string: unit by unit while it is ASCII, or else by the encoder. */
    method PutString(u: seq<unit>)
      requires Valid()
      modifies this`bytes, this`at, bytes
      ensures Valid() && bytes[..at] == old(bytes[..at]) + ToUtf8(u) && ends[..] == old(ends[..])
      ensures bytes == old(bytes) || fresh(bytes)
    {
      hide ToUtf8;
      Room(|u|);
      ghost var front := bytes[..at];
      var j := PutPlain(u);
      if j == |u| {
        PlainUtf8(u);
        assert bytes[..at + j] == front + u;
        at := at + j;
      } else {
        PutEncoded(u);
      }
    }

    /** Write a string by the encoder: a unit is at most three bytes. */
    method PutEncoded(u: seq<unit>)
      requires Valid()
      modifies this`bytes, this`at, bytes
      ensures Valid() && bytes[..at] == old(bytes[..at]) + ToUtf8(u) && ends[..] == old(ends[..])
      ensures bytes == old(bytes) || fresh(bytes)
    {
      hide ToUtf8;
      ghost var front := bytes[..at];
      Room(3 * |u|);
      var read, written := EncodeInto(u);
      NoneLeft(u, read);
      assert bytes[at..at + written] + [] == bytes[at..at + written];
      assert bytes[..at + written] == front + ToUtf8(u);
      at := at + written;
    }

    /** Copy units while they are ASCII; how many were. */
    method PutPlain(u: seq<unit>) returns (j: nat)
      requires Valid() && at + |u| <= bytes.Length
      modifies bytes
      ensures j <= |u| && (j == |u| ==> Plain(u) && bytes[at..at + j] == u)
      ensures bytes[..at] == old(bytes[..at]) && ends[..] == old(ends[..])
    {
      j := 0;
      while j < |u| && u[j] <= 0x7F
        invariant j <= |u| && forall k :: 0 <= k < j ==> u[k] < 0x80 && bytes[at + k] == u[k]
        invariant bytes[..at] == old(bytes[..at]) && ends[..] == old(ends[..])
      {
        bytes[at + j] := u[j];
        j := j + 1;
      }
    }

    /** Each of the values from `from` on, up to `stop`. */
    method Each(from: nat, stop: nat)
      requires Valid() && from <= stop <= |texts| && Done(from)
      modifies this`bytes, this`at, bytes, ends
      ensures Valid() && Done(stop) && (bytes == old(bytes) || fresh(bytes))
    {
      hide Packed, ToUtf8;
      var i := from;
      while i < stop
        invariant from <= i <= stop && Valid() && Done(i) && (bytes == old(bytes) || fresh(bytes))
      {
        PutValue(i);
        i := i + 1;
      }
    }

    /** Value `i` after those before it. */
    method PutValue(i: nat)
      requires Valid() && i < |texts| && Done(i)
      modifies this`bytes, this`at, bytes, ends
      ensures Valid() && Done(i + 1) && (bytes == old(bytes) || fresh(bytes))
    {
      hide Packed, ToUtf8;
      PackedPush(texts, i);
      match texts[i] {
        case Str(units) =>
          PutString(units);
        case Raw(raw) =>
          PutRaw(raw);
      }
      ends[i] := at % U32;
    }

    /** Bytes as they are. */
    method PutRaw(raw: seq<byte>)
      requires Valid()
      modifies this`bytes, this`at, bytes
      ensures Valid() && bytes[..at] == old(bytes[..at]) + raw && ends[..] == old(ends[..]) && (bytes == old(bytes) || fresh(bytes))
    {
      Room(|raw|);
      Put(at, raw);
      InTwo(bytes[..at + |raw|], at);
      assert bytes[..at + |raw|][..at] == bytes[..at] && bytes[..at + |raw|][at..] == bytes[at..at + |raw|];
      at := at + |raw|;
    }

    /** The ends of values `from` to `to`, whose joined text, all ASCII, has been written. */
    method TakeBlock(from: nat, stop: nat)
      requires Valid() && from <= stop <= |texts| && Done(from) && AllStrings(texts)
      requires Plain(Joined(texts, from, stop)) && at + |Joined(texts, from, stop)| <= bytes.Length
      requires bytes[at..at + |Joined(texts, from, stop)|] == Joined(texts, from, stop)
      modifies this`at, ends
      ensures Valid() && Done(stop)
    {
      hide Packed, Joined, Plain;
      ghost var start, all := at, Joined(texts, from, stop);
      PlainBlock(texts, from, stop);
      JoinedNone(texts, from);
      var i := from;
      while i < stop
        invariant from <= i <= stop && Valid() && at == start + |Joined(texts, from, i)| <= start + |all|
        invariant bytes[..start] == Packed(texts[..from]) && bytes[start..start + |all|] == all
        invariant forall k :: 0 <= k < i ==> ends[k] == EndOf(texts, k) % U32
      {
        JoinedStep(texts, from, i, stop);
        at := at + LengthOf(texts[i]);
        ends[i] := at % U32;
        i := i + 1;
      }
      assert bytes[..at] == bytes[..start] + all;
    }

    /** Values `from` to `to`, all strings, joined and encoded at once if that is ASCII; joining throws past the longest string. */
    method Block(from: nat, stop: nat) returns (ok: bool)
      requires Valid() && from <= stop <= |texts| && Done(from) && AllStrings(texts)
      modifies this`bytes, this`at, bytes, ends
      ensures ok <==> |Joined(texts, from, stop)| <= longest
      ensures Valid() && (ok ==> Done(stop)) && (bytes == old(bytes) || fresh(bytes))
    {
      hide Packed, ToUtf8, Joined, Plain;
      var block := Joined(texts, from, stop);
      if |block| > longest {
        return false;
      }
      Room(|block|);
      ghost var front := bytes[..at];
      var read, written := EncodeInto(block);
      if read == |block| && written == |block| {
        assert block[..read] == block;
        PlainUtf8(block);
        NoneLeft(block, read);
        assert bytes[at..at + written] + [] == block;
        TakeBlock(from, stop);
      } else {
        Each(from, stop);
      }
      return true;
    }
  }

  /** `done` is the first `read` units encoded. */
  ghost predicate Encoded(u: seq<unit>, read: nat, done: seq<byte>)
  {
    && read <= |u| && read <= |done| <= 3 * read && done + ToUtf8(u[read..]) == ToUtf8(u)
    && (|done| == read <==> Plain(u[..read]))
  }

  lemma EncodeStarts(u: seq<unit>)
    ensures Encoded(u, 0, [])
  {
    assert u[0..] == u && [] + ToUtf8(u) == ToUtf8(u);
  }

  lemma EncodeEnds(u: seq<unit>, read: nat, done: seq<byte>)
    requires Encoded(u, read, done)
    ensures read <= |u| && done + ToUtf8(u[read..]) == ToUtf8(u)
    ensures |done| == read <==> Plain(u[..read])
  {}

  /** One character more, which fits where there are three bytes to a unit, or one and all is ASCII. */
  lemma EncodeStep(u: seq<unit>, read: nat, done: seq<byte>, room: int)
    requires Encoded(u, read, done) && read < |u|
    ensures var rest := u[read..]; var b := Utf8Of(FirstChar(rest));
            && Encoded(u, read + Lead(rest), done + b)
            && (room >= 3 * |u| ==> |done| + |b| <= room) && (Plain(u) && room >= |u| ==> |done| + |b| <= room)
  {
    hide Utf8Of, FirstChar, Plain;
    var rest := u[read..];
    var b := Utf8Of(FirstChar(rest));
    CharSize(rest);
    PlainStep(u, read);
    assert u[read + Lead(rest)..] == rest[Lead(rest)..];
    assert done + (b + ToUtf8(rest[Lead(rest)..])) == (done + b) + ToUtf8(rest[Lead(rest)..]);
  }

  /** UTF-8 of nothing is nothing. */
  lemma NoneLeft(u: seq<unit>, read: nat)
    requires read <= |u|
    ensures read == |u| ==> ToUtf8(u[read..]) == []
  {}

  /** One character more. */
  lemma PlainStep(u: seq<unit>, read: nat)
    requires read <= |u|
    ensures Plain(u[..0]) && (Plain(u) ==> Plain(u[..read]))
    ensures read < |u| ==> (Plain(u) ==> u[read] < 0x80)
    ensures read < |u| ==> (Plain(u[..read + Lead(u[read..])]) <==> Plain(u[..read]) && u[read] < 0x80)
  {
    if read < |u| {
      var now := u[..read + Lead(u[read..])];
      assert forall i :: 0 <= i < read ==> now[i] == u[..read][i];
      assert now[read] == u[read];
    }
  }

  lemma InTwo(b: seq<byte>, at: nat)
    requires at <= |b|
    ensures b == b[..at] + b[at..]
  {}

  lemma Prefix(b: seq<byte>, at: nat, written: nat, more: nat, before: seq<byte>)
    requires at + written + more <= |b| && b[..at + written] == before
    ensures b[..at] == before[..at] && b[at..at + written + more] == before[at..] + b[at + written..at + written + more]
  {
    assert b[..at + written][..at] == b[..at];
    assert b[..at + written][at..] == b[at..at + written];
  }

  ghost predicate AllStrings(texts: seq<Text>)
  {
    forall i :: 0 <= i < |texts| ==> texts[i].Str?
  }

  /** The units of strings `from` to `to`, end to end. */
  function Joined(texts: seq<Text>, from: nat, stop: nat): seq<unit>
    requires from <= stop <= |texts|
  {
    if from == stop then [] else
    Joined(texts, from, stop - 1) + match texts[stop - 1] case Str(units) => units case Raw(_) => []
  }

  lemma JoinedNone(texts: seq<Text>, from: nat)
    requires from <= |texts|
    ensures Joined(texts, from, from) == []
  {}

  /** If all the units joined are ASCII, they are the packed bytes. */
  lemma {:induction false} PlainBlock(texts: seq<Text>, from: nat, stop: nat)
    requires from <= stop <= |texts| && AllStrings(texts) && Plain(Joined(texts, from, stop))
    ensures Packed(texts[..stop]) == Packed(texts[..from]) + Joined(texts, from, stop)
    decreases stop
  {
    hide ToUtf8, Plain, Packed, Joined;
    if from == stop {
      JoinedNone(texts, from);
      assert Packed(texts[..from]) + [] == Packed(texts[..from]);
    } else {
      var front, last := Joined(texts, from, stop - 1), texts[stop - 1].units;
      JoinedPush(texts, from, stop);
      PlainParts(front, last);
      PlainBlock(texts, from, stop - 1);
      PlainUtf8(last);
      PackedPush(texts, stop - 1);
      assert (Packed(texts[..from]) + front) + last == Packed(texts[..from]) + (front + last);
    }
  }

  lemma JoinedPush(texts: seq<Text>, from: nat, stop: nat)
    requires from < stop <= |texts| && texts[stop - 1].Str?
    ensures Joined(texts, from, stop) == Joined(texts, from, stop - 1) + texts[stop - 1].units
  {}

  lemma PlainParts(a: seq<unit>, b: seq<unit>)
    requires Plain(a + b)
    ensures Plain(a) && Plain(b)
  {
    var u := a + b;
    assert forall i :: 0 <= i < |a| ==> a[i] == u[i];
    assert forall i :: 0 <= i < |b| ==> b[i] == u[|a| + i];
  }

  /** Where the next string of a joined block ends. */
  lemma JoinedStep(texts: seq<Text>, from: nat, i: nat, stop: nat)
    requires from <= i < stop <= |texts| && AllStrings(texts) && Plain(Joined(texts, from, stop))
    ensures |Joined(texts, from, i + 1)| == |Joined(texts, from, i)| + LengthOf(texts[i]) <= |Joined(texts, from, stop)|
    ensures EndOf(texts, i) == |Packed(texts[..from])| + |Joined(texts, from, i + 1)|
  {
    hide Packed;
    JoinedPrefix(texts, from, i + 1, stop);
    PlainBlock(texts, from, i + 1);
  }

  lemma {:induction false} JoinedPrefix(texts: seq<Text>, from: nat, i: nat, stop: nat)
    requires from <= i <= stop <= |texts|
    ensures Joined(texts, from, i) <= Joined(texts, from, stop)
    ensures Plain(Joined(texts, from, stop)) ==> Plain(Joined(texts, from, i))
    decreases stop
  {
    if i < stop {
      JoinedPrefix(texts, from, i, stop - 1);
    }
  }

  /** The lengths of the values, in all. */
  function Units(texts: seq<Text>): nat
  {
    if texts == [] then 0 else Units(texts[..|texts| - 1]) + LengthOf(texts[|texts| - 1])
  }

  /** Values that are joined to be packed. */
  ghost predicate ByBlocks(texts: seq<Text>)
  {
    AllStrings(texts) && Units(texts) >= 12 * |texts|
  }

  function Least(a: nat, b: nat): nat {
    if a < b then a else b
  }

  /** The strings of block `k`, end to end. */
  function BlockOf(texts: seq<Text>, k: nat): seq<unit>
  {
    Joined(texts, Least(k * 65536, |texts|), Least(k * 65536 + 65536, |texts|))
  }

  /** No block is too long to be one string. */
  ghost predicate Joinable(texts: seq<Text>, longest: nat)
  {
    forall k: nat :: |BlockOf(texts, k)| <= longest
  }

  /** How many units there are to pack, and whether they are all of strings. */
  method Measure(texts: seq<Text>) returns (size: nat, strings: bool)
    ensures size == Units(texts) && (strings <==> AllStrings(texts))
  {
    size, strings := 0, true;
    var i := 0;
    while i < |texts|
      invariant i <= |texts| && size == Units(texts[..i]) && (strings <==> AllStrings(texts[..i]))
    {
      assert texts[..i + 1][..i] == texts[..i];
      size := size + LengthOf(texts[i]);
      if texts[i].Raw? {
        assert texts[..i + 1][i].Raw?;
        strings := false;
      }
      i := i + 1;
    }
    assert texts[..i] == texts;
  }

  /** Pack values end to end, in one buffer that grows; false, where a block of strings to be joined is too long, for what joining throws. */
  method PackTexts(texts: seq<Text>, longest: nat) returns (ok: bool, bytes: seq<byte>, ends: seq<nat>)
    ensures ok <==> !ByBlocks(texts) || Joinable(texts, longest)
    ensures ok ==> bytes == Packed(texts) && EndsOf(ends, texts)
  {
    hide Packed, AllStrings, Joined, Units;
    var size, strings := Measure(texts);
    var p := new Packer(texts, 64 + size, longest);
    if !strings || size < JOIN_LENGTH * |texts| {
      p.Each(0, |texts|);
    } else {
      var from := 0;
      ghost var k := 0;
      while from < |texts|
        invariant from == Least(k * JOIN_ROWS, |texts|) && p.Valid() && p.Done(from) && p.texts == texts && p.longest == longest
        invariant forall j :: 0 <= j < k ==> |BlockOf(texts, j)| <= longest
        invariant fresh(p) && fresh(p.bytes) && fresh(p.ends)
      {
        var stop := if from + JOIN_ROWS < |texts| then from + JOIN_ROWS else |texts|;
        assert BlockOf(texts, k) == Joined(texts, from, stop);
        var joined := p.Block(from, stop);
        if !joined {
          return false, [], [];
        }
        from := stop;
        k := k + 1;
      }
      NoMoreBlocks(texts, k);
    }
    assert texts[..|texts|] == texts;
    return true, p.bytes[..p.at], p.ends[..];
  }

  lemma NoMoreBlocks(texts: seq<Text>, k: nat)
    requires k * JOIN_ROWS >= |texts|
    ensures forall j :: j >= k ==> BlockOf(texts, j) == []
  {}

  // ---------------------------------------------------------------- into the module

  /** The most bytes one allocation of the module may be: half its address space, less one. */
  const MOST: nat := 0x7FFF_FFFF

  /** Where bytes are put in module memory; or what is thrown, by `alloc` or by the view it is copied through. */
  datatype Place = At(ptr: nat) | TooLarge | OutOfView

  /**
   Put `len` bytes in module memory: the module is asked for them in 32
   bits, and gives none past `MOST` or when memory is short; the view is of
   all of them, over a memory of at most 4 GiB.
   */
  method Put(len: nat, roomy: bool) returns (place: Place)
    ensures place.At? ==> len <= 0x7FFF_FFFF
    ensures place.OutOfView? ==> len >= 0x1_0000_0000
    ensures roomy && len <= 0x7FFF_FFFF ==> place.At?
  {
    var asked, short := len % U32, *;
    if asked > MOST || (!roomy && short) {
      return TooLarge;
    }
    var ptr: nat, memory: nat :| 0 < ptr && ptr + asked <= memory <= U32;
    if ptr + len > memory {
      return OutOfView;
    }
    return At(ptr);
  }

  /** A text column as the module holds it: its rows' texts, or distinct texts and a code a row; or the writing has failed. */
  datatype Column =
    | Refused
    | Texts(bytes: seq<byte>, ends: seq<nat>, missing: seq<bool>)
    | Codes(bytes: seq<byte>, ends: seq<nat>, codes: seq<int>)

  /** Ends that do not step back or pass the bytes. */
  predicate InOrder(ends: seq<nat>, size: nat)
  {
    (forall i :: 0 <= i < |ends| ==> ends[i] <= size) && forall i :: 0 < i < |ends| ==> ends[i - 1] <= ends[i]
  }

  /** Hand over a column's texts; the module refuses ends out of order. */
  method WriteTexts(bytes: seq<byte>, ends: seq<nat>, missing: seq<bool>, roomy: bool) returns (c: Column)
    requires |ends| == |missing|
    ensures c.Refused? || c == Texts(bytes, ends, missing)
    ensures c.Texts? ==> |bytes| <= 0x7FFF_FFFF && 4 * |ends| <= 0x7FFF_FFFF && InOrder(ends, |bytes|)
    ensures roomy && |bytes| <= 0x7FFF_FFFF && 4 * |ends| <= 0x7FFF_FFFF && InOrder(ends, |bytes|) ==> c.Texts?
  {
    var offsets := Put(4 * |ends|, roomy);
    if !offsets.At? {
      return Refused;
    }
    var flags := Put(|missing|, roomy);
    if !flags.At? {
      return Refused;
    }
    var at := Put(|bytes|, roomy);
    if !at.At? || !InOrder(ends, |bytes| % U32) {
      return Refused;
    }
    var room := *;
    return if roomy || room then Texts(bytes, ends, missing) else Refused;
  }

  /** Hand over a column's distinct texts and codes; the module also refuses a code past them. */
  method WriteCodes(bytes: seq<byte>, ends: seq<nat>, codes: seq<int>, roomy: bool) returns (c: Column)
    ensures c.Refused? || c == Codes(bytes, ends, codes)
    ensures c.Codes? ==> |bytes| <= 0x7FFF_FFFF && 4 * |ends| <= 0x7FFF_FFFF && 4 * |codes| <= 0x7FFF_FFFF && InOrder(ends, |bytes|) && forall r :: 0 <= r < |codes| ==> codes[r] < |ends|
    ensures roomy && |bytes| <= 0x7FFF_FFFF && 4 * |ends| <= 0x7FFF_FFFF && 4 * |codes| <= 0x7FFF_FFFF && Checked(Codes(bytes, ends, codes)) ==> c.Codes?
  {
    var at := Put(|bytes|, roomy);
    if !at.At? {
      return Refused;
    }
    var offsets := Put(4 * |ends|, roomy);
    if !offsets.At? {
      return Refused;
    }
    var rows := Put(4 * |codes|, roomy);
    if !rows.At? || !InOrder(ends, |bytes| % U32) || exists r :: 0 <= r < |codes| && codes[r] >= |ends| {
      return Refused;
    }
    var room := *;
    return if roomy || room then Codes(bytes, ends, codes) else Refused;
  }

  // ---------------------------------------------------------------- cutting

  /** The bytes between the end before place `k` and its own. */
  function CutAt(bytes: seq<byte>, ends: seq<nat>, k: nat): seq<byte>
    requires k < |ends| && InOrder(ends, |bytes|)
  {
    bytes[if k == 0 then 0 else ends[k - 1]..ends[k]]
  }

  /** What the module has checked of a column it holds. */
  ghost predicate Checked(c: Column)
  {
    match c
    case Refused => false
    case Texts(bytes, ends, missing) => InOrder(ends, |bytes|) && |missing| == |ends|
    case Codes(bytes, ends, codes) => InOrder(ends, |bytes|) && forall r :: 0 <= r < |codes| ==> codes[r] < |ends|
  }

  function RowsIn(c: Column): nat
  {
    match c case Refused => 0 case Texts(_, ends, _) => |ends| case Codes(_, _, codes) => |codes|
  }

  /** A row's bytes as the writer gets them, or a null. */
  function Get(c: Column, r: nat): Option<seq<byte>>
    requires Checked(c) && r < RowsIn(c)
  {
    if c.Texts? then
      if c.missing[r] then None else Some(CutAt(c.bytes, c.ends, r))
    else if c.codes[r] < 0 then None
    else Some(CutAt(c.bytes, c.ends, c.codes[r]))
  }

  ghost predicate EndsOf(ends: seq<nat>, texts: seq<Text>)
  {
    |ends| == |texts| && forall i :: 0 <= i < |ends| ==> ends[i] == EndOf(texts, i) % 0x1_0000_0000
  }

  /** In less than 4 GiB the ends are in order, and cut at them each text comes back. */
  lemma CutPacked(texts: seq<Text>, ends: seq<nat>)
    requires EndsOf(ends, texts) && |Packed(texts)| < U32
    ensures InOrder(ends, |Packed(texts)|)
    ensures forall i :: 0 <= i < |texts| ==> CutAt(Packed(texts), ends, i) == BytesOf(texts[i])
  {
    hide Packed, BytesOf, EndsOf;
    NonePacked(texts);
    SameLength(ends, texts);
    forall i | 0 <= i < |texts|
      ensures ends[i] == EndOf(texts, i) <= |Packed(texts)| && (i > 0 ==> ends[i - 1] == EndOf(texts, i - 1) <= ends[i])
    {
      EndKept(texts, ends, i);
      PackedCut(texts, i);
      if i > 0 {
        EndKept(texts, ends, i - 1);
      }
    }
    forall i | 0 <= i < |texts|
      ensures CutAt(Packed(texts), ends, i) == BytesOf(texts[i])
    {
      PackedCut(texts, i);
    }
  }

  lemma EndKept(texts: seq<Text>, ends: seq<nat>, i: nat)
    requires EndsOf(ends, texts) && |Packed(texts)| < U32 && i < |texts|
    ensures i < |ends| && ends[i] == EndOf(texts, i) <= |Packed(texts)|
  {
    hide Packed;
    PackedCut(texts, i);
  }

  lemma NonePacked(texts: seq<Text>)
    ensures Packed(texts[..0]) == []
  {}

  /** The text packed for a row: a missing row is empty. */
  function RowText(row: Option<Text>): Text
  {
    match row case None => Str([]) case Some(t) => t
  }

  function RowTexts(rows: seq<Option<Text>>): (texts: seq<Text>)
    ensures |texts| == |rows| && forall i :: 0 <= i < |rows| ==> texts[i] == RowText(rows[i])
  {
    if rows == [] then [] else RowTexts(rows[..|rows| - 1]) + [RowText(rows[|rows| - 1])]
  }

  function RowBytes(row: Option<Text>): Option<seq<byte>>
  {
    match row case None => None case Some(t) => Some(BytesOf(t))
  }

  /** Every row of a column comes back. */
  ghost predicate AllRight(rows: seq<Option<Text>>, c: Column)
  {
    Checked(c) && RowsIn(c) == |rows| && forall r :: 0 <= r < |rows| ==> Get(c, r) == RowBytes(rows[r])
  }

  /** A column of less than 4 GiB, packed a text a row, passes the module's check and every row of it comes back. */
  lemma ColumnRead(rows: seq<Option<Text>>, ends: seq<nat>, missing: seq<bool>)
    requires EndsOf(ends, RowTexts(rows)) && |missing| == |rows| && |Packed(RowTexts(rows))| < U32
    requires forall r :: 0 <= r < |rows| ==> missing[r] == (rows[r] == None)
    ensures AllRight(rows, Texts(Packed(RowTexts(rows)), ends, missing))
  {
    hide Packed, BytesOf, CutAt, InOrder, EndsOf;
    var texts := RowTexts(rows);
    SameLength(ends, texts);
    CutPacked(texts, ends);
    var c := Texts(Packed(texts), ends, missing);
    forall r | 0 <= r < |rows|
      ensures Get(c, r) == RowBytes(rows[r])
    {
      assert CutAt(Packed(texts), ends, r) == BytesOf(texts[r]);
    }
  }

  lemma SameLength(ends: seq<nat>, texts: seq<Text>)
    requires EndsOf(ends, texts)
    ensures |ends| == |texts|
  {}

  /** A column's rows: none where there is no value or the row is flagged missing. */
  function Rows(values: seq<Option<Text>>, flagged: seq<bool>): (rows: seq<Option<Text>>)
    requires |flagged| == |values|
    ensures |rows| == |values| && forall i :: 0 <= i < |rows| ==> rows[i] == if flagged[i] then None else values[i]
  {
    seq(|values|, i requires 0 <= i < |values| => if flagged[i] then None else values[i])
  }

  /** A text a row, a missing row packed as nothing and flagged. */
  method PackRows(values: seq<Option<Text>>, flagged: seq<bool>, longest: nat)
    returns (ok: bool, bytes: seq<byte>, ends: seq<nat>, missing: seq<bool>)
    requires |flagged| == |values|
    ensures var rows := Rows(values, flagged);
            && |missing| == |rows| && (forall r :: 0 <= r < |rows| ==> missing[r] == (rows[r] == None))
            && (ok <==> !ByBlocks(RowTexts(rows)) || Joinable(RowTexts(rows), longest))
            && (ok ==> bytes == Packed(RowTexts(rows)) && EndsOf(ends, RowTexts(rows)))
  {
    hide Packed, ByBlocks, Joinable, EndsOf;
    ghost var rows := Rows(values, flagged);
    var texts: seq<Text> := [];
    missing := [];
    var i := 0;
    while i < |values|
      invariant i <= |values| && |texts| == |missing| == i
      invariant forall k :: 0 <= k < i ==> missing[k] == (rows[k] == None) && texts[k] == RowText(rows[k])
    {
      var none := flagged[i] || values[i] == None;
      missing := missing + [none];
      texts := texts + [if none then Str([]) else values[i].value];
      i := i + 1;
    }
    assert texts == RowTexts(rows);
    ok, bytes, ends := PackTexts(texts, longest);
  }

  // ---------------------------------------------------------------- codes

  /** Rows sampled to judge whether a longer column's text repeats. */
  const CODE_PROBE: nat := 4096

  /** The values among the first `n` rows sampled, rows spread over the column, and how many rows have one. */
  function Sample(rows: seq<Option<Text>>, n: nat): (set<Text>, nat)
    requires n <= CODE_PROBE && rows != []
  {
    if n == 0 then ({}, 0) else
    var (found, looked) := Sample(rows, n - 1);
    var x := rows[Probe(n - 1, |rows|)];
    if x == None then (found, looked) else (found + {x.value}, looked + 1)
  }

  function Probe(j: nat, n: nat): (i: nat)
    requires j < CODE_PROBE && n > 0
    ensures i < n
  {
    j * n / CODE_PROBE
  }

  /** The rows sampled begin at the first, lie a 4096th of the column apart, rounded one way or the other, and reach into its last 4096th. */
  lemma ProbesSpread(j: nat, n: nat)
    requires j < 4095 && n > 8192
    ensures Probe(0, n) == 0 && n - n / 4096 - 1 <= Probe(4095, n) < n
    ensures n / 4096 <= Probe(j + 1, n) - Probe(j, n) <= n / 4096 + 1
  {
    ProbeParts(j, n);
    ProbeParts(j + 1, n);
    ProbeParts(4095, n);
    assert (j + 1) * (n / 4096) == j * (n / 4096) + n / 4096 && (j + 1) * (n % 4096) == j * (n % 4096) + n % 4096;
  }

  lemma ProbeParts(j: nat, n: nat)
    requires j < CODE_PROBE && n > 0
    ensures Probe(j, n) == j * (n / 4096) + j * (n % 4096) / 4096
  {
    var q, r := n / 4096, n % 4096;
    assert j * n == j * (q * 4096 + r) == (j * q) * 4096 + j * r;
  }

  /** More than half of the rows a sample looks at differ; a short column is not sampled. */
  predicate Varied(rows: seq<Option<Text>>)
  {
    |rows| > 2 * CODE_PROBE && var (found, looked) := Sample(rows, CODE_PROBE); 2 * |found| > looked
  }

  method LooksVaried(rows: seq<Option<Text>>) returns (varied: bool)
    ensures varied <==> Varied(rows)
  {
    if |rows| <= 2 * CODE_PROBE {
      return false;
    }
    var found: set<Text>, looked: nat := {}, 0;
    var j: nat := 0;
    while j < CODE_PROBE
      invariant j <= CODE_PROBE && Sample(rows, j) == (found, looked)
    {
      var x := rows[Probe(j, |rows|)];
      if x != None {
        found := found + {x.value};
        looked := looked + 1;
      }
      j := j + 1;
    }
    return 2 * |found| > looked;
  }

  /** The most distinct values a column's codes may be of. */
  function MostDistinct(n: nat): (most: nat)
    ensures if n < 2048 then most == 256 else 8 * most <= n < 8 * most + 8
  {
    if n / 8 > 256 then n / 8 else 256
  }

  /** Each row's code is the place of its value, or -1. */
  ghost predicate CodesAre(rows: seq<Option<Text>>, distinct: seq<Text>, codes: seq<int>)
  {
    && |codes| <= |rows|
    && forall i :: 0 <= i < |codes| ==>
         if rows[i] == None then codes[i] == -1 else 0 <= codes[i] < |distinct| && distinct[codes[i]] == rows[i].value
  }

  /** The map gives the place of each distinct value, and of no other. */
  ghost predicate Seen(seen: map<Text, nat>, distinct: seq<Text>)
  {
    && (forall x :: x in seen ==> seen[x] < |distinct| && distinct[seen[x]] == x)
    && forall k :: 0 <= k < |distinct| ==> distinct[k] in seen && seen[distinct[k]] == k
  }

  /** Values of the rows, each once. */
  ghost predicate DistinctIn(distinct: seq<Text>, rows: seq<Option<Text>>)
  {
    && (forall i, j :: 0 <= i < j < |distinct| ==> distinct[i] != distinct[j])
    && forall k :: 0 <= k < |distinct| ==> Some(distinct[k]) in rows
  }

  /** The values the rows have. */
  ghost function Values(rows: seq<Option<Text>>): set<Text>
  {
    set r | r in rows && r != None :: r.value
  }

  /** No sample varies, and few enough values differ. */
  ghost predicate Repeats(rows: seq<Option<Text>>)
  {
    !Varied(rows) && |Values(rows)| <= MostDistinct(|rows|)
  }

  lemma {:induction false} EachOnce(distinct: seq<Text>)
    requires forall i, j :: 0 <= i < j < |distinct| ==> distinct[i] != distinct[j]
    ensures |set x | x in distinct| == |distinct|
  {
    if distinct != [] {
      var n := |distinct| - 1;
      EachOnce(distinct[..n]);
      assert (set x | x in distinct) == (set x | x in distinct[..n]) + {distinct[n]};
    }
  }

  /** When every value is among the distinct, there are as many values; when one is not, there are more. */
  lemma ValuesCounted(rows: seq<Option<Text>>, distinct: seq<Text>)
    requires DistinctIn(distinct, rows)
    ensures if forall r :: r in rows && r != None ==> r.value in distinct then |Values(rows)| == |distinct| else |Values(rows)| > |distinct|
  {
    EachOnce(distinct);
    var among := set x | x in distinct;
    forall x | x in distinct
      ensures x in Values(rows)
    {
      assert Some(x).value == x;
    }
    if forall r :: r in rows && r != None ==> r.value in distinct {
      assert Values(rows) == among;
    } else {
      var r :| r in rows && r != None && r.value !in distinct;
      assert r.value in Values(rows) - among;
      assert Values(rows) == among + (Values(rows) - among);
    }
  }

  lemma TooMany(rows: seq<Option<Text>>, distinct: seq<Text>, i: nat)
    requires DistinctIn(distinct, rows) && |distinct| >= MostDistinct(|rows|) && i < |rows| && rows[i] != None && rows[i].value !in distinct
    ensures !Repeats(rows)
  {
    hide Varied, DistinctIn, Values;
    ValuesCounted(rows, distinct);
    assert rows[i] in rows;
  }

  lemma FewEnough(rows: seq<Option<Text>>, distinct: seq<Text>, codes: seq<int>)
    requires DistinctIn(distinct, rows) && |codes| == |rows| && CodesAre(rows, distinct, codes)
    requires |distinct| <= MostDistinct(|rows|) && !Varied(rows)
    ensures Repeats(rows)
  {
    hide Varied, DistinctIn, Values;
    ValuesCounted(rows, distinct);
  }

  /** Rows as codes of distinct values, when the values repeat. */
  method TextCodes(rows: seq<Option<Text>>) returns (coded: bool, distinct: seq<Text>, codes: seq<int>)
    ensures coded <==> Repeats(rows)
    ensures coded ==> |codes| == |rows| && CodesAre(rows, distinct, codes) && |distinct| <= MostDistinct(|rows|)
    ensures DistinctIn(distinct, rows) && |Packed(distinct)| <= |Packed(RowTexts(rows))|
  {
    hide Varied, Packed, DistinctIn, Seen, Values, RowTexts;
    codes, distinct := [], [];
    NoneSeen(rows);
    coded := LooksVaried(rows);
    if coded {
      return false, distinct, codes;
    }
    hide Repeats;
    var seen: map<Text, nat> := map[];
    var i := 0;
    while i < |rows|
      invariant |codes| == i <= |rows| && Seen(seen, distinct) && CodesAre(rows, distinct, codes)
      invariant DistinctIn(distinct, rows) && |distinct| <= MostDistinct(|rows|)
      invariant |Packed(distinct)| <= |Packed(RowTexts(rows)[..i])|
    {
      PackedRow(rows, distinct, i);
      if rows[i] == None {
        codes := codes + [-1];
      } else {
        var x := rows[i].value;
        SeenAt(seen, distinct, rows, i);
        if x !in seen {
          if |distinct| >= MostDistinct(|rows|) {
            PackedCut(RowTexts(rows), i);
            TooMany(rows, distinct, i);
            return false, distinct, codes;
          }
          seen := seen[x := |distinct|];
          distinct := distinct + [x];
        }
        codes := codes + [seen[x]];
      }
      i := i + 1;
    }
    assert RowTexts(rows)[..i] == RowTexts(rows);
    FewEnough(rows, distinct, codes);
    return true, distinct, codes;
  }

  lemma NoneSeen(rows: seq<Option<Text>>)
    ensures Packed([]) == Packed(RowTexts(rows)[..0]) == [] && Seen(map[], []) && DistinctIn([], rows)
  {}

  /** A row's value is one of the distinct, at the place the map gives, or becomes the last of them. */
  lemma SeenAt(seen: map<Text, nat>, distinct: seq<Text>, rows: seq<Option<Text>>, i: nat)
    requires Seen(seen, distinct) && DistinctIn(distinct, rows) && i < |rows| && rows[i] != None
    ensures var x := rows[i].value;
            if x in seen then seen[x] < |distinct| && distinct[seen[x]] == x
            else x !in distinct && Seen(seen[x := |distinct|], distinct + [x]) && DistinctIn(distinct + [x], rows)
  {}

  /** One row more takes no less than the value it may add. */
  lemma PackedRow(rows: seq<Option<Text>>, distinct: seq<Text>, i: nat)
    requires i < |rows|
    ensures |Packed(RowTexts(rows)[..i + 1])| >= |Packed(RowTexts(rows)[..i])|
    ensures rows[i] != None ==>
              |Packed(distinct + [rows[i].value])| - |Packed(distinct)| == |Packed(RowTexts(rows)[..i + 1])| - |Packed(RowTexts(rows)[..i])|
  {
    hide BytesOf;
    PackedPush(RowTexts(rows), i);
    if rows[i] != None {
      var more := distinct + [rows[i].value];
      assert more[..|distinct|] == distinct;
    }
  }

  /** A column of less than 4 GiB of distinct values, packed so, passes the module's checks and every row of it comes back. */
  lemma CodesRead(rows: seq<Option<Text>>, distinct: seq<Text>, ends: seq<nat>, codes: seq<int>)
    requires |codes| == |rows| && CodesAre(rows, distinct, codes)
    requires EndsOf(ends, distinct) && |Packed(distinct)| < U32
    ensures AllRight(rows, Codes(Packed(distinct), ends, codes))
  {
    hide Packed, BytesOf, CutAt, InOrder, EndsOf;
    SameLength(ends, distinct);
    CutPacked(distinct, ends);
    var c := Codes(Packed(distinct), ends, codes);
    assert forall r :: 0 <= r < |codes| ==> codes[r] < |ends|;
    forall r | 0 <= r < |rows|
      ensures Get(c, r) == RowBytes(rows[r])
    {
      if rows[r] != None {
        assert CutAt(Packed(distinct), ends, codes[r]) == BytesOf(distinct[codes[r]]);
      }
    }
  }

  // ---------------------------------------------------------------- a column

  /** A column of bytes: it is said to be (`typed`), or has bytes among its rows. */
  ghost predicate OfBytes(rows: seq<Option<Text>>, typed: bool)
  {
    typed || exists i :: 0 <= i < |rows| && rows[i] != None && rows[i].value.Raw?
  }

  method IsBinary(rows: seq<Option<Text>>, typed: bool) returns (binary: bool)
    ensures binary <==> OfBytes(rows, typed)
  {
    binary := typed;
    var i := 0;
    while i < |rows|
      invariant i <= |rows|
      invariant binary <==> typed || exists k :: 0 <= k < i && rows[k] != None && rows[k].value.Raw?
    {
      if rows[i] != None && rows[i].value.Raw? {
        binary := true;
      }
      i := i + 1;
    }
  }

  /** What is packed of a column, and in which form: each distinct value of strings that repeat, else each row's text. */
  ghost predicate PackedOf(packed: seq<Text>, rows: seq<Option<Text>>, typed: bool, c: Column)
  {
    if OfBytes(rows, typed) || !Repeats(rows) then packed == RowTexts(rows) && !c.Codes? else DistinctIn(packed, rows) && !c.Texts?
  }

  /** No block is too long to join, and every buffer fits the module. */
  ghost predicate Fitting(packed: seq<Text>, n: nat, longest: nat)
  {
    (!ByBlocks(packed) || Joinable(packed, longest)) && |Packed(packed)| <= 0x7FFF_FFFF && 4 * n <= 0x7FFF_FFFF
  }

  /**
   Write a text column: the module holds it so that every row comes back,
   or writing fails; and memory aside, it fails exactly when what is
   packed does not fit.
   */
  method WriteText(values: seq<Option<Text>>, flagged: seq<bool>, typed: bool, longest: nat, roomy: bool)
    returns (c: Column, ghost packed: seq<Text>)
    requires |flagged| == |values|
    ensures !c.Refused? ==> AllRight(Rows(values, flagged), c)
    ensures PackedOf(packed, Rows(values, flagged), typed, c) && |Packed(packed)| <= |Packed(RowTexts(Rows(values, flagged)))|
    ensures !c.Refused? ==> Fitting(packed, |values|, longest)
    ensures roomy && Fitting(packed, |values|, longest) ==> !c.Refused?
  {
    hide Packed, AllRight, DistinctIn, CodesAre, EndsOf, InOrder, ByBlocks, Joinable, Repeats;
    var rows := Rows(values, flagged);
    packed := RowTexts(rows);
    var binary := IsBinary(rows, typed);
    if !binary {
      var coded, distinct, codes := TextCodes(rows);
      if coded {
        packed := distinct;
        c := WriteDistinct(rows, distinct, codes, longest, roomy);
        return;
      }
    }
    var ok, bytes, ends, missing := PackRows(values, flagged, longest);
    if !ok {
      return Refused, packed;
    }
    SameLength(ends, packed);
    if |bytes| < U32 {
      ColumnRead(rows, ends, missing);
      CutPacked(packed, ends);
    }
    c := WriteTexts(bytes, ends, missing, roomy);
  }

  method WriteDistinct(rows: seq<Option<Text>>, distinct: seq<Text>, codes: seq<int>, longest: nat, roomy: bool) returns (c: Column)
    requires |codes| == |rows| && CodesAre(rows, distinct, codes) && |distinct| <= MostDistinct(|rows|)
    ensures !c.Refused? ==> c.Codes? && AllRight(rows, c) && Fitting(distinct, |rows|, longest)
    ensures roomy && Fitting(distinct, |rows|, longest) ==> !c.Refused?
  {
    hide Packed, AllRight, EndsOf, InOrder, ByBlocks, Joinable;
    var ok, bytes, ends := PackTexts(distinct, longest);
    if !ok {
      return Refused;
    }
    SameLength(ends, distinct);
    if |bytes| < U32 {
      CodesRead(rows, distinct, ends, codes);
      CutPacked(distinct, ends);
    }
    assert |codes| <= MOST / 4 ==> 4 * |distinct| <= MOST;
    assert forall r :: 0 <= r < |codes| ==> codes[r] < |ends|;
    c := WriteCodes(bytes, ends, codes, roomy);
  }
}
