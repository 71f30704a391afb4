/** `crates/dta/src/strl_index.rs`: an index written to bytes and read from them. */
module StrlBytes {
  import opened Wrappers
  import opened Bits
  import opened StrlIndex

  // ---------------------------------------------------------------- little-endian integers

  /** `n` bytes of `x`, the lowest first. */
  function Le(x: nat, n: nat): (b: seq<byte>)
    ensures |b| == n
  {
    if n == 0 then [] else [x % 256] + Le(x / 256, n - 1)
  }

  function FromLe(b: seq<byte>): nat
  {
    if b == [] then 0 else b[0] + 256 * FromLe(b[1..])
  }

  /** `x` is an unsigned integer of `n` bytes. */
  predicate Fits(x: nat, n: nat)
  {
    if n == 0 then x == 0 else Fits(x / 256, n - 1)
  }

  lemma {:induction false} LeRound(x: nat, n: nat)
    requires Fits(x, n)
    ensures FromLe(Le(x, n)) == x
  {
    if n > 0 {
      LeRound(x / 256, n - 1);
      assert Le(x, n)[1..] == Le(x / 256, n - 1);
    }
  }

  lemma {:induction false} FromLeRound(b: seq<byte>)
    ensures Fits(FromLe(b), |b|) && Le(FromLe(b), |b|) == b
  {
    if b != [] {
      FromLeRound(b[1..]);
      assert b == [b[0]] + b[1..];
    }
  }

  lemma {:induction false} FitsPow2(x: nat, n: nat)
    ensures Fits(x, n) <==> x < Pow2(8 * n)
  {
    if n > 0 {
      FitsPow2(x / 256, n - 1);
      EightBits(8 * n - 8);
    }
  }

  lemma EightBits(k: nat)
    ensures Pow2(k + 8) == 256 * Pow2(k)
  {
    assert Pow2(k + 2) == 4 * Pow2(k);
    assert Pow2(k + 4) == 4 * Pow2(k + 2);
    assert Pow2(k + 6) == 4 * Pow2(k + 4);
  }

  // ---------------------------------------------------------------- arrays of integers

  /** The bytes of `count` integers of `n` bytes. */
  function Size(count: nat, n: nat): nat
  {
    if count == 0 then 0 else n + Size(count - 1, n)
  }

  lemma {:induction false} SizeIs(count: nat)
    ensures Size(count, 8) == count * 8 && Size(count, 4) == count * 4
  {
    if count > 0 {
      SizeIs(count - 1);
    }
  }

  function Les(xs: seq<nat>, n: nat): (b: seq<byte>)
    ensures |b| == Size(|xs|, n)
  {
    if xs == [] then [] else Le(xs[0], n) + Les(xs[1..], n)
  }

  /** `count` integers of `n` bytes from the front of `b`. */
  function FromLes(b: seq<byte>, n: nat, count: nat): (xs: seq<nat>)
    requires Size(count, n) <= |b|
    ensures |xs| == count
    decreases count
  {
    if count == 0 then [] else [FromLe(b[..n])] + FromLes(b[n..], n, count - 1)
  }

  ghost predicate AllFit(xs: seq<nat>, n: nat)
  {
    forall i :: 0 <= i < |xs| ==> Fits(xs[i], n)
  }

  lemma {:induction false} LesRound(xs: seq<nat>, n: nat)
    requires AllFit(xs, n)
    ensures FromLes(Les(xs, n), n, |xs|) == xs
  {
    hide Le, FromLe;
    if xs != [] {
      var b := Les(xs, n);
      assert b[..n] == Le(xs[0], n);
      assert b[n..] == Les(xs[1..], n);
      LeRound(xs[0], n);
      LesRound(xs[1..], n);
    }
  }

  lemma {:induction false} FromLesRound(b: seq<byte>, n: nat, count: nat)
    requires |b| == Size(count, n)
    ensures AllFit(FromLes(b, n, count), n) && Les(FromLes(b, n, count), n) == b
    decreases count
  {
    hide Le, FromLe;
    if count > 0 {
      FromLesRound(b[n..], n, count - 1);
      FromLeRound(b[..n]);
      var xs := FromLes(b, n, count);
      assert xs[1..] == FromLes(b[n..], n, count - 1);
      assert b == b[..n] + b[n..];
    }
  }

  lemma {:induction false} FromLesAt(b: seq<byte>, n: nat, count: nat, i: nat)
    requires Size(count, n) <= |b| && i < count
    ensures Size(i, n) + n <= |b|
    ensures FromLes(b, n, count)[i] == FromLe(b[Size(i, n)..Size(i, n) + n])
    decreases count
  {
    hide Le, FromLe;
    if i > 0 {
      FromLesAt(b[n..], n, count - 1, i - 1);
      InTail(b, n, Size(i - 1, n));
    }
  }

  lemma InTail(b: seq<byte>, n: nat, p: nat)
    requires n + p + n <= |b|
    ensures b[n..][p..p + n] == b[n + p..n + p + n]
  {}

  // ---------------------------------------------------------------- the layout

  /** The file an index is of, as its header has it. */
  datatype Shape = Shape(fileLen: nat, release: nat, bigEndian: bool, nobs: nat, nvar: nat, start: nat, end: nat)
  {
    /** The widths of the fields. */
    predicate Fit()
    {
      && Fits(fileLen, 8) && Fits(release, 4) && Fits(nobs, 8) && Fits(nvar, 8)
      && Fits(start, 8) && Fits(end, 8)
    }
  }

  datatype Mismatch = NotAnIndex | UnknownVersion | OtherFile | BadCount | BadLength | OutOfOrder | Outside

  datatype Result = Ok(index: Arrays) | Err(mismatch: Mismatch)

  const HEAD: nat := 72

  function Magic(): (b: seq<byte>)
    ensures |b| == 8 && forall i :: 0 <= i < 8 ==> b[i] as char == "DTASTRLX"[i]
  {
    [0x44, 0x54, 0x41, 0x53, 0x54, 0x52, 0x4C, 0x58]
  }

  /** The header after the magic, and then `rest`. */
  function Head(s: Shape, n: nat, rest: seq<byte>): seq<byte>
  {
    Le(1, 4) + (Le(0, 4) + (Le(s.fileLen, 8) + (Le(s.release, 4) + (Le(if s.bigEndian then 1 else 0, 4)
      + (Le(s.nobs, 8) + (Le(s.nvar, 8) + (Le(s.start, 8) + (Le(s.end, 8) + (Le(n, 8) + rest)))))))))
  }

  function Body(a: Arrays): seq<byte>
  {
    Les(a.keys, 8) + (Les(a.offsets, 8) + (Les(a.lens, 4) + Les(a.binary, 8)))
  }

  /** The bytes of an index. */
  function Encoded(a: Arrays, s: Shape): seq<byte>
  {
    Magic() + Head(s, |a.keys|, Body(a))
  }

  method ToBytes(a: Arrays, s: Shape) returns (out: seq<byte>)
    ensures out == Encoded(a, s)
  {
    hide Le, Les, Magic;
    var head := HeadBytes(s, |a.keys|);
    out := Extend(head, a.keys, 8);
    out := Extend(out, a.offsets, 8);
    out := Extend(out, a.lens, 4);
    out := Extend(out, a.binary, 8);
    HeadIs(s, |a.keys|, Body(a), head);
    assert out == head + Body(a);
  }

  /** The magic and the header. */
  method HeadBytes(s: Shape, n: nat) returns (out: seq<byte>)
    ensures out == Magic() + Le(1, 4) + Le(0, 4) + Le(s.fileLen, 8) + Le(s.release, 4)
             + Le(if s.bigEndian then 1 else 0, 4) + Le(s.nobs, 8) + Le(s.nvar, 8) + Le(s.start, 8) + Le(s.end, 8) + Le(n, 8)
  {
    hide Le, Magic;
    out := Magic();
    out := out + Le(1, 4);
    out := out + Le(0, 4);
    out := out + Le(s.fileLen, 8);
    out := out + Le(s.release, 4);
    out := out + Le(if s.bigEndian then 1 else 0, 4);
    out := out + Le(s.nobs, 8);
    out := out + Le(s.nvar, 8);
    out := out + Le(s.start, 8);
    out := out + Le(s.end, 8);
    out := out + Le(n, 8);
  }

  lemma HeadIs(s: Shape, n: nat, rest: seq<byte>, out: seq<byte>)
    requires out == Magic() + Le(1, 4) + Le(0, 4) + Le(s.fileLen, 8) + Le(s.release, 4)
             + Le(if s.bigEndian then 1 else 0, 4) + Le(s.nobs, 8) + Le(s.nvar, 8) + Le(s.start, 8) + Le(s.end, 8) + Le(n, 8)
    ensures out + rest == Magic() + Head(s, n, rest)
  {
    hide Le, Magic;
  }

  /** Append each of `xs` in `n` bytes. */
  method Extend(bytes: seq<byte>, xs: seq<nat>, n: nat) returns (out: seq<byte>)
    ensures out == bytes + Les(xs, n)
  {
    out := bytes;
    var i := 0;
    while i < |xs|
      invariant i <= |xs| && out + Les(xs[i..], n) == bytes + Les(xs, n)
    {
      assert xs[i..][1..] == xs[i + 1..];
      assert out + (Le(xs[i], n) + Les(xs[i + 1..], n)) == (out + Le(xs[i], n)) + Les(xs[i + 1..], n);
      out := out + Le(xs[i], n);
      i := i + 1;
    }
  }

  // ---------------------------------------------------------------- reading it back

  function Half(b: seq<byte>, at: nat): nat
    requires at + 4 <= |b|
  {
    FromLe(b[at..at + 4])
  }

  function Word(b: seq<byte>, at: nat): nat
    requires at + 8 <= |b|
  {
    FromLe(b[at..at + 8])
  }

  function ShapeAt(b: seq<byte>): Shape
    requires |b| >= HEAD
  {
    Shape(Word(b, 16), Half(b, 24), Half(b, 28) != 0, Word(b, 32), Word(b, 40), Word(b, 48), Word(b, 56))
  }

  /** The bytes `n` entries take after the header. */
  function BodySize(n: nat): nat
  {
    Size(n, 8) + Size(n, 8) + Size(n, 4) + Size((n + 63) / 64, 8)
  }

  /** What is wrong with the header, if anything; counts do not exceed `max` here. */
  function HeadFault(b: seq<byte>, s: Shape, max: nat): (f: Option<Mismatch>)
    ensures f == None ==> |b| >= HEAD && |b| == HEAD + BodySize(Word(b, 64))
  {
    if |b| < HEAD || b[..8] != Magic() then Some(NotAnIndex)
    else if Half(b, 8) != 1 then Some(UnknownVersion)
    else if ShapeAt(b) != s then Some(OtherFile)
    else if Word(b, 64) > max then Some(BadCount)
    else if HEAD + BodySize(Word(b, 64)) != |b| then Some(BadLength)
    else None
  }

  /** The arrays after the header. */
  function ArraysAt(b: seq<byte>, n: nat): (a: Arrays)
    requires |b| == HEAD + BodySize(n)
    ensures |a.keys| == |a.offsets| == |a.lens| == n && |a.binary| == (n + 63) / 64
  {
    var offsets := HEAD + Size(n, 8);
    var lens := offsets + Size(n, 8);
    var bits := lens + Size(n, 4);
    Arrays(FromLes(b[HEAD..offsets], 8, n), FromLes(b[offsets..lens], 8, n), FromLes(b[lens..bits], 4, n),
           FromLes(b[bits..], 8, (n + 63) / 64))
  }

  /** What is wrong with the first entry, from `i`, that anything is wrong with. */
  function EntryFault(a: Arrays, s: Shape, i: nat): Option<Mismatch>
    requires |a.keys| == |a.offsets| == |a.lens| && i <= |a.keys|
    decreases |a.keys| - i
  {
    if i == |a.keys| then None
    else if i > 0 && a.keys[i] <= a.keys[i - 1] then Some(OutOfOrder)
    else if a.offsets[i] < s.start || a.offsets[i] + a.lens[i] > s.end then Some(Outside)
    else EntryFault(a, s, i + 1)
  }

  /** What reading `b` as an index of a file of shape `s` gives. */
  function Decoded(b: seq<byte>, s: Shape, max: nat): Result
  {
    var fault := HeadFault(b, s, max);
    if fault != None then Err(fault.value) else
    var a := ArraysAt(b, Word(b, 64));
    var wrong := EntryFault(a, s, 0);
    if wrong != None then Err(wrong.value) else Ok(a)
  }

  /** Every payload is inside the section. */
  ghost predicate Inside(a: Arrays, s: Shape)
    requires |a.offsets| == |a.lens|
  {
    forall i :: 0 <= i < |a.offsets| ==> s.start <= a.offsets[i] && a.offsets[i] + a.lens[i] <= s.end
  }

  /** No entry is at fault exactly when keys increase and payloads are inside the section. */
  lemma {:induction false} EntriesChecked(a: Arrays, s: Shape, i: nat)
    requires |a.keys| == |a.offsets| == |a.lens| && i <= |a.keys|
    requires forall j :: 0 < j < i ==> a.keys[j - 1] < a.keys[j]
    requires forall j :: 0 <= j < i ==> s.start <= a.offsets[j] && a.offsets[j] + a.lens[j] <= s.end
    ensures EntryFault(a, s, i) == None <==> Increasing(a.keys) && Inside(a, s)
    decreases |a.keys| - i
  {
    if i == |a.keys| {
      StepsIncrease(a.keys);
    } else if !(i > 0 && a.keys[i] <= a.keys[i - 1]) && !(a.offsets[i] < s.start || a.offsets[i] + a.lens[i] > s.end) {
      EntriesChecked(a, s, i + 1);
    }
  }

  lemma Next(b: seq<byte>, at: nat, x: nat, n: nat, rest: seq<byte>)
    requires at <= |b| && b[at..] == Le(x, n) + rest && Fits(x, n)
    ensures at + n <= |b| && FromLe(b[at..at + n]) == x && b[at + n..] == rest
  {
    LeRound(x, n);
    assert b[at..][..n] == b[at..at + n];
    assert b[at..][n..] == b[at + n..];
  }

  lemma Back(b: seq<byte>, at: nat, n: nat, rest: seq<byte>)
    requires at + n <= |b| && b[at + n..] == rest
    ensures b[at..] == Le(FromLe(b[at..at + n]), n) + rest
  {
    FromLeRound(b[at..at + n]);
  }

  /** What the fields of a written header read as. */
  lemma HeadRead(s: Shape, n: nat, rest: seq<byte>, b: seq<byte>)
    requires s.Fit() && Fits(n, 8) && b == Magic() + Head(s, n, rest)
    ensures |b| == HEAD + |rest| && b[..8] == Magic() && Half(b, 8) == 1 && Half(b, 12) == 0 && Half(b, 28) <= 1
    ensures ShapeAt(b) == s && Word(b, 64) == n && b[HEAD..] == rest
  {
    hide Le, FromLe, Magic;
    SmallFits();
    hide Fits;
    assert b[8..] == Head(s, n, rest);
    HeadFront(s, n, rest, b);
    HeadBack(s, n, rest, b);
  }

  lemma SmallFits()
    ensures Fits(0, 4) && Fits(1, 4)
  {}

  function HeadRest(s: Shape, n: nat, rest: seq<byte>): seq<byte>
  {
    Le(s.nobs, 8) + (Le(s.nvar, 8) + (Le(s.start, 8) + (Le(s.end, 8) + (Le(n, 8) + rest))))
  }

  lemma HeadFront(s: Shape, n: nat, rest: seq<byte>, b: seq<byte>)
    requires s.Fit() && Fits(0, 4) && Fits(1, 4)
    requires |b| >= 8 && b[8..] == Head(s, n, rest)
    ensures |b| >= 32 && Half(b, 8) == 1 && Half(b, 12) == 0 && Half(b, 28) == if s.bigEndian then 1 else 0
    ensures Word(b, 16) == s.fileLen && Half(b, 24) == s.release && b[32..] == HeadRest(s, n, rest)
  {
    hide Le, FromLe, Fits, Magic;
    var flag := if s.bigEndian then 1 else 0;
    var r4 := Le(flag, 4) + HeadRest(s, n, rest);
    var r3 := Le(s.release, 4) + r4;
    var r2 := Le(s.fileLen, 8) + r3;
    Next(b, 8, 1, 4, Le(0, 4) + r2);
    Next(b, 12, 0, 4, r2);
    Next(b, 16, s.fileLen, 8, r3);
    Next(b, 24, s.release, 4, r4);
    Next(b, 28, flag, 4, HeadRest(s, n, rest));
  }

  lemma HeadBack(s: Shape, n: nat, rest: seq<byte>, b: seq<byte>)
    requires s.Fit() && Fits(n, 8)
    requires |b| >= 32 && b[32..] == HeadRest(s, n, rest)
    ensures |b| == HEAD + |rest| && Word(b, 32) == s.nobs && Word(b, 40) == s.nvar
    ensures Word(b, 48) == s.start && Word(b, 56) == s.end && Word(b, 64) == n && b[HEAD..] == rest
  {
    hide Le, FromLe, Fits, Magic;
    var r9 := Le(n, 8) + rest;
    var r8 := Le(s.end, 8) + r9;
    var r7 := Le(s.start, 8) + r8;
    Next(b, 32, s.nobs, 8, Le(s.nvar, 8) + r7);
    Next(b, 40, s.nvar, 8, r7);
    Next(b, 48, s.start, 8, r8);
    Next(b, 56, s.end, 8, r9);
    Next(b, 64, n, 8, rest);
  }

  /** A header that reads as `s` is the one written for `s`, but for the reserved word and the byte order's value. */
  lemma HeadWritten(b: seq<byte>)
    requires |b| >= HEAD && b[..8] == Magic() && Half(b, 8) == 1
    requires Half(b, 12) == 0 && Half(b, 28) <= 1
    ensures b == Magic() + Head(ShapeAt(b), Word(b, 64), b[HEAD..])
  {
    hide Le, FromLe, Magic, HeadRest;
    RestWritten(b);
    HeadSplit(ShapeAt(b), Word(b, 64), b[HEAD..]);
    Back(b, 28, 4, b[32..]);
    Back(b, 24, 4, b[28..]);
    Back(b, 16, 8, b[24..]);
    Back(b, 12, 4, b[16..]);
    Back(b, 8, 4, b[12..]);
    assert b == b[..8] + b[8..];
  }

  lemma HeadSplit(s: Shape, n: nat, rest: seq<byte>)
    ensures Head(s, n, rest) ==
              Le(1, 4) + (Le(0, 4) + (Le(s.fileLen, 8) + (Le(s.release, 4) + (Le(if s.bigEndian then 1 else 0, 4) + HeadRest(s, n, rest)))))
  {
    hide Le;
  }

  lemma RestWritten(b: seq<byte>)
    requires |b| >= HEAD
    ensures b[32..] == HeadRest(ShapeAt(b), Word(b, 64), b[HEAD..])
  {
    hide Le, FromLe;
    Back(b, 64, 8, b[HEAD..]);
    Back(b, 56, 8, b[64..]);
    Back(b, 48, 8, b[56..]);
    Back(b, 40, 8, b[48..]);
    Back(b, 32, 8, b[40..]);
  }

  /** The widths of the four arrays. */
  ghost predicate ArraysFit(a: Arrays)
  {
    AllFit(a.keys, 8) && AllFit(a.offsets, 8) && AllFit(a.lens, 4) && AllFit(a.binary, 8)
  }

  /** The arrays written read back. */
  lemma BodyRead(a: Arrays, b: seq<byte>)
    requires |a.keys| == |a.offsets| == |a.lens| && |a.binary| == (|a.keys| + 63) / 64 && ArraysFit(a)
    requires |b| >= HEAD && b[HEAD..] == Body(a)
    ensures |b| == HEAD + BodySize(|a.keys|) && ArraysAt(b, |a.keys|) == a
  {
    hide Les, FromLes, AllFit;
    var r3 := Les(a.binary, 8);
    var r2 := Les(a.lens, 4) + r3;
    var r1 := Les(a.offsets, 8) + r2;
    LesRound(a.keys, 8);
    LesRound(a.offsets, 8);
    LesRound(a.lens, 4);
    LesRound(a.binary, 8);
    var n := |a.keys|;
    var o, l, w := HEAD + Size(n, 8), HEAD + Size(n, 8) + Size(n, 8), HEAD + Size(n, 8) + Size(n, 8) + Size(n, 4);
    Split(b, HEAD, o, Les(a.keys, 8), r1);
    Split(b, o, l, Les(a.offsets, 8), r2);
    Split(b, l, w, Les(a.lens, 4), r3);
  }

  lemma Split(b: seq<byte>, at: nat, to: nat, front: seq<byte>, rest: seq<byte>)
    requires at <= |b| && b[at..] == front + rest && to == at + |front|
    ensures to <= |b| && b[at..to] == front && b[to..] == rest
  {
    assert b[at..][..|front|] == b[at..to];
    assert b[at..][|front|..] == b[to..];
  }

  /** The arrays read write back. */
  lemma BodyWritten(b: seq<byte>, n: nat)
    requires |b| == HEAD + BodySize(n)
    ensures ArraysFit(ArraysAt(b, n)) && Body(ArraysAt(b, n)) == b[HEAD..]
  {
    hide Les, FromLes, AllFit;
    var o, l, w := HEAD + Size(n, 8), HEAD + Size(n, 8) + Size(n, 8), HEAD + Size(n, 8) + Size(n, 8) + Size(n, 4);
    FromLesRound(b[HEAD..o], 8, n);
    FromLesRound(b[o..l], 8, n);
    FromLesRound(b[l..w], 4, n);
    FromLesRound(b[w..], 8, (n + 63) / 64);
  }

  lemma WordsFit(words: seq<nat>)
    ensures Words64(words) <==> AllFit(words, 8)
  {
    hide Fits, Pow2;
    forall w: nat | w < |words|
      ensures Fits(words[w], 8) <==> words[w] < Pow2(64)
    {
      FitsPow2(words[w], 8);
    }
  }

  /**
   An index that fits the format, with its payloads in the section, reads
   back from its bytes exactly when it has no words to spare, as one that
   lost entries to the sort does.
   */
  lemma RoundTrip(a: Arrays, s: Shape, max: nat)
    requires s.Fit() && ArraysFit(a) && Fits(|a.keys|, 8) && |a.keys| <= max
    requires a.Held() && Increasing(a.keys) && Inside(a, s)
    ensures Decoded(Encoded(a, s), s, max) == Ok(a) <==> a.Shaped()
  {
    hide Magic, Head, Body, FromLe, Fits, ArraysFit, ArraysAt, BodySize, Increasing, Inside, Words64, Decoded, Encoded;
    if a.Shaped() {
      ReadBack(a, s, max);
    } else if Decoded(Encoded(a, s), s, max) == Ok(a) {
      AcceptedIsIndex(Encoded(a, s), s, max);
    }
  }

  lemma ReadBack(a: Arrays, s: Shape, max: nat)
    requires s.Fit() && a.Shaped() && ArraysFit(a) && Fits(|a.keys|, 8) && |a.keys| <= max
    requires Increasing(a.keys) && Inside(a, s)
    ensures Decoded(Encoded(a, s), s, max) == Ok(a)
  {
    hide Magic, Head, Body, FromLe, Fits, ArraysFit, ArraysAt, BodySize, Increasing, Inside, Words64;
    var b := Encoded(a, s);
    HeadRead(s, |a.keys|, Body(a), b);
    BodyRead(a, b);
    EntriesChecked(a, s, 0);
  }

  /** Bytes of another file's index are never taken. */
  lemma OtherFileRefused(a: Arrays, s: Shape, other: Shape, max: nat)
    requires s.Fit() && Fits(|a.keys|, 8) && s != other
    ensures Decoded(Encoded(a, s), other, max) == Err(OtherFile)
  {
    hide Magic, Head, Body, FromLe, Fits, ArraysAt, BodySize;
    HeadRead(s, |a.keys|, Body(a), Encoded(a, s));
  }

  /** Bytes that are taken give an index whose keys increase and whose payloads are in the section. */
  lemma AcceptedIsIndex(b: seq<byte>, s: Shape, max: nat)
    requires Decoded(b, s, max).Ok?
    ensures var a := Decoded(b, s, max).index;
            a.Shaped() && ArraysFit(a) && Increasing(a.keys) && Inside(a, s) && |a.keys| <= max
  {
    hide FromLe, Magic, BodySize, ArraysAt, Increasing, Inside, Words64, ArraysFit;
    var a := Decoded(b, s, max).index;
    BodyWritten(b, |a.keys|);
    EntriesChecked(a, s, 0);
    assert AllFit(a.binary, 8) by {
      BodyFits(a);
    }
    WordsFit(a.binary);
  }

  lemma BodyFits(a: Arrays)
    requires ArraysFit(a)
    ensures AllFit(a.binary, 8)
  {}

  /** Bytes that are taken are the very bytes of that index, unless the reserved word or the byte order's value is odd. */
  lemma AcceptedExactly(b: seq<byte>, s: Shape, max: nat)
    requires Decoded(b, s, max).Ok? && s.Fit()
    ensures Encoded(Decoded(b, s, max).index, s) == b <==> Half(b, 12) == 0 && Half(b, 28) <= 1
  {
    hide FromLe, Magic, Head, Body, BodySize, ArraysAt, Fits;
    var a := Decoded(b, s, max).index;
    BodyWritten(b, |a.keys|);
    if Half(b, 12) == 0 && Half(b, 28) <= 1 {
      HeadWritten(b);
    }
    if Encoded(a, s) == b {
      CountFits(b);
      HeadRead(s, |a.keys|, Body(a), b);
    }
  }

  lemma CountFits(b: seq<byte>)
    requires |b| >= HEAD
    ensures Fits(Word(b, 64), 8)
  {
    FromLeRound(b[64..72]);
  }

  /** Adopt exported bytes; `TooLarge` when memory is short. */
  method FromBytes(bytes: seq<byte>, s: Shape, max: nat, roomy: bool)
    returns (r: Option<Mismatch>, tooLarge: bool, index: StrlIndex)
    requires s.Fit()
    ensures fresh(index)
    ensures r != None ==> Decoded(bytes, s, max) == Err(r.value)
    ensures r == None && !tooLarge ==> Decoded(bytes, s, max) == Ok(index.Data())
    ensures tooLarge ==> r == None && HeadFault(bytes, s, max) == None && !roomy
  {
    hide FromLe, Magic, BodySize, ArraysAt, FromLes, Size;
    index := new StrlIndex(roomy);
    r := HeadFault(bytes, s, max);
    tooLarge := false;
    if r != None {
      return;
    }
    var room := *;
    if !roomy && !room {
      tooLarge := true;
      return;
    }
    r := ReadEntries(bytes, s, max, index);
    if r == None {
      index.binary := ReadWords(bytes, Word(bytes, 64));
    }
  }

  lemma HeadOk(bytes: seq<byte>, s: Shape, max: nat)
    requires s.Fit() && HeadFault(bytes, s, max) == None
    ensures |bytes| == HEAD + BodySize(Word(bytes, 64))
    ensures var a := ArraysAt(bytes, Word(bytes, 64)); |a.keys| == |a.offsets| == |a.lens| == Word(bytes, 64)
  {
    hide FromLe, Magic, FromLes, Size;
  }

  /** The entries, up to the first that is at fault. */
  method ReadEntries(bytes: seq<byte>, s: Shape, max: nat, index: StrlIndex) returns (r: Option<Mismatch>)
    requires s.Fit() && HeadFault(bytes, s, max) == None && index.keys == index.offsets == index.lens == []
    modifies index
    ensures var a := ArraysAt(bytes, Word(bytes, 64));
            && r == EntryFault(a, s, 0)
            && (r == None ==> index.keys == a.keys && index.offsets == a.offsets && index.lens == a.lens)
  {
    hide FromLe, Magic, BodySize, ArraysAt, FromLes, Size, HeadFault, Word, Half, CheckedEnd;
    HeadOk(bytes, s, max);
    var n := Word(bytes, 64);
    ghost var a := ArraysAt(bytes, n);
    var i: nat := 0;
    while i < n
      invariant i <= n && |index.keys| == |index.offsets| == |index.lens| == i
      invariant index.keys == a.keys[..i] && index.offsets == a.offsets[..i] && index.lens == a.lens[..i]
      invariant EntryFault(a, s, i) == EntryFault(a, s, 0)
      modifies index
    {
      EntryAt(bytes, n, i);
      var k, o, l := Word(bytes, HEAD + i * 8), Word(bytes, HEAD + n * 8 + i * 8), Half(bytes, HEAD + n * 16 + i * 4);
      if i > 0 && k <= index.keys[i - 1] {
        return Some(OutOfOrder);
      }
      if o < s.start || !CheckedEnd(o, l, s) {
        return Some(Outside);
      }
      index.keys, index.offsets, index.lens := index.keys + [k], index.offsets + [o], index.lens + [l];
      i := i + 1;
    }
    return None;
  }

  /** `o.checked_add(l)` is at most the section's end. */
  predicate CheckedEnd(o: nat, l: nat, s: Shape)
    requires s.Fit()
    ensures CheckedEnd(o, l, s) <==> o + l <= s.end
  {
    FitsPow2(s.end, 8);
    o + l < Pow2(64) && o + l <= s.end
  }

  /** Where the fields of entry `i` are. */
  lemma EntryAt(b: seq<byte>, n: nat, i: nat)
    requires |b| == HEAD + BodySize(n) && i < n
    ensures HEAD + n * 16 + i * 4 + 4 <= |b| && i * 8 + 8 <= n * 8
    ensures ArraysAt(b, n).keys[i] == Word(b, HEAD + i * 8)
    ensures ArraysAt(b, n).offsets[i] == Word(b, HEAD + n * 8 + i * 8)
    ensures ArraysAt(b, n).lens[i] == Half(b, HEAD + n * 16 + i * 4)
  {
    hide Le, FromLe, FromLes, Size;
    var o, l, w := HEAD + n * 8, HEAD + n * 16, HEAD + n * 20;
    SizeIs(n);
    SizeIs(i);
    SizeIs((n + 63) / 64);
    FromLesAt(b[HEAD..o], 8, n, i);
    FromLesAt(b[o..l], 8, n, i);
    FromLesAt(b[l..w], 4, n, i);
    SliceOf(b, HEAD, o, i * 8, 8);
    SliceOf(b, o, l, i * 8, 8);
    SliceOf(b, l, w, i * 4, 4);
  }

  lemma SliceOf(b: seq<byte>, at: nat, to: nat, p: nat, n: nat)
    requires at + p + n <= to <= |b|
    ensures b[at..to][p..p + n] == b[at + p..at + p + n]
  {
    var t, v := b[at..to], b[at + p..at + p + n];
    var u := t[p..p + n];
    assert forall i :: 0 <= i < n ==> u[i] == v[i];
  }

  /** The words of bits, which end the bytes. */
  method ReadWords(b: seq<byte>, n: nat) returns (words: seq<nat>)
    requires |b| == HEAD + BodySize(n)
    ensures words == ArraysAt(b, n).binary
  {
    hide FromLe, FromLes, Size;
    words := [];
    var bits, count := HEAD + n * 20, (n + 63) / 64;
    SizeIs(n);
    SizeIs(count);
    ghost var all := FromLes(b[bits..], 8, count);
    var w: nat := 0;
    while w < count
      invariant w <= count && words == all[..w]
    {
      WordAt(b, bits, count, w);
      words := words + [Word(b, bits + w * 8)];
      assert all[..w + 1] == all[..w] + [all[w]];
      w := w + 1;
    }
  }

  lemma WordAt(b: seq<byte>, bits: nat, count: nat, w: nat)
    requires w < count && bits + count * 8 == |b|
    ensures Size(count, 8) == count * 8 && bits + w * 8 + 8 <= |b|
    ensures FromLes(b[bits..], 8, count)[w] == Word(b, bits + w * 8)
  {
    hide FromLe, FromLes, Size;
    SizeIs(count);
    SizeIs(w);
    FromLesAt(b[bits..], 8, count, w);
    assert b[bits..] == b[bits..|b|];
    SliceOf(b, bits, |b|, w * 8, 8);
  }
}
