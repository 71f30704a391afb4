/**
 The DEFLATE format (RFC 1951): what a bit string says, as blocks of tokens,
 and the bytes those stand for. Nothing here decodes: whether a string is a
 given list of blocks is a predicate.
 */
module Deflate {
  import opened Wrappers
  import opened Bits
  import opened BitStream
  import opened Huffman

  const LEN_BASE: seq<nat> := [3, 4, 5, 6, 7, 8, 9, 10, 11, 13, 15, 17, 19, 23, 27, 31, 35, 43, 51, 59, 67, 83, 99, 115, 131, 163, 195, 227, 258]
  const LEN_EXTRA: seq<nat> := [0, 0, 0, 0, 0, 0, 0, 0, 1, 1, 1, 1, 2, 2, 2, 2, 3, 3, 3, 3, 4, 4, 4, 4, 5, 5, 5, 5, 0]
  const DIST_BASE: seq<nat> := [1, 2, 3, 4, 5, 7, 9, 13, 17, 25, 33, 49, 65, 97, 129, 193, 257, 385, 513, 769, 1025, 1537, 2049, 3073, 4097, 6145, 8193, 12289, 16385, 24577]
  const DIST_EXTRA: seq<nat> := [0, 0, 0, 0, 1, 1, 2, 2, 3, 3, 4, 4, 5, 5, 6, 6, 7, 7, 8, 8, 9, 9, 10, 10, 11, 11, 12, 12, 13, 13]
  const ORDER: seq<nat> := [16, 17, 18, 0, 8, 7, 9, 6, 10, 5, 11, 4, 12, 3, 13, 2, 14, 1, 15]
  /** Where each symbol stands in `ORDER`. */
  const WHERE: seq<nat> := [3, 17, 15, 13, 11, 9, 7, 5, 4, 6, 8, 10, 12, 14, 16, 18, 0, 1, 2]

  lemma OrderInverse(i: nat, s: nat)
    requires i < 19 && s < 19
    ensures |ORDER| == |WHERE| == 19
    ensures ORDER[i] < 19 && WHERE[s] < 19
    ensures WHERE[s] == i <==> ORDER[i] == s
  {
    OrderAt(i);
    WhereAt(s);
  }

  lemma OrderAt(i: nat)
    requires i < 19
    ensures |ORDER| == |WHERE| == 19
    ensures ORDER[i] < 19 && WHERE[ORDER[i]] == i
  {}

  lemma WhereAt(s: nat)
    requires s < 19
    ensures |ORDER| == |WHERE| == 19
    ensures WHERE[s] < 19 && ORDER[WHERE[s]] == s
  {}

  /** The order of section 3.2.7 of RFC 1951: the runs and zero, then by distance from 8, the longer first. */
  lemma OrderTable(i: nat)
    requires i < 19
    ensures ORDER[i] == if i < 3 then 16 + i else if i == 3 then 0 else if i % 2 == 0 then 8 + (i - 4) / 2 else 8 - (i - 3) / 2
  {}

  function LenBase(k: nat): (r: nat)
    requires k < 29
    ensures 3 <= r <= 258
  {
    LEN_BASE[k]
  }

  function LenExtra(k: nat): (r: nat)
    requires k < 29
    ensures r <= 5
  {
    LEN_EXTRA[k]
  }

  function DistBase(d: nat): (r: nat)
    requires d < 30
    ensures 1 <= r <= 24577
  {
    DIST_BASE[d]
  }

  function DistExtra(d: nat): (r: nat)
    requires d < 30
    ensures r <= 13
  {
    DIST_EXTRA[d]
  }

  /** The extra bits of section 3.2.5 of RFC 1951 without its table. */
  lemma ExtraBits(k: nat)
    ensures k < 29 ==> LenExtra(k) == if k < 8 || k == 28 then 0 else (k - 4) / 4
    ensures k < 30 ==> DistExtra(k) == if k < 4 then 0 else (k - 2) / 2
  {}

  /** A symbol's lengths begin where those of the symbol before it end, but for the last symbol, which is 258 alone. */
  lemma LengthTable(k: nat)
    requires k < 27
    ensures LenBase(0) == 3 && LenBase(27) + Pow2(LenExtra(27)) == 259 && LenBase(28) == 258 && LenExtra(28) == 0
    ensures LenBase(k + 1) == LenBase(k) + Pow2(LenExtra(k))
  {
    hide Pow2;
    SmallPowers();
    ExtraBits(k);
    ExtraBits(27);
    ExtraBits(28);
    hide LenExtra;
  }

  lemma DistanceTable(d: nat)
    requires d < 29
    ensures DistBase(0) == 1 && DistBase(29) + Pow2(DistExtra(29)) == 32769
    ensures DistBase(d + 1) == DistBase(d) + Pow2(DistExtra(d))
  {
    hide Pow2;
    SmallPowers();
    ExtraBits(29);
    if d < 15 {
      NearDistances(d);
    } else {
      FarDistances(d);
    }
    hide DistExtra, DistBase;
  }

  lemma NearDistances(d: nat)
    requires d < 15
    ensures DistBase(d + 1) == DistBase(d) + Pow2(DistExtra(d))
  {
    hide Pow2;
    SmallPowers();
  }

  lemma FarDistances(d: nat)
    requires 15 <= d < 29
    ensures DistBase(d + 1) == DistBase(d) + Pow2(DistExtra(d))
  {
    hide Pow2;
    SmallPowers();
  }

  lemma SmallPowers()
    ensures Pow2(0) == 1 && Pow2(1) == 2 && Pow2(2) == 4 && Pow2(3) == 8 && Pow2(4) == 16 && Pow2(5) == 32 && Pow2(6) == 64
    ensures Pow2(7) == 128 && Pow2(8) == 256 && Pow2(9) == 512 && Pow2(10) == 1024 && Pow2(11) == 2048 && Pow2(12) == 4096 && Pow2(13) == 8192
  {}

  // ---------------------------------------------------------------- tokens

  /** A literal byte, or a match by its symbols (counted from 0) and extra bits. */
  datatype Token = Literal(value: byte) | Match(k: nat, x: nat, d: nat, y: nat)
  {
    function Length(): nat
    {
      if Match? && k < 29 then LenBase(k) + x else 0
    }

    function Distance(): nat
    {
      if Match? && d < 30 then DistBase(d) + y else 0
    }
  }

  /** Symbol `257 + k` and extra bits `x` are length `len`. */
  ghost predicate LengthIs(k: nat, x: nat, len: nat)
  {
    k < 29 && x < Pow2(LenExtra(k)) && Match(k, x, 0, 0).Length() == len
  }

  /** Symbol `d` and extra bits `y` are distance `back`. */
  ghost predicate DistanceIs(d: nat, y: nat, back: nat)
  {
    d < 30 && y < Pow2(DistExtra(d)) && Match(0, 0, d, y).Distance() == back
  }

  lemma {:induction false} LengthsGrow(k: nat, j: nat)
    requires k < j <= 27
    ensures LenBase(k) + Pow2(LenExtra(k)) <= LenBase(j)
  {
    hide LenBase, LenExtra;
    LengthTable(j - 1);
    if k < j - 1 {
      LengthsGrow(k, j - 1);
    }
  }

  lemma {:induction false} DistancesGrow(d: nat, j: nat)
    requires d < j <= 29
    ensures DistBase(d) + Pow2(DistExtra(d)) <= DistBase(j)
  {
    hide DistBase, DistExtra;
    DistanceTable(j - 1);
    if d < j - 1 {
      DistancesGrow(d, j - 1);
    }
  }

  /** The symbol of a length among the first `n`. */
  lemma {:induction false} FindLength(len: nat, n: nat) returns (k: nat, x: nat)
    requires n <= 27 && 3 <= len < LenBase(n) + Pow2(LenExtra(n))
    ensures LengthIs(k, x, len)
  {
    hide LenBase, LenExtra;
    LengthTable(0);
    if LenBase(n) <= len {
      return n, len - LenBase(n);
    }
    LengthTable(n - 1);
    k, x := FindLength(len, n - 1);
  }

  lemma {:induction false} FindDistance(back: nat, n: nat) returns (d: nat, y: nat)
    requires n <= 29 && 1 <= back < DistBase(n) + Pow2(DistExtra(n))
    ensures DistanceIs(d, y, back)
  {
    hide DistBase, DistExtra;
    DistanceTable(0);
    if DistBase(n) <= back {
      return n, back - DistBase(n);
    }
    DistanceTable(n - 1);
    d, y := FindDistance(back, n - 1);
  }

  /** The lengths there are: 3 to 258, each in one way, but 258 in two. */
  lemma LengthsExact(len: nat)
    ensures (exists k: nat, x: nat :: LengthIs(k, x, len)) <==> 3 <= len <= 258
    ensures forall k: nat, x: nat, j: nat, z: nat :: LengthIs(k, x, len) && LengthIs(j, z, len) ==> (k == j && x == z) || (len == 258 && {k, j} == {27, 28})
  {
    hide LenBase, LenExtra;
    LengthTable(0);
    if 3 <= len <= 258 {
      var k, x := FindLength(len, 27);
    }
    forall k: nat, x: nat | LengthIs(k, x, len)
      ensures 3 <= len <= 258 && (k == 28 ==> len == 258)
    {
      if 0 < k < 28 {
        LengthsGrow(0, k);
      }
      if k < 27 {
        LengthsGrow(k, 27);
      }
    }
    forall k: nat, x: nat, j: nat, z: nat | LengthIs(k, x, len) && LengthIs(j, z, len)
      ensures (k == j && x == z) || (len == 258 && {k, j} == {27, 28})
    {
      LengthsApart(k, x, j, z, len);
      LengthsApart(j, z, k, x, len);
    }
  }

  lemma LengthsApart(k: nat, x: nat, j: nat, z: nat, len: nat)
    requires LengthIs(k, x, len) && LengthIs(j, z, len)
    ensures k < j ==> k == 27 && j == 28 && len == 258
  {
    hide LenBase, LenExtra;
    if k < j {
      LengthTable(0);
      if j < 28 {
        LengthsGrow(k, j);
      } else if k < 27 {
        LengthsGrow(k, 27);
      }
    }
  }

  /** The distances there are: 1 to 32768, each in one way. */
  lemma DistancesExact(back: nat)
    ensures (exists d: nat, y: nat :: DistanceIs(d, y, back)) <==> 1 <= back <= 32768
    ensures forall d: nat, y: nat, j: nat, z: nat :: DistanceIs(d, y, back) && DistanceIs(j, z, back) ==> d == j && y == z
  {
    hide DistBase, DistExtra;
    DistanceTable(0);
    if 1 <= back <= 32768 {
      var d, y := FindDistance(back, 29);
    }
    forall d: nat, y: nat | DistanceIs(d, y, back)
      ensures 1 <= back <= 32768
    {
      if 0 < d {
        DistancesGrow(0, d);
      }
      if d < 29 {
        DistancesGrow(d, 29);
      }
    }
    forall d: nat, y: nat, j: nat, z: nat | DistanceIs(d, y, back) && DistanceIs(j, z, back)
      ensures d == j && y == z
    {
      if d < j {
        DistancesGrow(d, j);
      } else if j < d {
        DistancesGrow(j, d);
      }
    }
  }

  /** The LZ77 expansion of a match: the last `back` bytes, over and over. */
  function Copy(out: seq<byte>, back: nat, len: nat): seq<byte>
    requires 1 <= back <= |out|
  {
    out + seq(len, i requires 0 <= i => out[|out| - back + i % back])
  }

  /** A match adds bytes that each repeat the one `back` before it. */
  lemma CopyRepeats(out: seq<byte>, back: nat, len: nat)
    requires 1 <= back <= |out|
    ensures var r := Copy(out, back, len);
            |r| == |out| + len && out <= r && forall i :: |out| <= i < |r| ==> r[i] == r[i - back]
  {
    var r := Copy(out, back, len);
    forall i | |out| <= i < |r|
      ensures r[i] == r[i - back]
    {
      var j := i - |out|;
      if j < back {
        assert j % back == j;
      } else {
        QuotUnique(j / back - 1, j % back, (j - back) / back, (j - back) % back, back);
      }
    }
  }

  /** None when a match reaches before the start of the output. */
  function ExpandToken(out: seq<byte>, t: Token): Option<seq<byte>>
  {
    match t
    case Literal(v) => Some(out + [v])
    case Match(_, _, _, _) => if 1 <= t.Distance() <= |out| then Some(Copy(out, t.Distance(), t.Length())) else None
  }

  /** What tokens make of the output so far. */
  function Expand(out: seq<byte>, ts: seq<Token>): Option<seq<byte>>
    decreases |ts|
  {
    if ts == [] then Some(out)
    else if ExpandToken(out, ts[0]).None? then None
    else Expand(ExpandToken(out, ts[0]).value, ts[1..])
  }

  /** The bits at `p` are the code of symbol `s` and then the number `x` in `n` bits. */
  ghost predicate CodeThen(ls: seq<nat>, src: seq<byte>, p: nat, s: nat, n: nat, x: nat)
  {
    CodeAt(ls, src, p, s) && p + ls[s] + n <= 8 * |src| && Num(src, p + ls[s], n) == x
  }

  /** The bits from `p` to `e` are token `t`. */
  ghost predicate TokenAt(src: seq<byte>, p: nat, lit: seq<nat>, dist: seq<nat>, t: Token, e: nat)
  {
    match t
    case Literal(v) => CodeAt(lit, src, p, v) && e == p + lit[v]
    case Match(k, x, d, y) =>
      && k < 29 && d < 30
      && CodeThen(lit, src, p, 257 + k, LenExtra(k), x)
      && CodeThen(dist, src, p + lit[257 + k] + LenExtra(k), d, DistExtra(d), y)
      && e == p + lit[257 + k] + LenExtra(k) + dist[d] + DistExtra(d)
  }

  /** The bits from `p` to `e` are the tokens `ts` and the end of block. */
  ghost predicate TokensAt(src: seq<byte>, p: nat, lit: seq<nat>, dist: seq<nat>, ts: seq<Token>, e: nat)
    decreases |ts|
  {
    if ts == [] then CodeAt(lit, src, p, 256) && e == p + lit[256]
    else exists q :: TokenAt(src, p, lit, dist, ts[0], q) && TokensAt(src, q, lit, dist, ts[1..], e)
  }

  // ---------------------------------------------------------------- code lengths

  /** A run of code lengths: one, the last again, or zeros (symbols 17 and 18). */
  datatype Run = One(len: nat) | Again(n: nat) | Zeros(n: nat) | ManyZeros(n: nat)

  function Repeat(v: nat, n: nat): seq<nat>
  {
    seq(n, _ => v)
  }

  /** None when there is no last length to repeat. */
  function ExpandRun(acc: seq<nat>, r: Run): Option<seq<nat>>
  {
    match r
    case One(len) => Some(acc + [len])
    case Again(n) => if acc == [] then None else Some(acc + Repeat(acc[|acc| - 1], n))
    case Zeros(n) => Some(acc + Repeat(0, n))
    case ManyZeros(n) => Some(acc + Repeat(0, n))
  }

  function ExpandRuns(acc: seq<nat>, rs: seq<Run>): Option<seq<nat>>
    decreases |rs|
  {
    if rs == [] then Some(acc)
    else if ExpandRun(acc, rs[0]).None? then None
    else ExpandRuns(ExpandRun(acc, rs[0]).value, rs[1..])
  }

  ghost predicate RunAt(src: seq<byte>, p: nat, cl: seq<nat>, r: Run, e: nat)
  {
    match r
    case One(len) => len < 16 && CodeAt(cl, src, p, len) && e == p + cl[len]
    case Again(n) => n >= 3 && CodeThen(cl, src, p, 16, 2, n - 3) && e == p + cl[16] + 2
    case Zeros(n) => n >= 3 && CodeThen(cl, src, p, 17, 3, n - 3) && e == p + cl[17] + 3
    case ManyZeros(n) => n >= 11 && CodeThen(cl, src, p, 18, 7, n - 11) && e == p + cl[18] + 7
  }

  ghost predicate RunsAt(src: seq<byte>, p: nat, cl: seq<nat>, rs: seq<Run>, e: nat)
    decreases |rs|
  {
    if rs == [] then e == p
    else exists q :: RunAt(src, p, cl, rs[0], q) && RunsAt(src, q, cl, rs[1..], e)
  }

  // ---------------------------------------------------------------- blocks

  /** `cl` has the code length code's lengths by symbol, the first `ncode` of `ORDER` given. */
  datatype Header = Header(nlen: nat, ndist: nat, ncode: nat, cl: seq<nat>, runs: seq<Run>)

  datatype Block = Stored(data: seq<byte>) | Fixed(ts: seq<Token>) | Dynamic(head: Header, ts: seq<Token>)

  /** The lengths of the code length code given by `ncode` three-bit fields at `p`. */
  function CodeLengthLengths(src: seq<byte>, p: nat, ncode: nat): (cl: seq<nat>)
    requires ncode <= 19 && p + 3 * ncode <= 8 * |src|
    ensures |cl| == 19
  {
    seq(19, s requires 0 <= s < 19 => if WHERE[s] < ncode then Num(src, p + 3 * WHERE[s], 3) else 0)
  }

  ghost predicate HeaderAt(src: seq<byte>, p: nat, h: Header, e: nat)
  {
    && p + 14 + 3 * h.ncode <= 8 * |src|
    && h.nlen == 257 + Num(src, p, 5)
    && h.ndist == 1 + Num(src, p + 5, 5)
    && h.ncode == 4 + Num(src, p + 10, 4)
    && h.ncode <= 19
    && h.cl == CodeLengthLengths(src, p + 14, h.ncode)
    && RunsAt(src, p + 14 + 3 * h.ncode, h.cl, h.runs, e)
  }

  /** The literal and distance code lengths of a header, if its runs give just as many as it says. */
  function HeaderLengths(h: Header): Option<(seq<nat>, seq<nat>)>
  {
    var ls := ExpandRuns([], h.runs);
    if ls.Some? && |ls.value| == h.nlen + h.ndist then Some((ls.value[..h.nlen], ls.value[h.nlen..])) else None
  }

  /** The lengths of the fixed codes (section 3.2.6 of RFC 1951); distances 30 and 31 have none. */
  function FixedLit(): (ls: seq<nat>)
    ensures |ls| == 288 && Lengths(ls)
  {
    seq(288, i => if i < 144 then 8 else if i < 256 then 9 else if i < 280 then 7 else 8)
  }

  function FixedDist(): (ls: seq<nat>)
    ensures |ls| == 30 && Lengths(ls)
  {
    seq(30, _ => 5)
  }

  /** The first byte that no bit before `p` is in. */
  function ByteFrom(p: nat): nat
  {
    (p + 7) / 8
  }

  /** The bytes from `a` are a stored block's length, its complement (not looked at) and its data. */
  ghost predicate StoredAt(src: seq<byte>, a: nat, data: seq<byte>)
  {
    && a + 4 + |data| <= |src|
    && |data| == src[a] as int + 256 * src[a + 1] as int
    && data == src[a + 4..a + 4 + |data|]
  }

  ghost predicate DynamicAt(src: seq<byte>, p: nat, h: Header, ts: seq<Token>, e: nat)
  {
    HeaderLengths(h).Some?
    && exists q :: HeaderAt(src, p, h, q) && TokensAt(src, q, HeaderLengths(h).value.0, HeaderLengths(h).value.1, ts, e)
  }

  /** The bits from `p` to `e` are block `b` after its first three bits. */
  ghost predicate BodyAt(src: seq<byte>, p: nat, b: Block, e: nat)
  {
    match b
    case Stored(data) => StoredAt(src, ByteFrom(p), data) && e == 8 * (ByteFrom(p) + 4 + |data|)
    case Fixed(ts) => TokensAt(src, p, FixedLit(), FixedDist(), ts, e)
    case Dynamic(h, ts) => DynamicAt(src, p, h, ts, e)
  }

  function Kind(b: Block): nat
  {
    match b
    case Stored(_) => 0
    case Fixed(_) => 1
    case Dynamic(_, _) => 2
  }

  /** The bits from `p` to `e` are block `b`, the last or not. */
  ghost predicate BlockAt(src: seq<byte>, p: nat, b: Block, last: bool, e: nat)
  {
    && p + 3 <= 8 * |src|
    && Num(src, p, 1) == (if last then 1 else 0)
    && Num(src, p + 1, 2) == Kind(b)
    && BodyAt(src, p + 3, b, e)
  }

  /** The bits from `p` on begin with blocks `bs`, the last of them marked so. */
  ghost predicate BlocksAt(src: seq<byte>, p: nat, bs: seq<Block>)
    decreases |bs|
  {
    if |bs| <= 1 then bs != [] && exists e :: BlockAt(src, p, bs[0], true, e)
    else exists e :: BlockAt(src, p, bs[0], false, e) && BlocksAt(src, e, bs[1..])
  }

  function ExpandBlock(out: seq<byte>, b: Block): Option<seq<byte>>
  {
    if b.Stored? then Some(out + b.data) else Expand(out, b.ts)
  }

  function ExpandBlocks(out: seq<byte>, bs: seq<Block>): Option<seq<byte>>
    decreases |bs|
  {
    if bs == [] then Some(out)
    else if ExpandBlock(out, bs[0]).None? then None
    else ExpandBlocks(ExpandBlock(out, bs[0]).value, bs[1..])
  }
}
