/** A DEFLATE encoder, written only to say what the decoder undoes: blocks as bits, bits packed into bytes, and the round trip. */
module Encoder {
  import opened Wrappers
  import opened Bits
  import opened BitStream
  import opened Huffman
  import opened Deflate
  import Inflate

  /** The bits `bs` stand in `src` at `p`. */
  ghost predicate HasBits(src: seq<byte>, p: nat, bs: seq<bit>)
  {
    p + |bs| <= 8 * |src| && forall i :: 0 <= i < |bs| ==> BitAt(src, p + i) == bs[i]
  }

  lemma HasBoth(src: seq<byte>, p: nat, a: seq<bit>, b: seq<bit>)
    requires HasBits(src, p, a + b)
    ensures HasBits(src, p, a) && HasBits(src, p + |a|, b)
  {
    forall i | 0 <= i < |a|
      ensures BitAt(src, p + i) == a[i]
    {
      assert (a + b)[i] == a[i];
    }
    forall i | 0 <= i < |b|
      ensures BitAt(src, p + |a| + i) == b[i]
    {
      assert (a + b)[|a| + i] == b[i];
    }
  }

  /** `x` in `n` bits, least significant first. */
  function NumBits(x: nat, n: nat): (bs: seq<bit>)
    ensures |bs| == n
    decreases n
  {
    if n == 0 then [] else [x % 2] + NumBits(x / 2, n - 1)
  }

  /** `x` in `n` bits, most significant first. */
  function MsbBits(x: nat, n: nat): (bs: seq<bit>)
    ensures |bs| == n
    decreases n
  {
    if n == 0 then [] else MsbBits(x / 2, n - 1) + [x % 2]
  }

  lemma {:induction false} NumOfBits(src: seq<byte>, p: nat, x: nat, n: nat)
    requires x < Pow2(n) && HasBits(src, p, NumBits(x, n))
    ensures Num(src, p, n) == x
    decreases n
  {
    if n > 0 {
      HasBoth(src, p, [x % 2], NumBits(x / 2, n - 1));
      NumOfBits(src, p + 1, x / 2, n - 1);
      assert BitAt(src, p) == [x % 2][0];
    }
  }

  lemma {:induction false} MsbOfBits(src: seq<byte>, p: nat, x: nat, n: nat)
    requires x < Pow2(n) && HasBits(src, p, MsbBits(x, n))
    ensures Msb(src, p, n) == x
    decreases n
  {
    if n > 0 {
      HasBoth(src, p, MsbBits(x / 2, n - 1), [x % 2]);
      MsbOfBits(src, p, x / 2, n - 1);
      assert BitAt(src, p + n - 1) == [x % 2][0];
    }
  }

  /** The lengths of a code that can be encoded with. */
  ghost predicate Coding(ls: seq<nat>)
  {
    Lengths(ls) && Kraft(ls)
  }

  ghost predicate Coded(ls: seq<nat>, s: nat)
  {
    s < |ls| && ls[s] > 0
  }

  function SymbolBits(ls: seq<nat>, s: nat): seq<bit>
    requires s < |ls| && ls[s] > 0
  {
    MsbBits(Code(ls, s), ls[s])
  }

  /** A symbol's code, wherever it is put, is decoded as that symbol in exactly its bits. */
  lemma SymbolRoundTrip(ls: seq<nat>, src: seq<byte>, p: nat, s: nat)
    requires Coding(ls) && Coded(ls, s) && HasBits(src, p, SymbolBits(ls, s))
    ensures CodeAt(ls, src, p, s)
    ensures Inflate.Symbol(ls, src, p) == Inflate.Ok((s, p + |SymbolBits(ls, s)|))
  {
    CodeFits(ls, s);
    MsbOfBits(src, p, Code(ls, s), ls[s]);
    Inflate.SymbolIs(ls, src, p, s);
  }

  // ---------------------------------------------------------------- tokens

  ghost predicate TokenOk(lit: seq<nat>, dist: seq<nat>, t: Token)
  {
    match t
    case Literal(v) => Coded(lit, v)
    case Match(k, x, d, y) =>
      k < 29 && d < 30 && Coded(lit, 257 + k) && x < Pow2(LenExtra(k)) && Coded(dist, d) && y < Pow2(DistExtra(d))
  }

  ghost function TokenBits(lit: seq<nat>, dist: seq<nat>, t: Token): seq<bit>
    requires TokenOk(lit, dist, t)
  {
    match t
    case Literal(v) => SymbolBits(lit, v)
    case Match(k, x, d, y) =>
      (SymbolBits(lit, 257 + k) + NumBits(x, LenExtra(k))) + (SymbolBits(dist, d) + NumBits(y, DistExtra(d)))
  }

  lemma CodeThenBits(ls: seq<nat>, src: seq<byte>, p: nat, s: nat, n: nat, x: nat)
    requires Coding(ls) && Coded(ls, s) && x < Pow2(n)
    requires HasBits(src, p, SymbolBits(ls, s) + NumBits(x, n))
    ensures CodeThen(ls, src, p, s, n, x)
  {
    hide Msb, Num, Code, HasBits, Coding, CodeAt;
    HasBoth(src, p, SymbolBits(ls, s), NumBits(x, n));
    SymbolRoundTrip(ls, src, p, s);
    NumOfBits(src, p + ls[s], x, n);
    HasRoom(src, p + ls[s], NumBits(x, n));
  }

  lemma HasRoom(src: seq<byte>, p: nat, bs: seq<bit>)
    requires HasBits(src, p, bs)
    ensures p + |bs| <= 8 * |src|
  {}

  lemma TokenEncoded(src: seq<byte>, p: nat, lit: seq<nat>, dist: seq<nat>, t: Token)
    requires Coding(lit) && Coding(dist) && TokenOk(lit, dist, t)
    requires HasBits(src, p, TokenBits(lit, dist, t))
    ensures TokenAt(src, p, lit, dist, t, p + |TokenBits(lit, dist, t)|)
  {
    hide Msb, Num, Code, HasBits, Coding, LenExtra, DistExtra;
    match t {
      case Literal(v) => SymbolRoundTrip(lit, src, p, v);
      case Match(k, x, d, y) =>
        var a, b := SymbolBits(lit, 257 + k) + NumBits(x, LenExtra(k)), SymbolBits(dist, d) + NumBits(y, DistExtra(d));
        HasBoth(src, p, a, b);
        CodeThenBits(lit, src, p, 257 + k, LenExtra(k), x);
        CodeThenBits(dist, src, p + |a|, d, DistExtra(d), y);
    }
  }

  ghost predicate TokensOk(lit: seq<nat>, dist: seq<nat>, ts: seq<Token>)
  {
    Coding(lit) && Coding(dist) && Coded(lit, 256) && AllTokensOk(lit, dist, ts)
  }

  ghost predicate AllTokensOk(lit: seq<nat>, dist: seq<nat>, ts: seq<Token>)
  {
    forall t <- ts :: TokenOk(lit, dist, t)
  }

  ghost function TokensBits(lit: seq<nat>, dist: seq<nat>, ts: seq<Token>): seq<bit>
    requires TokensOk(lit, dist, ts)
    decreases |ts|
  {
    if ts == [] then SymbolBits(lit, 256) else TokenBits(lit, dist, ts[0]) + TokensBits(lit, dist, ts[1..])
  }

  lemma {:induction false} TokensEncoded(src: seq<byte>, p: nat, lit: seq<nat>, dist: seq<nat>, ts: seq<Token>)
    requires TokensOk(lit, dist, ts) && HasBits(src, p, TokensBits(lit, dist, ts))
    ensures TokensAt(src, p, lit, dist, ts, p + |TokensBits(lit, dist, ts)|)
    decreases |ts|
  {
    hide HasBits, Coding, TokenOk, TokenBits, TokenAt;
    if ts == [] {
      SymbolRoundTrip(lit, src, p, 256);
    } else {
      var a := TokenBits(lit, dist, ts[0]);
      HasBoth(src, p, a, TokensBits(lit, dist, ts[1..]));
      TokenEncoded(src, p, lit, dist, ts[0]);
      TokensEncoded(src, p + |a|, lit, dist, ts[1..]);
    }
  }

  // ---------------------------------------------------------------- headers

  ghost predicate RunOk(cl: seq<nat>, r: Run)
  {
    match r
    case One(len) => len < 16 && Coded(cl, len)
    case Again(n) => 3 <= n < 3 + Pow2(2) && Coded(cl, 16)
    case Zeros(n) => 3 <= n < 3 + Pow2(3) && Coded(cl, 17)
    case ManyZeros(n) => 11 <= n < 11 + Pow2(7) && Coded(cl, 18)
  }

  ghost function RunBits(cl: seq<nat>, r: Run): seq<bit>
    requires RunOk(cl, r)
  {
    match r
    case One(len) => SymbolBits(cl, len)
    case Again(n) => SymbolBits(cl, 16) + NumBits(n - 3, 2)
    case Zeros(n) => SymbolBits(cl, 17) + NumBits(n - 3, 3)
    case ManyZeros(n) => SymbolBits(cl, 18) + NumBits(n - 11, 7)
  }

  lemma RunEncoded(src: seq<byte>, p: nat, cl: seq<nat>, r: Run)
    requires Coding(cl) && RunOk(cl, r) && HasBits(src, p, RunBits(cl, r))
    ensures RunAt(src, p, cl, r, p + |RunBits(cl, r)|)
  {
    hide Msb, Num, Code, HasBits, Coding, CodeAt, CodeThen;
    match r {
      case One(len) => SymbolRoundTrip(cl, src, p, len);
      case Again(n) => CodeThenBits(cl, src, p, 16, 2, n - 3);
      case Zeros(n) => CodeThenBits(cl, src, p, 17, 3, n - 3);
      case ManyZeros(n) => CodeThenBits(cl, src, p, 18, 7, n - 11);
    }
  }

  ghost predicate RunsOk(cl: seq<nat>, rs: seq<Run>)
  {
    Coding(cl) && forall r <- rs :: RunOk(cl, r)
  }

  ghost function RunsBits(cl: seq<nat>, rs: seq<Run>): seq<bit>
    requires RunsOk(cl, rs)
    decreases |rs|
  {
    if rs == [] then [] else RunBits(cl, rs[0]) + RunsBits(cl, rs[1..])
  }

  lemma {:induction false} RunsEncoded(src: seq<byte>, p: nat, cl: seq<nat>, rs: seq<Run>)
    requires RunsOk(cl, rs) && HasBits(src, p, RunsBits(cl, rs))
    ensures RunsAt(src, p, cl, rs, p + |RunsBits(cl, rs)|)
    decreases |rs|
  {
    hide HasBits, Coding, RunOk, RunBits, RunAt;
    if rs != [] {
      var a := RunBits(cl, rs[0]);
      HasBoth(src, p, a, RunsBits(cl, rs[1..]));
      RunEncoded(src, p, cl, rs[0]);
      RunsEncoded(src, p + |a|, cl, rs[1..]);
    }
  }

  /** The first `n` code length code lengths, in `ORDER`. */
  function OrderBits(cl: seq<nat>, n: nat): (bs: seq<bit>)
    requires |cl| == 19 && n <= 19
    ensures |bs| == 3 * n
  {
    if n == 0 then [] else OrderAt(n - 1); OrderBits(cl, n - 1) + NumBits(cl[ORDER[n - 1]], 3)
  }

  lemma {:induction false} OrderDecoded(src: seq<byte>, p: nat, cl: seq<nat>, n: nat, i: nat)
    requires |cl| == 19 && i < n <= 19 && (forall s :: 0 <= s < 19 ==> cl[s] < Pow2(3))
    requires HasBits(src, p, OrderBits(cl, n))
    ensures ORDER[i] < 19 && p + 3 * i + 3 <= 8 * |src| && Num(src, p + 3 * i, 3) == cl[ORDER[i]]
  {
    hide HasBits, NumBits, Num;
    OrderAt(n - 1);
    OrderAt(i);
    HasBoth(src, p, OrderBits(cl, n - 1), NumBits(cl[ORDER[n - 1]], 3));
    if i < n - 1 {
      OrderDecoded(src, p, cl, n - 1, i);
    } else {
      NumOfBits(src, p + 3 * i, cl[ORDER[i]], 3);
    }
  }

  ghost predicate HeaderOk(h: Header)
  {
    && 257 <= h.nlen < 257 + Pow2(5) && 1 <= h.ndist < 1 + Pow2(5) && 4 <= h.ncode <= 19
    && |h.cl| == 19 && (forall s :: 0 <= s < 19 ==> h.cl[s] < Pow2(3))
    && (forall s :: 0 <= s < 19 && h.ncode <= WHERE[s] ==> h.cl[s] == 0)
    && RunsOk(h.cl, h.runs)
  }

  ghost function CountBits(h: Header): (bs: seq<bit>)
    requires HeaderOk(h)
    ensures |bs| == 14
  {
    (NumBits(h.nlen - 257, 5) + NumBits(h.ndist - 1, 5)) + NumBits(h.ncode - 4, 4)
  }

  ghost function HeaderBits(h: Header): seq<bit>
    requires HeaderOk(h)
  {
    (CountBits(h) + OrderBits(h.cl, h.ncode)) + RunsBits(h.cl, h.runs)
  }

  lemma CountsDecoded(src: seq<byte>, p: nat, h: Header)
    requires HeaderOk(h) && HasBits(src, p, CountBits(h))
    ensures p + 14 <= 8 * |src|
    ensures Num(src, p, 5) == h.nlen - 257 && Num(src, p + 5, 5) == h.ndist - 1 && Num(src, p + 10, 4) == h.ncode - 4
  {
    hide HasBits, Num, NumBits, RunsOk;
    HasRoom(src, p, CountBits(h));
    var a, b, c := NumBits(h.nlen - 257, 5), NumBits(h.ndist - 1, 5), NumBits(h.ncode - 4, 4);
    HasBoth(src, p, a + b, c);
    HasBoth(src, p, a, b);
    assert Pow2(4) == 16;
    NumOfBits(src, p, h.nlen - 257, 5);
    NumOfBits(src, p + 5, h.ndist - 1, 5);
    NumOfBits(src, p + 10, h.ncode - 4, 4);
  }

  lemma LengthsDecoded(src: seq<byte>, p: nat, cl: seq<nat>, ncode: nat)
    requires |cl| == 19 && ncode <= 19 && (forall s :: 0 <= s < 19 ==> cl[s] < Pow2(3))
    requires forall s :: 0 <= s < 19 && ncode <= WHERE[s] ==> cl[s] == 0
    requires HasBits(src, p, OrderBits(cl, ncode))
    ensures p + 3 * ncode <= 8 * |src| && cl == CodeLengthLengths(src, p, ncode)
  {
    hide Num, HasBits, OrderBits;
    HasRoom(src, p, OrderBits(cl, ncode));
    forall s | 0 <= s < 19
      ensures cl[s] == CodeLengthLengths(src, p, ncode)[s]
    {
      WhereAt(s);
      if WHERE[s] < ncode {
        OrderDecoded(src, p, cl, ncode, WHERE[s]);
      }
    }
  }

  lemma HeaderEncoded(src: seq<byte>, p: nat, h: Header)
    requires HeaderOk(h) && HasBits(src, p, HeaderBits(h))
    ensures HeaderAt(src, p, h, p + |HeaderBits(h)|)
  {
    hide HasBits, Num, RunsOk, RunsAt, CodeLengthLengths, CountBits, OrderBits, RunsBits, NumBits;
    HasBoth(src, p, CountBits(h) + OrderBits(h.cl, h.ncode), RunsBits(h.cl, h.runs));
    HasBoth(src, p, CountBits(h), OrderBits(h.cl, h.ncode));
    CountsDecoded(src, p, h);
    LengthsDecoded(src, p + 14, h.cl, h.ncode);
    RunsEncoded(src, p + 14 + 3 * h.ncode, h.cl, h.runs);
  }

  // ---------------------------------------------------------------- blocks

  function BytesBits(data: seq<byte>): (bs: seq<bit>)
    ensures |bs| == 8 * |data|
  {
    if data == [] then [] else NumBits(data[0], 8) + BytesBits(data[1..])
  }

  lemma ByteDecoded(src: seq<byte>, a: nat, b: byte)
    requires HasBits(src, 8 * a, NumBits(b, 8))
    ensures a < |src| && src[a] == b
  {
    hide HasBits, NumBits, Num;
    HasRoom(src, 8 * a, NumBits(b, 8));
    assert Pow2(8) == 16 * Pow2(4);
    NumOfBits(src, 8 * a, b, 8);
    NumByte(src, a, 0);
  }

  lemma {:induction false} BytesDecoded(src: seq<byte>, a: nat, data: seq<byte>)
    requires HasBits(src, 8 * a, BytesBits(data))
    ensures a + |data| <= |src| && src[a..a + |data|] == data
    decreases |data|
  {
    hide HasBits, NumBits;
    if data == [] {
      HasRoom(src, 8 * a, BytesBits(data));
    } else {
      HasBoth(src, 8 * a, NumBits(data[0], 8), BytesBits(data[1..]));
      ByteDecoded(src, a, data[0]);
      BytesDecoded(src, a + 1, data[1..]);
    }
  }

  /** What the code lengths of the first symbols of the fixed codes take up of the code space. */
  lemma {:induction false} FixedShares(n: nat)
    requires n <= 288
    ensures Shares(FixedLit(), n, 15) ==
              if n <= 144 then 128 * n else if n <= 256 then 18432 + 64 * (n - 144) else if n <= 280 then 25600 + 256 * (n - 256) else 31744 + 128 * (n - 280)
    ensures n <= 30 ==> Shares(FixedDist(), n, 15) == 1024 * n
  {
    if n > 0 {
      FixedShares(n - 1);
      FixedPowers();
    }
  }

  lemma FixedPowers()
    ensures Pow2(6) == 64 && Pow2(7) == 128 && Pow2(8) == 256 && Pow2(10) == 1024 && Pow2(15) == 32768
  {
    assert Pow2(4) == 16 && Pow2(8) == 16 * Pow2(4) && Pow2(12) == 16 * Pow2(8);
  }

  /** The fixed codes can be encoded with: the literal code fills its code space, and the distance code leaves the two symbols it lacks. */
  lemma FixedCoding()
    ensures Coding(FixedLit()) && Coding(FixedDist())
    ensures Shares(FixedLit(), 288, 15) == Pow2(15)
  {
    FixedShares(288);
    FixedShares(30);
    FixedPowers();
  }

  /** How many of the first symbols of the fixed codes have each length. */
  lemma {:induction false} FixedCounts(n: nat)
    requires n <= 288
    ensures CountTo(FixedLit(), n, 7) == if n <= 256 then 0 else if n <= 280 then n - 256 else 24
    ensures CountTo(FixedLit(), n, 8) == if n <= 144 then n else if n <= 280 then 144 else n - 136
    ensures CountTo(FixedLit(), n, 9) == if n <= 144 then 0 else if n <= 256 then n - 144 else 112
    ensures forall L :: 1 <= L <= 6 ==> CountTo(FixedLit(), n, L) == 0
    ensures n <= 30 ==> CountTo(FixedDist(), n, 5) == n && forall L :: 1 <= L <= 4 ==> CountTo(FixedDist(), n, L) == 0
  {
    if n > 0 {
      FixedCounts(n - 1);
    }
  }

  /** With no code below length `L` the first code of length `L` is 0. */
  lemma {:induction false} FirstCodeZero(ls: seq<nat>, L: nat)
    requires 1 <= L && forall K :: 1 <= K < L ==> Count(ls, K) == 0
    ensures FirstCode(ls, L) == 0
  {
    if L > 1 {
      FirstCodeZero(ls, L - 1);
    }
  }

  /** The fixed codes are those that section 3.2.6 of RFC 1951 lists. */
  lemma FixedCodes(s: nat)
    requires s < 288
    ensures FixedLit()[s] > 0
    ensures Code(FixedLit(), s) ==
              if s < 144 then 0x30 + s else if s < 256 then 0x190 + s - 144 else if s < 280 then s - 256 else 0xC0 + s - 280
    ensures s < 30 ==> FixedDist()[s] == 5 && Code(FixedDist(), s) == s
  {
    FixedCounts(288);
    FixedCounts(30);
    FixedCounts(s);
    FirstCodeZero(FixedLit(), 7);
    FirstCodeZero(FixedDist(), 5);
    hide CountTo;
  }

  lemma FixedOk(ts: seq<Token>)
    requires AllTokensOk(FixedLit(), FixedDist(), ts)
    ensures TokensOk(FixedLit(), FixedDist(), ts)
  {
    FixedCoding();
  }

  ghost predicate BlockOk(b: Block)
  {
    match b
    case Stored(data) => |data| < 65536
    case Fixed(ts) => AllTokensOk(FixedLit(), FixedDist(), ts)
    case Dynamic(h, ts) =>
      HeaderOk(h) && HeaderLengths(h).Some? && TokensOk(HeaderLengths(h).value.0, HeaderLengths(h).value.1, ts)
  }

  /** A stored block's length and complement. */
  function StoredHead(n: nat): (h: seq<byte>)
    requires n < 65536
    ensures |h| == 4 && h[0] as int + 256 * h[1] as int == n && h[2] as int == 255 - h[0] as int && h[3] as int == 255 - h[1] as int
  {
    [n % 256, n / 256, 255 - n % 256, 255 - n / 256]
  }

  /** A block's body at bit `p`: a stored one begins at a whole byte. */
  ghost function BodyBits(b: Block, p: nat): seq<bit>
    requires BlockOk(b)
  {
    match b
    case Stored(data) => NumBits(0, 8 * ByteFrom(p) - p) + BytesBits(StoredHead(|data|) + data)
    case Fixed(ts) => FixedOk(ts); TokensBits(FixedLit(), FixedDist(), ts)
    case Dynamic(h, ts) => HeaderBits(h) + TokensBits(HeaderLengths(h).value.0, HeaderLengths(h).value.1, ts)
  }

  lemma StoredEncoded(src: seq<byte>, p: nat, data: seq<byte>)
    requires |data| < 65536 && HasBits(src, p, BodyBits(Stored(data), p))
    ensures StoredAt(src, ByteFrom(p), data)
    ensures p + |BodyBits(Stored(data), p)| == 8 * (ByteFrom(p) + 4 + |data|)
  {
    hide HasBits, NumBits, BytesBits;
    var a := ByteFrom(p);
    var all := StoredHead(|data|) + data;
    HasBoth(src, p, NumBits(0, 8 * a - p), BytesBits(all));
    BytesDecoded(src, a, all);
    assert src[a] == src[a..a + |all|][0] && src[a + 1] == src[a..a + |all|][1];
    assert data == all[4..] == src[a + 4..a + 4 + |data|];
  }

  lemma BodyEncoded(src: seq<byte>, p: nat, b: Block)
    requires BlockOk(b) && HasBits(src, p, BodyBits(b, p))
    ensures BodyAt(src, p, b, p + |BodyBits(b, p)|)
  {
    hide HasBits, StoredAt, HeaderOk, HeaderLengths, TokensOk, TokensAt, HeaderAt, HeaderBits, TokensBits, NumBits, BytesBits, FixedLit, FixedDist;
    match b {
      case Stored(data) => StoredEncoded(src, p, data);
      case Fixed(ts) =>
        FixedOk(ts);
        TokensEncoded(src, p, FixedLit(), FixedDist(), ts);
      case Dynamic(h, ts) =>
        var (lit, dist) := HeaderLengths(h).value;
        HasBoth(src, p, HeaderBits(h), TokensBits(lit, dist, ts));
        HeaderEncoded(src, p, h);
        TokensEncoded(src, p + |HeaderBits(h)|, lit, dist, ts);
    }
  }

  ghost function BlockBits(b: Block, last: bool, p: nat): seq<bit>
    requires BlockOk(b)
  {
    ([if last then 1 else 0] + NumBits(Kind(b), 2)) + BodyBits(b, p + 3)
  }

  lemma OneBit(src: seq<byte>, p: nat, x: bit)
    requires HasBits(src, p, [x])
    ensures Num(src, p, 1) == x
  {
    assert BitAt(src, p + 0) == [x][0];
  }

  lemma BlockEncoded(src: seq<byte>, p: nat, b: Block, last: bool)
    requires BlockOk(b) && HasBits(src, p, BlockBits(b, last, p))
    ensures BlockAt(src, p, b, last, p + |BlockBits(b, last, p)|)
  {
    hide BodyAt, BlockOk, BodyBits, HasBits, Num, NumBits;
    var x: bit := if last then 1 else 0;
    HasBoth(src, p, [x] + NumBits(Kind(b), 2), BodyBits(b, p + 3));
    HasBoth(src, p, [x], NumBits(Kind(b), 2));
    OneBit(src, p, x);
    NumOfBits(src, p + 1, Kind(b), 2);
    BodyEncoded(src, p + 3, b);
    HasRoom(src, p + 1, NumBits(Kind(b), 2));
  }

  ghost function BlocksBits(bs: seq<Block>, p: nat): seq<bit>
    requires forall b <- bs :: BlockOk(b)
    decreases |bs|
  {
    if bs == [] then []
    else var first := BlockBits(bs[0], |bs| == 1, p); first + BlocksBits(bs[1..], p + |first|)
  }

  lemma {:induction false} BlocksEncoded(src: seq<byte>, p: nat, bs: seq<Block>)
    requires bs != [] && (forall b <- bs :: BlockOk(b)) && HasBits(src, p, BlocksBits(bs, p))
    ensures BlocksAt(src, p, bs)
    decreases |bs|
  {
    hide HasBits, BlockOk, BlockBits, BlockAt;
    var first := BlockBits(bs[0], |bs| == 1, p);
    HasBoth(src, p, first, BlocksBits(bs[1..], p + |first|));
    BlockEncoded(src, p, bs[0], |bs| == 1);
    if |bs| > 1 {
      BlocksEncoded(src, p + |first|, bs[1..]);
    }
  }

  // ---------------------------------------------------------------- packing

  /** The number whose low bits are `bs`. */
  function Packed(bs: seq<bit>): (r: nat)
    ensures r < Pow2(|bs|)
  {
    if bs == [] then 0 else bs[0] + 2 * Packed(bs[1..])
  }

  lemma {:induction false} PackedBit(bs: seq<bit>, i: nat)
    requires i < |bs|
    ensures Bit(Packed(bs), i) == bs[i]
  {
    if i > 0 {
      PackedBit(bs[1..], i - 1);
    }
  }

  /** Bits packed into bytes, first bit lowest, the last byte filled with zeros. */
  function Pack(bs: seq<bit>): (src: seq<byte>)
    ensures |bs| <= 8 * |src|
  {
    if bs == [] then []
    else
      var n := if |bs| < 8 then |bs| else 8;
      Pow2Mono(n, 8);
      assert Pow2(8) == 16 * Pow2(4);
      [Packed(bs[..n])] + Pack(bs[n..])
  }

  lemma {:induction false} PackHas(bs: seq<bit>, i: nat)
    requires i < |bs|
    ensures BitAt(Pack(bs), i) == bs[i]
  {
    hide Bit, Packed;
    var n := if |bs| < 8 then |bs| else 8;
    if i < n {
      PackedBit(bs[..n], i);
    } else {
      PackHas(bs[n..], i - n);
      NextByte(Pack(bs), i);
      assert Pack(bs)[1..] == Pack(bs[n..]);
    }
  }

  lemma NextByte(src: seq<byte>, i: nat)
    requires 8 <= i < 8 * |src|
    ensures BitAt(src, i) == BitAt(src[1..], i - 8)
  {
    assert (i - 8) / 8 == i / 8 - 1 && (i - 8) % 8 == i % 8;
  }

  /** Inflating what blocks are packed into gives back what they stand for. */
  lemma RoundTrip(bs: seq<Block>, out: seq<byte>)
    requires bs != [] && (forall b <- bs :: BlockOk(b)) && ExpandBlocks([], bs) == Some(out)
    ensures Inflate.Inflated(Pack(BlocksBits(bs, 0)), |out|) == Inflate.Ok(out)
  {
    hide BlockOk, ExpandBlock;
    var bits := BlocksBits(bs, 0);
    var src := Pack(bits);
    forall i | 0 <= i < |bits|
      ensures BitAt(src, 0 + i) == bits[i]
    {
      PackHas(bits, i);
    }
    BlocksEncoded(src, 0, bs);
    Inflate.InflatesExactly(src, |out|, out);
  }
}
