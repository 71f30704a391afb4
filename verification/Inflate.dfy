/** `js/src/inflate.ts`: what inflating gives, as a function of its input, and the theorem that this is decoding. */
module Inflate {
  import opened Wrappers
  import opened Bits
  import opened BitStream
  import opened Huffman
  import opened Deflate

  datatype Fault =
    | EndsEarly | NotInTable | TooManyBytes | BadLength | BadDistance | MatchOutside
    | StoredEndsEarly | StoredOutside | NothingToRepeat | LengthsRunOver | BadType | TooFewBytes

  datatype Result<+T> = Ok(value: T) | Fail(fault: Fault)
  {
    predicate IsFailure() { Fail? }

    function PropagateFailure<U>(): Result<U>
      requires Fail?
    {
      Fail(fault)
    }

    function Extract(): T
      requires Ok?
    {
      value
    }
  }

  /** The `n` bits at `p`, and the position after them. */
  function Field(src: seq<byte>, p: nat, n: nat): (r: Result<(nat, nat)>)
    ensures r.Ok? ==> p <= r.value.1 <= 8 * |src|
  {
    if p + n <= 8 * |src| then Ok((Num(src, p, n), p + n)) else Fail(EndsEarly)
  }

  /** The symbol whose code is at `p`, and the position after it. */
  ghost function Symbol(ls: seq<nat>, src: seq<byte>, p: nat): (r: Result<(nat, nat)>)
    ensures r.Ok? ==> r.value.0 < |ls| && p < r.value.1 <= 8 * |src|
  {
    if exists s :: CodeAt(ls, src, p, s) then
      var s: nat :| CodeAt(ls, src, p, s);
      Ok((s, p + ls[s]))
    else if p + 15 <= 8 * |src| then Fail(NotInTable)
    else Fail(EndsEarly)
  }

  lemma SymbolIs(ls: seq<nat>, src: seq<byte>, p: nat, s: nat)
    requires CodeAt(ls, src, p, s)
    ensures Symbol(ls, src, p) == Ok((s, p + ls[s]))
  {
    var t := Symbol(ls, src, p).value.0;
    CodeAtUnique(ls, src, p, s, t);
  }

  /** The rest of a match whose length symbol is `257 + k`. */
  ghost function MatchFrom(src: seq<byte>, p: nat, k: nat, dist: seq<nat>): (r: Result<(Token, nat)>)
    ensures r.Ok? ==> p < r.value.1 <= 8 * |src|
  {
    if k >= 29 then Fail(BadLength) else
    var (x, q) :- Field(src, p, LenExtra(k));
    var (d, u) :- Symbol(dist, src, q);
    if d >= 30 then Fail(BadDistance) else
    var (y, e) :- Field(src, u, DistExtra(d));
    Ok((Match(k, x, d, y), e))
  }

  /** The token at `p`, or None for the end of block, and the position after it. */
  ghost function Next(src: seq<byte>, p: nat, lit: seq<nat>, dist: seq<nat>): (r: Result<(Option<Token>, nat)>)
    ensures r.Ok? ==> p < r.value.1 <= 8 * |src|
  {
    var (sym, q) :- Symbol(lit, src, p);
    if sym < 256 then Ok((Some(Literal(sym)), q))
    else if sym == 256 then Ok((None, q))
    else
      var (t, e) :- MatchFrom(src, q, sym - 257, dist);
      Ok((Some(t), e))
  }

  /** A token's bytes added to the output, if there is room and something to copy. */
  function Put(out: seq<byte>, t: Token, size: nat): (r: Result<seq<byte>>)
    ensures r.Ok? ==> |out| <= |r.value| <= size
  {
    match t
    case Literal(v) => if |out| >= size then Fail(TooManyBytes) else Ok(out + [v])
    case Match(_, _, _, _) =>
      if t.Distance() < 1 || t.Distance() > |out| || |out| + t.Length() > size then Fail(MatchOutside)
      else Ok(Copy(out, t.Distance(), t.Length()))
  }

  /** The tokens at `p` up to the end of block, added to `out`. */
  ghost function Codes(src: seq<byte>, p: nat, lit: seq<nat>, dist: seq<nat>, out: seq<byte>, size: nat): (r: Result<(seq<byte>, nat)>)
    requires |out| <= size
    ensures r.Ok? ==> |out| <= |r.value.0| <= size && p < r.value.1 <= 8 * |src|
    decreases 8 * |src| - p
  {
    var (t, q) :- Next(src, p, lit, dist);
    if t == None then Ok((out, q)) else
    var o :- Put(out, t.value, size);
    Codes(src, q, lit, dist, o, size)
  }

  /** The run of code lengths whose symbol is `sym`. */
  function RunFrom(src: seq<byte>, p: nat, sym: nat): (r: Result<(Run, nat)>)
    ensures r.Ok? ==> p <= r.value.1 <= 8 * |src| || r.value.1 == p
  {
    if sym < 16 then Ok((One(sym), p))
    else if sym == 16 then var (n, e) :- Field(src, p, 2); Ok((Again(3 + n), e))
    else if sym == 17 then var (n, e) :- Field(src, p, 3); Ok((Zeros(3 + n), e))
    else var (n, e) :- Field(src, p, 7); Ok((ManyZeros(11 + n), e))
  }

  /** The run of code lengths at `p`, added to `acc`, and the position after it. */
  ghost function NextRun(src: seq<byte>, p: nat, cl: seq<nat>, total: nat, acc: seq<nat>): (r: Result<(seq<nat>, nat)>)
    ensures r.Ok? ==> |r.value.0| <= total && p < r.value.1 <= 8 * |src|
  {
    var (sym, q) :- Symbol(cl, src, p);
    if sym == 16 && acc == [] then Fail(NothingToRepeat) else
    var (run, e) :- RunFrom(src, q, sym);
    var more := ExpandRun(acc, run).value;
    if |more| > total then Fail(LengthsRunOver) else Ok((more, e))
  }

  /** The code lengths at `p`, added to `acc` until there are `total`. */
  ghost function CodeLengths(src: seq<byte>, p: nat, cl: seq<nat>, total: nat, acc: seq<nat>): (r: Result<(seq<nat>, nat)>)
    requires |acc| <= total
    ensures r.Ok? ==> |r.value.0| == total && p <= r.value.1
    decreases 8 * |src| - p
  {
    if |acc| == total then Ok((acc, p)) else
    var (more, e) :- NextRun(src, p, cl, total, acc);
    CodeLengths(src, e, cl, total, more)
  }

  /** A dynamic block's header: the literal and distance code lengths, and the position after it. */
  ghost function HeaderFrom(src: seq<byte>, p: nat): (r: Result<((seq<nat>, seq<nat>), nat)>)
    ensures r.Ok? ==> p < r.value.1
  {
    var (hlit, p1) :- Field(src, p, 5);
    var (hdist, p2) :- Field(src, p1, 5);
    var (hcode, p3) :- Field(src, p2, 4);
    NumBound(src, p2, 4);
    var nlen, ndist, ncode := hlit + 257, hdist + 1, hcode + 4;
    if p3 + 3 * ncode > 8 * |src| then Fail(EndsEarly) else
    var cl := CodeLengthLengths(src, p3, ncode);
    var (ls, e) :- CodeLengths(src, p3 + 3 * ncode, cl, nlen + ndist, []);
    Ok(((ls[..nlen], ls[nlen..]), e))
  }

  ghost function Body(src: seq<byte>, p: nat, kind: nat, out: seq<byte>, size: nat): (r: Result<(seq<byte>, nat)>)
    requires |out| <= size
    ensures r.Ok? ==> |out| <= |r.value.0| <= size && p <= r.value.1
  {
    if kind == 0 then
      var a := ByteFrom(p);
      if a + 4 > |src| then Fail(StoredEndsEarly) else
      var len := src[a] as int + 256 * src[a + 1] as int;
      if a + 4 + len > |src| || |out| + len > size then Fail(StoredOutside)
      else Ok((out + src[a + 4..a + 4 + len], 8 * (a + 4 + len)))
    else if kind == 1 then Codes(src, p, FixedLit(), FixedDist(), out, size)
    else if kind == 2 then
      var ((lit, dist), q) :- HeaderFrom(src, p);
      Codes(src, q, lit, dist, out, size)
    else Fail(BadType)
  }

  /** The blocks at `p` up to the last, added to `out`. */
  ghost function Blocks(src: seq<byte>, p: nat, out: seq<byte>, size: nat): (r: Result<seq<byte>>)
    requires |out| <= size
    ensures r.Ok? ==> |out| <= |r.value| <= size
    decreases 8 * |src| - p
  {
    var (last, p1) :- Field(src, p, 1);
    var (kind, p3) :- Field(src, p1, 2);
    var (o, e) :- Body(src, p3, kind, out, size);
    if last == 1 then Ok(o) else Blocks(src, e, o, size)
  }

  /** All of `inflateRaw`: exactly `size` bytes, or why not. */
  ghost function Inflated(src: seq<byte>, size: nat): (r: Result<seq<byte>>)
    ensures r.Ok? ==> |r.value| == size
  {
    var o :- Blocks(src, 0, [], size);
    if |o| == size then Ok(o) else Fail(TooFewBytes)
  }

  // ---------------------------------------------------------------- decoding is right

  lemma MatchFromComplete(src: seq<byte>, p: nat, lit: seq<nat>, dist: seq<nat>, t: Token, e: nat)
    requires t.Match? && TokenAt(src, p, lit, dist, t, e)
    ensures MatchFrom(src, p + lit[257 + t.k], t.k, dist) == Ok((t, e))
  {
    hide LenExtra, DistExtra, Msb;
    SymbolIs(dist, src, p + lit[257 + t.k] + LenExtra(t.k), t.d);
  }

  /** A token in the input is found there. */
  lemma NextComplete(src: seq<byte>, p: nat, lit: seq<nat>, dist: seq<nat>, t: Token, e: nat)
    requires TokenAt(src, p, lit, dist, t, e)
    ensures Next(src, p, lit, dist) == Ok((Some(t), e))
  {
    hide MatchFrom, Num, Msb, LenExtra, DistExtra, Symbol;
    if t.Match? {
      SymbolIs(lit, src, p, 257 + t.k);
      MatchFromComplete(src, p, lit, dist, t, e);
    } else {
      SymbolIs(lit, src, p, t.value);
    }
  }

  lemma EndComplete(src: seq<byte>, p: nat, lit: seq<nat>, dist: seq<nat>)
    requires CodeAt(lit, src, p, 256)
    ensures Next(src, p, lit, dist) == Ok((None, p + lit[256]))
  {
    SymbolIs(lit, src, p, 256);
  }

  /** What is found is in the input. */
  lemma NextSound(src: seq<byte>, p: nat, lit: seq<nat>, dist: seq<nat>, t: Option<Token>, e: nat)
    requires Next(src, p, lit, dist) == Ok((t, e))
    ensures if t == None then CodeAt(lit, src, p, 256) && e == p + lit[256] else TokenAt(src, p, lit, dist, t.value, e)
  {
    hide CodeAt, LenExtra, DistExtra, Symbol, MatchFrom, Num, Msb;
    var (sym, q) := Symbol(lit, src, p).value;
    SymbolFound(lit, src, p);
    if sym > 256 {
      MatchFromSound(src, q, sym - 257, dist);
    }
  }

  lemma SymbolFound(ls: seq<nat>, src: seq<byte>, p: nat)
    requires Symbol(ls, src, p).Ok?
    ensures CodeAt(ls, src, p, Symbol(ls, src, p).value.0)
    ensures Symbol(ls, src, p).value.1 == p + ls[Symbol(ls, src, p).value.0]
  {}

  lemma MatchFromSound(src: seq<byte>, q: nat, k: nat, dist: seq<nat>)
    requires MatchFrom(src, q, k, dist).Ok?
    ensures k < 29 && q + LenExtra(k) <= 8 * |src|
    ensures var (t, e) := MatchFrom(src, q, k, dist).value;
            && t.Match? && t.k == k && t.x == Num(src, q, LenExtra(k))
            && t.d < 30 && CodeThen(dist, src, q + LenExtra(k), t.d, DistExtra(t.d), t.y)
            && e == q + LenExtra(k) + dist[t.d] + DistExtra(t.d)
  {
    hide Symbol, CodeAt, Num, LenExtra, DistExtra;
    SymbolFound(dist, src, q + LenExtra(k));
  }

  lemma PutExpands(out: seq<byte>, t: Token, size: nat)
    requires |out| <= size
    ensures Put(out, t, size).Ok? <==> ExpandToken(out, t).Some? && |ExpandToken(out, t).value| <= size
    ensures Put(out, t, size).Ok? ==> Put(out, t, size).value == ExpandToken(out, t).value
  {}

  lemma {:induction false} ExpandGrows(out: seq<byte>, ts: seq<Token>)
    requires Expand(out, ts).Some?
    ensures |out| <= |Expand(out, ts).value|
    decreases |ts|
  {
    if ts != [] {
      ExpandGrows(ExpandToken(out, ts[0]).value, ts[1..]);
    }
  }

  /** Tokens in the input whose expansion fits are what is decoded. */
  lemma {:induction false} CodesComplete(src: seq<byte>, p: nat, lit: seq<nat>, dist: seq<nat>, ts: seq<Token>, e: nat, out: seq<byte>, size: nat)
    requires TokensAt(src, p, lit, dist, ts, e)
    requires |out| <= size && Expand(out, ts).Some? && |Expand(out, ts).value| <= size
    ensures Codes(src, p, lit, dist, out, size) == Ok((Expand(out, ts).value, e))
    decreases |ts|
  {
    hide CodeAt, TokenAt, ExpandToken, Put, Next;
    if ts == [] {
      EndComplete(src, p, lit, dist);
    } else {
      var q :| TokenAt(src, p, lit, dist, ts[0], q) && TokensAt(src, q, lit, dist, ts[1..], e);
      var o := ExpandToken(out, ts[0]).value;
      NextComplete(src, p, lit, dist, ts[0], q);
      ExpandGrows(o, ts[1..]);
      PutExpands(out, ts[0], size);
      CodesComplete(src, q, lit, dist, ts[1..], e, o, size);
    }
  }

  /** What is decoded is tokens in the input. */
  lemma {:induction false} CodesSound(src: seq<byte>, p: nat, lit: seq<nat>, dist: seq<nat>, out: seq<byte>, size: nat) returns (ts: seq<Token>)
    requires |out| <= size && Codes(src, p, lit, dist, out, size).Ok?
    ensures TokensAt(src, p, lit, dist, ts, Codes(src, p, lit, dist, out, size).value.1)
    ensures Expand(out, ts) == Some(Codes(src, p, lit, dist, out, size).value.0)
    decreases 8 * |src| - p
  {
    hide CodeAt, TokenAt, ExpandToken, Put, Next;
    var (t, q) := Next(src, p, lit, dist).value;
    NextSound(src, p, lit, dist, t, q);
    if t == None {
      ts := [];
    } else {
      PutExpands(out, t.value, size);
      var rest := CodesSound(src, q, lit, dist, Put(out, t.value, size).value, size);
      ts := [t.value] + rest;
      assert ts[1..] == rest;
    }
  }

  /** Tokens are decoded exactly when the input has them. */
  lemma CodesExact(src: seq<byte>, p: nat, lit: seq<nat>, dist: seq<nat>, out: seq<byte>, size: nat, o: seq<byte>, e: nat)
    requires |out| <= size
    ensures Codes(src, p, lit, dist, out, size) == Ok((o, e))
            <==> |o| <= size && exists ts :: TokensAt(src, p, lit, dist, ts, e) && Expand(out, ts) == Some(o)
  {
    if Codes(src, p, lit, dist, out, size) == Ok((o, e)) {
      var ts := CodesSound(src, p, lit, dist, out, size);
    }
    if ts :| |o| <= size && TokensAt(src, p, lit, dist, ts, e) && Expand(out, ts) == Some(o) {
      CodesComplete(src, p, lit, dist, ts, e, out, size);
    }
  }

  // ---------------------------------------------------------------- headers

  lemma RunComplete(src: seq<byte>, p: nat, cl: seq<nat>, r: Run, e: nat)
    requires |cl| == 19 && RunAt(src, p, cl, r, e)
    ensures Symbol(cl, src, p).Ok? && (Symbol(cl, src, p).value.0 == 16 <==> r.Again?)
    ensures RunFrom(src, Symbol(cl, src, p).value.1, Symbol(cl, src, p).value.0) == Ok((r, e))
    ensures p < e <= 8 * |src|
  {
    hide CodeAt, Num, Symbol;
    var sym := if r.One? then r.len else if r.Again? then 16 else if r.Zeros? then 17 else 18;
    SymbolIs(cl, src, p, sym);
  }

  lemma RunSound(src: seq<byte>, p: nat, cl: seq<nat>, r: Run, e: nat)
    requires |cl| == 19 && Symbol(cl, src, p).Ok?
    requires RunFrom(src, Symbol(cl, src, p).value.1, Symbol(cl, src, p).value.0) == Ok((r, e))
    ensures RunAt(src, p, cl, r, e) && p < e
  {
    hide Msb, Num, Symbol;
    SymbolFound(cl, src, p);
  }

  /** A run that stands in the input adds at least one length. */
  lemma RunGrows(src: seq<byte>, p: nat, cl: seq<nat>, r: Run, e: nat, acc: seq<nat>)
    requires RunAt(src, p, cl, r, e) && ExpandRun(acc, r).Some?
    ensures |acc| < |ExpandRun(acc, r).value|
  {}

  lemma {:induction false} RunsGrow(src: seq<byte>, p: nat, cl: seq<nat>, rs: seq<Run>, e: nat, acc: seq<nat>)
    requires RunsAt(src, p, cl, rs, e) && ExpandRuns(acc, rs).Some?
    ensures |acc| <= |ExpandRuns(acc, rs).value|
    ensures rs != [] ==> |acc| < |ExpandRuns(acc, rs).value|
    decreases |rs|
  {
    hide RunAt, ExpandRun;
    if rs != [] {
      var q :| RunAt(src, p, cl, rs[0], q) && RunsAt(src, q, cl, rs[1..], e);
      RunGrows(src, p, cl, rs[0], q, acc);
      RunsGrow(src, q, cl, rs[1..], e, ExpandRun(acc, rs[0]).value);
    }
  }

  lemma NextRunComplete(src: seq<byte>, p: nat, cl: seq<nat>, total: nat, acc: seq<nat>, r: Run, e: nat)
    requires |cl| == 19 && RunAt(src, p, cl, r, e)
    requires ExpandRun(acc, r).Some? && |ExpandRun(acc, r).value| <= total
    ensures NextRun(src, p, cl, total, acc) == Ok((ExpandRun(acc, r).value, e))
  {
    RunComplete(src, p, cl, r, e);
    hide RunAt, RunFrom, Symbol;
  }

  lemma {:induction false} CodeLengthsComplete(src: seq<byte>, p: nat, cl: seq<nat>, total: nat, acc: seq<nat>, rs: seq<Run>, e: nat)
    requires |cl| == 19 && RunsAt(src, p, cl, rs, e)
    requires ExpandRuns(acc, rs).Some? && |ExpandRuns(acc, rs).value| == total && |acc| <= total
    ensures CodeLengths(src, p, cl, total, acc) == Ok((ExpandRuns(acc, rs).value, e))
    decreases |rs|
  {
    hide RunAt, RunFrom, ExpandRun, NextRun;
    RunsGrow(src, p, cl, rs, e, acc);
    if rs != [] {
      var q :| RunAt(src, p, cl, rs[0], q) && RunsAt(src, q, cl, rs[1..], e);
      var more := ExpandRun(acc, rs[0]).value;
      RunsGrow(src, q, cl, rs[1..], e, more);
      NextRunComplete(src, p, cl, total, acc, rs[0], q);
      CodeLengthsComplete(src, q, cl, total, more, rs[1..], e);
    }
  }

  lemma {:induction false} CodeLengthsSound(src: seq<byte>, p: nat, cl: seq<nat>, total: nat, acc: seq<nat>) returns (rs: seq<Run>)
    requires |cl| == 19 && |acc| <= total && CodeLengths(src, p, cl, total, acc).Ok?
    ensures RunsAt(src, p, cl, rs, CodeLengths(src, p, cl, total, acc).value.1)
    ensures ExpandRuns(acc, rs) == Some(CodeLengths(src, p, cl, total, acc).value.0)
    decreases 8 * |src| - p
  {
    if |acc| == total {
      rs := [];
    } else {
      var (sym, q) := Symbol(cl, src, p).value;
      var (r, e) := RunFrom(src, q, sym).value;
      RunSound(src, p, cl, r, e);
      hide RunAt, RunFrom, Symbol;
      var rest := CodeLengthsSound(src, e, cl, total, ExpandRun(acc, r).value);
      rs := [r] + rest;
      assert rs[1..] == rest;
    }
  }

  lemma HeaderComplete(src: seq<byte>, p: nat, h: Header, e: nat)
    requires HeaderAt(src, p, h, e) && HeaderLengths(h).Some?
    ensures HeaderFrom(src, p) == Ok((HeaderLengths(h).value, e))
  {
    hide RunsAt, Num, CodeLengthLengths, CodeLengths;
    CodeLengthsComplete(src, p + 14 + 3 * h.ncode, h.cl, h.nlen + h.ndist, [], h.runs, e);
  }

  lemma HeaderSound(src: seq<byte>, p: nat) returns (h: Header)
    requires HeaderFrom(src, p).Ok?
    ensures HeaderAt(src, p, h, HeaderFrom(src, p).value.1)
    ensures HeaderLengths(h) == Some(HeaderFrom(src, p).value.0)
  {
    hide RunsAt, Num, CodeLengthLengths, CodeLengths;
    var nlen, ndist, ncode := Num(src, p, 5) + 257, Num(src, p + 5, 5) + 1, Num(src, p + 10, 4) + 4;
    NumBound(src, p + 10, 4);
    var cl := CodeLengthLengths(src, p + 14, ncode);
    var rs := CodeLengthsSound(src, p + 14 + 3 * ncode, cl, nlen + ndist, []);
    h := Header(nlen, ndist, ncode, cl, rs);
  }

  // ---------------------------------------------------------------- blocks

  lemma BodyComplete(src: seq<byte>, p: nat, b: Block, e: nat, out: seq<byte>, size: nat)
    requires BodyAt(src, p, b, e) && ExpandBlock(out, b).Some?
    requires |out| <= size && |ExpandBlock(out, b).value| <= size
    ensures Body(src, p, Kind(b), out, size) == Ok((ExpandBlock(out, b).value, e))
  {
    hide HeaderAt, TokensAt, Expand;
    match b {
      case Stored(_) =>
      case Fixed(ts) => CodesComplete(src, p, FixedLit(), FixedDist(), ts, e, out, size);
      case Dynamic(h, ts) =>
        var q :| HeaderAt(src, p, h, q) && TokensAt(src, q, HeaderLengths(h).value.0, HeaderLengths(h).value.1, ts, e);
        HeaderComplete(src, p, h, q);
        CodesComplete(src, q, HeaderLengths(h).value.0, HeaderLengths(h).value.1, ts, e, out, size);
    }
  }

  lemma BodySound(src: seq<byte>, p: nat, kind: nat, out: seq<byte>, size: nat) returns (b: Block)
    requires |out| <= size && Body(src, p, kind, out, size).Ok?
    ensures Kind(b) == kind && BodyAt(src, p, b, Body(src, p, kind, out, size).value.1)
    ensures ExpandBlock(out, b) == Some(Body(src, p, kind, out, size).value.0)
  {
    hide HeaderAt, TokensAt, Expand, Codes, HeaderFrom, HeaderLengths;
    if kind == 0 {
      var a := ByteFrom(p);
      b := Stored(src[a + 4..a + 4 + (src[a] as int + 256 * src[a + 1] as int)]);
    } else if kind == 1 {
      var ts := CodesSound(src, p, FixedLit(), FixedDist(), out, size);
      b := Fixed(ts);
    } else {
      var h := HeaderSound(src, p);
      var ((lit, dist), q) := HeaderFrom(src, p).value;
      var ts := CodesSound(src, q, lit, dist, out, size);
      b := Dynamic(h, ts);
    }
  }

  lemma {:induction false} ExpandBlocksGrows(out: seq<byte>, bs: seq<Block>)
    requires ExpandBlocks(out, bs).Some?
    ensures |out| <= |ExpandBlocks(out, bs).value|
    decreases |bs|
  {
    if bs != [] {
      if !bs[0].Stored? {
        ExpandGrows(out, bs[0].ts);
      }
      ExpandBlocksGrows(ExpandBlock(out, bs[0]).value, bs[1..]);
    }
  }

  lemma {:induction false} BlocksComplete(src: seq<byte>, p: nat, bs: seq<Block>, out: seq<byte>, size: nat)
    requires BlocksAt(src, p, bs) && ExpandBlocks(out, bs).Some?
    requires |out| <= size && |ExpandBlocks(out, bs).value| <= size
    ensures Blocks(src, p, out, size) == Ok(ExpandBlocks(out, bs).value)
    decreases |bs|
  {
    hide BodyAt, ExpandBlock, Body;
    var o := ExpandBlock(out, bs[0]).value;
    ExpandBlocksGrows(o, bs[1..]);
    if |bs| == 1 {
      var e :| BlockAt(src, p, bs[0], true, e);
      BodyComplete(src, p + 3, bs[0], e, out, size);
    } else {
      var e :| BlockAt(src, p, bs[0], false, e) && BlocksAt(src, e, bs[1..]);
      BodyComplete(src, p + 3, bs[0], e, out, size);
      BlocksComplete(src, e, bs[1..], o, size);
    }
  }

  lemma {:induction false} BlocksSound(src: seq<byte>, p: nat, out: seq<byte>, size: nat) returns (bs: seq<Block>)
    requires |out| <= size && Blocks(src, p, out, size).Ok?
    ensures BlocksAt(src, p, bs) && ExpandBlocks(out, bs) == Some(Blocks(src, p, out, size).value)
    decreases 8 * |src| - p
  {
    hide BodyAt, ExpandBlock, Body;
    var b := BodySound(src, p + 3, Num(src, p + 1, 2), out, size);
    var (o, e) := Body(src, p + 3, Num(src, p + 1, 2), out, size).value;
    if Num(src, p, 1) == 1 {
      bs := [b];
      assert BlockAt(src, p, bs[0], true, e);
      assert ExpandBlocks(o, bs[1..]) == Some(o);
    } else {
      NumBound(src, p, 1);
      var rest := BlocksSound(src, e, o, size);
      bs := [b] + rest;
      assert bs[1..] == rest;
      assert rest != [];
      assert BlockAt(src, p, bs[0], false, e);
    }
  }

  /**
   The input inflates to `out` exactly when its bits begin with blocks that
   stand for `out`, and `out` has the size asked for.
   */
  lemma InflatesExactly(src: seq<byte>, size: nat, out: seq<byte>)
    ensures Inflated(src, size) == Ok(out)
            <==> |out| == size && exists bs :: BlocksAt(src, 0, bs) && ExpandBlocks([], bs) == Some(out)
  {
    if Inflated(src, size) == Ok(out) {
      var bs := BlocksSound(src, 0, [], size);
    }
    if bs :| |out| == size && BlocksAt(src, 0, bs) && ExpandBlocks([], bs) == Some(out) {
      BlocksComplete(src, 0, bs, [], size);
    }
  }
}
