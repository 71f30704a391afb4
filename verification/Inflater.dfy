/** `js/src/inflate.ts`: the decoder itself, a bit at a time. */
module Inflater {
  import opened Wrappers
  import opened Bits
  import opened BitStream
  import opened Huffman
  import opened Deflate
  import opened Inflate

  /** How many symbols have each length. */
  method Tally(lengths: seq<nat>) returns (counts: array<nat>)
    requires Lengths(lengths)
    ensures fresh(counts) && counts.Length == 16 && counts[0] == 0
    ensures forall L :: 1 <= L < 16 ==> counts[L] == Count(lengths, L)
  {
    counts := new nat[16](_ => 0);
    var i := 0;
    while i < |lengths|
      invariant i <= |lengths|
      invariant forall L :: 0 <= L < 16 ==> counts[L] == CountTo(lengths, i, L)
    {
      counts[lengths[i]] := counts[lengths[i]] + 1;
      i := i + 1;
    }
    counts[0] := 0;
  }

  /** Where the symbols of each length begin. */
  method Offsets(lengths: seq<nat>, counts: array<nat>) returns (offsets: array<nat>)
    requires counts.Length == 16
    requires forall L :: 1 <= L < 16 ==> counts[L] == Count(lengths, L)
    ensures fresh(offsets) && offsets.Length == 16
    ensures forall L :: 1 <= L < 16 ==> offsets[L] == Shorter(lengths, |lengths|, L)
  {
    offsets := new nat[16](_ => 0);
    var len := 1;
    while len < 15
      invariant 1 <= len <= 15
      invariant forall L :: 1 <= L <= len ==> offsets[L] == Shorter(lengths, |lengths|, L)
    {
      offsets[len + 1] := offsets[len] + counts[len];
      len := len + 1;
    }
  }

  /** No two symbols have the same place. */
  lemma PlaceFree(ls: seq<nat>, i: nat)
    requires i < |ls| && ls[i] > 0
    ensures Place(ls, i) < |ls|
    ensures forall s :: 0 <= s < i && ls[s] > 0 ==> Place(ls, s) != Place(ls, i)
  {
    PlaceBounds(ls, i);
    forall s | 0 <= s < i && ls[s] > 0
      ensures Place(ls, s) != Place(ls, i)
    {
      PlaceOrder(ls, s, i);
      PlaceOrder(ls, i, s);
    }
  }

  lemma PlaceIs(ls: seq<nat>, i: nat)
    requires i < |ls| && ls[i] > 0
    ensures Place(ls, i) == Shorter(ls, |ls|, ls[i]) + CountTo(ls, i, ls[i])
  {}

  /** The coded symbols, each put at the next place of its length. */
  method ListSymbols(lengths: seq<nat>, offsets: array<nat>) returns (symbols: array<nat>)
    requires Lengths(lengths) && offsets.Length == 16
    requires forall L :: 1 <= L < 16 ==> offsets[L] == Shorter(lengths, |lengths|, L)
    modifies offsets
    ensures fresh(symbols) && symbols.Length == |lengths|
    ensures forall s :: 0 <= s < |lengths| && lengths[s] > 0 ==> Place(lengths, s) < |lengths| && symbols[Place(lengths, s)] == s
  {
    hide Place, Shorter;
    symbols := new nat[|lengths|](_ => 0);
    var i := 0;
    while i < |lengths|
      invariant i <= |lengths|
      invariant forall L :: 1 <= L < 16 ==> offsets[L] == Shorter(lengths, |lengths|, L) + CountTo(lengths, i, L)
      invariant forall s :: 0 <= s < i && lengths[s] > 0 ==> Place(lengths, s) < |lengths| && symbols[Place(lengths, s)] == s
    {
      var len := lengths[i];
      if len != 0 {
        PlaceFree(lengths, i);
        PlaceIs(lengths, i);
        symbols[offsets[len]] := i;
        offsets[len] := offsets[len] + 1;
      }
      i := i + 1;
    }
  }

  /** A canonical code's table, by counting sort. */
  method BuildTable(lengths: seq<nat>) returns (h: Table)
    requires Lengths(lengths)
    ensures TableOf(h, lengths)
  {
    hide Place, Count;
    var counts := Tally(lengths);
    var offsets := Offsets(lengths, counts);
    var symbols := ListSymbols(lengths, offsets);
    h := Table(counts[..], symbols[..]);
  }

  class Decoder {
    const src: seq<byte>
    const size: nat
    const out: array<byte>
    var op: nat
    var pos: nat
    var bitBuf: nat
    var bitCount: nat

    constructor (src: seq<byte>, size: nat)
      ensures Valid() && fresh(out) && this.src == src && this.size == size
      ensures At() == 0 && Made() == []
    {
      this.src, this.size := src, size;
      out := new byte[size](_ => 0);
      op, pos, bitBuf, bitCount := 0, 0, 0, 0;
    }

    /** Fewer than 8 bits are held back, and they are the input's last ones read. */
    ghost predicate Valid()
      reads this
    {
      && out.Length == size && op <= size
      && pos <= |src| && bitCount < 8 && bitCount <= 8 * pos
      && bitBuf == Num(src, 8 * pos - bitCount, bitCount)
    }

    /** The position of the next bit. */
    ghost function At(): nat
      requires Valid()
      reads this
    {
      8 * pos - bitCount
    }

    /** The output so far. */
    ghost function Made(): seq<byte>
      requires Valid()
      reads this, out
    {
      out[..op]
    }

    /** The next `n` bits; every call asks for at most 13, so `bitBuf` stays below 2^21. */
    method Bits(n: nat) returns (r: Result<nat>)
      requires Valid() && n <= 13
      modifies this`pos, this`bitBuf, this`bitCount
      ensures match Field(src, old(At()), n)
              case Ok((v, e)) => r == Ok(v) && Valid() && At() == e
              case Fail(f) => r == Fail(f)
    {
      hide Num, Or, And, Shl, Shr;
      ghost var p := At();
      while bitCount < n
        invariant pos <= |src| && bitCount <= 8 * pos && bitCount < n + 8
        invariant 8 * pos - bitCount == p
        invariant bitBuf == Num(src, p, bitCount)
        decreases n - bitCount
      {
        if pos >= |src| {
          return Fail(EndsEarly);
        }
        Refill(src, p, bitCount, pos);
        bitBuf := Or(bitBuf, Shl(src[pos], bitCount));
        pos := pos + 1;
        bitCount := bitCount + 8;
      }
      TakeLow(src, p, bitCount, n);
      var v := And(bitBuf, Shl(1, n) - 1);
      bitBuf := Shr(bitBuf, n);
      bitCount := bitCount - n;
      return Ok(v);
    }

    /** One bit more of a code, `code` being those before it and then a 0: a symbol, a fault, or None. */
    method DecodeBit(h: Table, ghost ls: seq<nat>, ghost p: nat, len: nat, code: nat, first: nat, index: nat)
      returns (r: Option<Result<nat>>, longer: nat)
      requires Valid() && TableOf(h, ls) && 1 <= len <= 15 && At() == p + len - 1
      requires Seeking(ls, src, p, len, code, first, index)
      modifies this`pos, this`bitBuf, this`bitCount
      ensures match r
              case Some(Ok(s)) => Valid() && Symbol(ls, src, p) == Ok((s, At()))
              case Some(Fail(f)) => Symbol(ls, src, p) == Fail(f)
              case None =>
                && Valid() && At() == p + len
                && Seeking(ls, src, p, len + 1, Shl(longer, 1), Shl(first + h.counts[len], 1), index + h.counts[len])
    {
      hide Symbol, Num, TableOf, Seeking, Or, Shl;
      TableShape(h, ls);
      var b := Bits(1);
      if b.Fail? {
        NoneLeft(ls, src, p, len, code, first, index);
        return Some(b), code;
      }
      NextBit(src, p, len, code, ls, first, index);
      longer := Or(code, b.value);
      if longer - first < h.counts[len] {
        Hit(h, ls, src, p, len, code, first, index);
        return Some(Ok(h.symbols[index + longer - first])), longer;
      }
      Miss(h, ls, src, p, len, code, first, index);
      return None, longer;
    }

    /** The symbol of the next code. */
    method Decode(h: Table, ghost ls: seq<nat>) returns (r: Result<nat>)
      requires Valid() && TableOf(h, ls)
      modifies this`pos, this`bitBuf, this`bitCount
      ensures match Symbol(ls, src, old(At()))
              case Ok((s, e)) => r == Ok(s) && Valid() && At() == e
              case Fail(f) => r == Fail(f)
    {
      hide Symbol, Num, TableOf, Seeking, Shl;
      ghost var p := At();
      Start(ls, src, p);
      TableShape(h, ls);
      var code, first, index, len := 0, 0, 0, 1;
      while len <= 15
        invariant 1 <= len <= 16 && Valid() && At() == p + len - 1
        invariant Seeking(ls, src, p, len, code, first, index)
      {
        var found, longer := DecodeBit(h, ls, p, len, code, first, index);
        if found.Some? {
          return found.value;
        }
        index := index + h.counts[len];
        first := Shl(first + h.counts[len], 1);
        code := Shl(longer, 1);
        len := len + 1;
      }
      NoneAtAll(h, ls, src, p, code, first, index);
      return Fail(NotInTable);
    }

    /** The length and distance of a match whose length symbol is `257 + k`. */
    method MatchRest(k: nat, dist: Table, ghost dl: seq<nat>) returns (r: Result<(nat, nat)>)
      requires Valid() && TableOf(dist, dl)
      modifies this`pos, this`bitBuf, this`bitCount
      ensures match MatchFrom(src, old(At()), k, dl)
              case Ok((t, e)) => r == Ok((t.Length(), t.Distance())) && t.Distance() >= 1 && Valid() && At() == e
              case Fail(f) => r == Fail(f)
    {
      hide Symbol, Num, TableOf, LenExtra, DistExtra, LenBase, DistBase;
      if k >= 29 {
        return Fail(BadLength);
      }
      var x :- Bits(LenExtra(k));
      var d :- Decode(dist, dl);
      if d >= 30 {
        return Fail(BadDistance);
      }
      var y :- Bits(DistExtra(d));
      return Ok((LenBase(k) + x, DistBase(d) + y));
    }

    /** Copy `len` bytes from `back` bytes before, one at a time: they may overlap. */
    method CopyBack(back: nat, len: nat)
      requires Valid() && 1 <= back <= op && op + len <= size
      modifies this`op, out
      ensures Valid() && Made() == Copy(old(Made()), back, len)
    {
      ghost var base, from := Made(), op;
      var i := 0;
      while i < len
        invariant i <= len && op == from + i && Valid()
        invariant out[..from] == base
        invariant forall j :: 0 <= j < i ==> out[from + j] == base[from - back + j % back]
      {
        Wraps(i, back);
        out[op] := out[op - back];
        i, op := i + 1, op + 1;
      }
    }

    /** One token: done at the end of block, else its bytes are added. */
    method Token(lit: Table, dist: Table, ghost ll: seq<nat>, ghost dl: seq<nat>) returns (r: Result<bool>)
      requires Valid() && TableOf(lit, ll) && TableOf(dist, dl)
      modifies this`op, this`pos, this`bitBuf, this`bitCount, out
      ensures match Next(src, old(At()), ll, dl)
              case Ok((None, e)) => r == Ok(true) && Valid() && Made() == old(Made()) && At() == e
              case Ok((Some(t), e)) => (match Put(old(Made()), t, size)
                                        case Ok(o) => r == Ok(false) && Valid() && Made() == o && At() == e
                                        case Fail(f) => r == Fail(f))
              case Fail(f) => r == Fail(f)
    {
      hide Symbol, Num, TableOf, MatchFrom, Copy;
      var sym :- Decode(lit, ll);
      if sym < 256 {
        if op >= size {
          return Fail(TooManyBytes);
        }
        out[op] := sym;
        op := op + 1;
      } else if sym == 256 {
        return Ok(true);
      } else {
        var m :- MatchRest(sym - 257, dist, dl);
        var (len, back) := m;
        if back > op || op + len > size {
          return Fail(MatchOutside);
        }
        CopyBack(back, len);
      }
      return Ok(false);
    }

    /** Tokens up to the end of block. */
    method Codes(lit: Table, dist: Table, ghost ll: seq<nat>, ghost dl: seq<nat>) returns (r: Result<()>)
      requires Valid() && TableOf(lit, ll) && TableOf(dist, dl)
      modifies this`op, this`pos, this`bitBuf, this`bitCount, out
      ensures match Inflate.Codes(src, old(At()), ll, dl, old(Made()), size)
              case Ok((o, e)) => r == Ok(()) && Valid() && Made() == o && At() == e
              case Fail(f) => r == Fail(f)
    {
      hide Next, Num, TableOf, Put;
      ghost var all := Inflate.Codes(src, At(), ll, dl, Made(), size);
      while true
        invariant Valid() && Inflate.Codes(src, At(), ll, dl, Made(), size) == all
        decreases 8 * |src| - At()
      {
        var done := Token(lit, dist, ll, dl);
        if done.Fail? {
          return Fail(done.fault);
        }
        if done.value {
          return Ok(());
        }
      }
    }

    /** The code length code's lengths, three bits each, in the order they are given. */
    method CodeLengthCode(ncode: nat, lengths: array<nat>) returns (r: Result<()>)
      requires Valid() && ncode <= 19 <= lengths.Length
      requires forall s :: 0 <= s < 19 ==> lengths[s] == 0
      modifies this`pos, this`bitBuf, this`bitCount, lengths
      ensures if old(At()) + 3 * ncode > 8 * |src| then r == Fail(EndsEarly)
              else r == Ok(()) && Valid() && At() == old(At()) + 3 * ncode
                   && lengths[..19] == CodeLengthLengths(src, old(At()), ncode)
    {
      hide Num;
      ghost var p := At();
      var i := 0;
      while i < ncode
        invariant i <= ncode && Valid() && At() == p + 3 * i
        invariant forall s :: 0 <= s < 19 ==> lengths[s] == if WHERE[s] < i then Num(src, p + 3 * WHERE[s], 3) else 0
      {
        var v :- Bits(3);
        forall s | 0 <= s < 19
          ensures WHERE[s] == i <==> ORDER[i] == s
        {
          OrderInverse(i, s);
        }
        lengths[ORDER[i]] := v;
        i := i + 1;
      }
      return Ok(());
    }

    /** How often to repeat a code length, for a symbol past the lengths themselves. */
    method Repeats(sym: nat) returns (r: Result<nat>)
      requires Valid() && sym >= 16
      modifies this`pos, this`bitBuf, this`bitCount
      ensures match RunFrom(src, old(At()), sym)
              case Ok((run, e)) => r == Ok(run.n) && Valid() && At() == e
              case Fail(f) => r == Fail(f)
    {
      hide Num;
      if sym == 16 {
        var n :- Bits(2);
        return Ok(3 + n);
      } else if sym == 17 {
        var n :- Bits(3);
        return Ok(3 + n);
      } else {
        var n :- Bits(7);
        return Ok(11 + n);
      }
    }

    /** One run of code lengths, put into `lengths` from `i`; the index after it. */
    method PutRun(h: Table, ghost cl: seq<nat>, total: nat, lengths: array<nat>, i: nat) returns (r: Result<nat>)
      requires Valid() && TableOf(h, cl) && |cl| == 19 && i < total <= lengths.Length && Lengths(lengths[..i])
      modifies this`pos, this`bitBuf, this`bitCount, lengths
      ensures match NextRun(src, old(At()), cl, total, old(lengths[..i]))
              case Ok((more, e)) => r == Ok(|more|) && Valid() && At() == e && lengths[..|more|] == more && Lengths(more)
              case Fail(f) => r == Fail(f)
    {
      hide Symbol, Num, TableOf;
      var sym :- Decode(h, cl);
      if sym < 16 {
        lengths[i] := sym;
        return Ok(i + 1);
      }
      if sym == 16 && i == 0 {
        return Fail(NothingToRepeat);
      }
      var value := if sym == 16 then lengths[i - 1] else 0;
      var repeat :- Repeats(sym);
      if i + repeat > total {
        return Fail(LengthsRunOver);
      }
      forall j | i <= j < i + repeat {
        lengths[j] := value;
      }
      return Ok(i + repeat);
    }

    /** All the code lengths of a block, put into `lengths`. */
    method ReadLengths(h: Table, ghost cl: seq<nat>, total: nat, lengths: array<nat>) returns (r: Result<()>)
      requires Valid() && TableOf(h, cl) && |cl| == 19 && total <= lengths.Length
      modifies this`pos, this`bitBuf, this`bitCount, lengths
      ensures match CodeLengths(src, old(At()), cl, total, [])
              case Ok((ls, e)) => r == Ok(()) && Valid() && At() == e && lengths[..total] == ls && Lengths(ls)
              case Fail(f) => r == Fail(f)
    {
      hide Num, TableOf, NextRun;
      ghost var all := CodeLengths(src, At(), cl, total, []);
      var i: nat := 0;
      assert lengths[..0] == [];
      while i < total
        invariant i <= total && Valid() && Lengths(lengths[..i])
        invariant CodeLengths(src, At(), cl, total, lengths[..i]) == all
        decreases 8 * |src| - At()
      {
        i :- PutRun(h, cl, total, lengths, i);
      }
      return Ok(());
    }

    /** The code that the code lengths are given in; `lengths` is used and left zero. */
    method LengthCode(ncode: nat, lengths: array<nat>) returns (r: Result<Table>)
      requires Valid() && ncode <= 19 && lengths.Length == 320
      requires forall s :: 0 <= s < 320 ==> lengths[s] == 0
      modifies this`pos, this`bitBuf, this`bitCount, lengths
      ensures if old(At()) + 3 * ncode > 8 * |src| then r == Fail(EndsEarly)
              else r.Ok? && Valid() && At() == old(At()) + 3 * ncode
                   && TableOf(r.value, CodeLengthLengths(src, old(At()), ncode))
    {
      hide Num, TableOf, CodeLengthLengths;
      ghost var p := At();
      var given :- CodeLengthCode(ncode, lengths);
      CodeLengthsSmall(src, p, ncode);
      var h := BuildTable(lengths[..19]);
      forall j | 0 <= j < 320 {
        lengths[j] := 0;
      }
      return Ok(h);
    }

    /** A dynamic block's literal and distance codes. */
    method DynamicCodes() returns (r: Result<(Table, Table)>)
      requires Valid()
      modifies this`pos, this`bitBuf, this`bitCount
      ensures match HeaderFrom(src, old(At()))
              case Ok(((ll, dl), e)) => r.Ok? && TableOf(r.value.0, ll) && TableOf(r.value.1, dl) && Valid() && At() == e
              case Fail(f) => r == Fail(f)
    {
      hide Num, TableOf, CodeLengths, CodeLengthLengths;
      ghost var p := At();
      var hlit :- Bits(5);
      var hdist :- Bits(5);
      var hcode :- Bits(4);
      HeaderBounds(src, p);
      var nlen, ndist, ncode := hlit + 257, hdist + 1, hcode + 4;
      var lengths := new nat[320](_ => 0);
      var lencode :- LengthCode(ncode, lengths);
      var given :- ReadLengths(lencode, CodeLengthLengths(src, p + 14, ncode), nlen + ndist, lengths);
      var lit, dist := TwoTables(lengths, nlen, ndist);
      return Ok((lit, dist));
    }

    /** The tables of the two codes whose lengths have been read, one after the other. */
    method TwoTables(lengths: array<nat>, nlen: nat, ndist: nat) returns (lit: Table, dist: Table)
      requires nlen + ndist <= lengths.Length && Lengths(lengths[..nlen + ndist])
      ensures var ls := lengths[..nlen + ndist]; TableOf(lit, ls[..nlen]) && TableOf(dist, ls[nlen..])
    {
      hide TableOf;
      ghost var ls := lengths[..nlen + ndist];
      assert ls[..nlen] == lengths[..nlen] && ls[nlen..] == lengths[nlen..nlen + ndist];
      lit := BuildTable(lengths[..nlen]);
      dist := BuildTable(lengths[nlen..nlen + ndist]);
    }

    /** A stored block, from the next whole byte. */
    method StoredBlock() returns (r: Result<()>)
      requires Valid()
      modifies this`op, this`pos, this`bitBuf, this`bitCount, out
      ensures match Body(src, old(At()), 0, old(Made()), size)
              case Ok((o, e)) => r == Ok(()) && Valid() && Made() == o && At() == e
              case Fail(f) => r == Fail(f)
    {
      hide Or, Shl, HeaderFrom, Inflate.Codes;
      assert pos == ByteFrom(At());
      bitBuf, bitCount := 0, 0;
      if pos + 4 > |src| {
        return Fail(StoredEndsEarly);
      }
      ByteOr(src[pos], src[pos + 1]);
      var len := Or(src[pos], Shl(src[pos + 1], 8));
      pos := pos + 4;
      if pos + len > |src| || op + len > size {
        return Fail(StoredOutside);
      }
      CopyIn(len);
      return Ok(());
    }

    /** The next bytes of the input, as they are. */
    method CopyIn(len: nat)
      requires op <= size == out.Length && pos + len <= |src| && op + len <= size
      modifies this`op, this`pos, out
      ensures op == old(op) + len && pos == old(pos) + len && out[..op] == old(out[..op]) + src[old(pos)..pos]
    {
      forall j | 0 <= j < len {
        out[op + j] := src[pos + j];
      }
      pos := pos + len;
      op := op + len;
    }

    /** One block's body, by its type. */
    method BlockBody(kind: nat) returns (r: Result<()>)
      requires Valid()
      modifies this`op, this`pos, this`bitBuf, this`bitCount, out
      ensures match Body(src, old(At()), kind, old(Made()), size)
              case Ok((o, e)) => r == Ok(()) && Valid() && Made() == o && At() == e
              case Fail(f) => r == Fail(f)
    {
      if kind == 0 {
        r := StoredBlock();
      } else if kind == 1 {
        hide TableOf, Num, HeaderFrom;
        var lit := BuildTable(FixedLit());
        var dist := BuildTable(FixedDist());
        r := Codes(lit, dist, FixedLit(), FixedDist());
      } else if kind == 2 {
        hide TableOf, Num, HeaderFrom;
        ghost var p := At();
        var tables :- DynamicCodes();
        r := Codes(tables.0, tables.1, HeaderFrom(src, p).value.0.0, HeaderFrom(src, p).value.0.1);
      } else {
        return Fail(BadType);
      }
    }

    /** Every block, and then the size. */
    method Run() returns (r: Result<()>)
      requires Valid()
      modifies this`op, this`pos, this`bitBuf, this`bitCount, out
      ensures match Blocks(src, old(At()), old(Made()), size)
              case Ok(o) => if |o| == size then r == Ok(()) && out[..] == o else r == Fail(TooFewBytes)
              case Fail(f) => r == Fail(f)
    {
      hide Num, Body;
      ghost var all := Blocks(src, At(), Made(), size);
      var last := 0;
      while last == 0
        invariant Valid()
        invariant if last == 0 then Blocks(src, At(), Made(), size) == all else all == Ok(Made())
        decreases 8 * |src| - At()
      {
        BitIs(src, At());
        last :- Bits(1);
        var kind :- Bits(2);
        var done :- BlockBody(kind);
      }
      if op != size {
        return Fail(TooFewBytes);
      }
      return Ok(());
    }
  }

  /** `inflateRaw`: what `Inflated` says, on every input. */
  method InflateRaw(src: seq<byte>, size: nat) returns (r: Result<seq<byte>>)
    ensures r == Inflated(src, size)
  {
    var d := new Decoder(src, size);
    var done :- d.Run();
    return Ok(d.out[..]);
  }

  lemma BitIs(src: seq<byte>, p: nat)
    ensures p < 8 * |src| ==> Num(src, p, 1) <= 1
  {
    if p < 8 * |src| {
      NumBound(src, p, 1);
    }
  }

  lemma HeaderBounds(src: seq<byte>, p: nat)
    requires p + 14 <= 8 * |src|
    ensures Num(src, p, 5) < 32 && Num(src, p + 5, 5) < 32 && Num(src, p + 10, 4) < 16
  {
    NumBound(src, p, 5);
    NumBound(src, p + 5, 5);
    NumBound(src, p + 10, 4);
  }

  lemma CodeLengthsSmall(src: seq<byte>, p: nat, ncode: nat)
    requires ncode <= 19 && p + 3 * ncode <= 8 * |src|
    ensures Lengths(CodeLengthLengths(src, p, ncode))
  {
    var cl := CodeLengthLengths(src, p, ncode);
    forall s | 0 <= s < 19
      ensures cl[s] <= 15
    {
      if WHERE[s] < ncode {
        NumBound(src, p + 3 * WHERE[s], 3);
      }
    }
  }

  lemma ShlFour(b: nat, k: nat)
    ensures Shl(b, k + 4) == 16 * Shl(b, k)
  {
    assert Shl(b, k + 2) == 4 * Shl(b, k);
    assert Shl(b, k + 3) == 2 * Shl(b, k + 2);
    assert Shl(b, k + 4) == 2 * Shl(b, k + 3);
  }

  lemma ByteOr(a: byte, b: byte)
    ensures Or(a, Shl(b, 8)) == a as int + 256 * b as int
  {
    ShlFour(b, 0);
    ShlFour(b, 4);
    OrDisjoint(a, b, 8);
  }

  lemma Wraps(i: nat, back: nat)
    requires back > 0
    ensures i < back ==> i % back == i
    ensures i >= back ==> i % back == (i - back) % back
  {
    if i >= back {
      var q, r := (i - back) / back, (i - back) % back;
      assert i - back == q * back + r;
      QuotUnique(i / back, i % back, q + 1, r, back);
    }
  }

  /** Codes shorter than `len` do not stand at `p`, and the decoder's three numbers are those of `len`. */
  ghost predicate Seeking(ls: seq<nat>, src: seq<byte>, p: nat, len: nat, code: nat, first: nat, index: nat)
  {
    && 1 <= len && p + len - 1 <= 8 * |src|
    && first == FirstCode(ls, len) && index == Shorter(ls, |ls|, len)
    && first <= code == 2 * Msb(src, p, len - 1)
    && forall s: nat :: CodeAt(ls, src, p, s) ==> len <= ls[s]
  }

  lemma TableShape(h: Table, ls: seq<nat>)
    requires TableOf(h, ls)
    ensures |h.counts| == 16 && |h.symbols| == |ls|
  {}

  lemma Start(ls: seq<nat>, src: seq<byte>, p: nat)
    requires p <= 8 * |src|
    ensures Seeking(ls, src, p, 1, 0, 0, 0)
  {}

  lemma NoneAtAll(h: Table, ls: seq<nat>, src: seq<byte>, p: nat, code: nat, first: nat, index: nat)
    requires TableOf(h, ls) && Seeking(ls, src, p, 16, code, first, index)
    ensures Symbol(ls, src, p) == Fail(NotInTable)
  {}

  lemma NoneLeft(ls: seq<nat>, src: seq<byte>, p: nat, len: nat, code: nat, first: nat, index: nat)
    requires len <= 15 && p + len > 8 * |src| && Seeking(ls, src, p, len, code, first, index)
    ensures Symbol(ls, src, p) == Fail(EndsEarly)
  {}

  /** The bits read so far and the next one. */
  lemma NextBit(src: seq<byte>, p: nat, len: nat, code: nat, ls: seq<nat>, first: nat, index: nat)
    requires Seeking(ls, src, p, len, code, first, index) && p + len <= 8 * |src|
    ensures Or(code, Num(src, p + len - 1, 1)) == Msb(src, p, len) >= first
  {
    var b := BitAt(src, p + len - 1);
    assert Num(src, p + len - 1, 1) == b;
    assert Or(Msb(src, p, len - 1), 0) == Msb(src, p, len - 1);
  }

  /** Bits within a length's codes are one of its symbols' code, and the table says whose. */
  lemma Hit(h: Table, ls: seq<nat>, src: seq<byte>, p: nat, len: nat, code: nat, first: nat, index: nat)
    requires TableOf(h, ls) && 1 <= len <= 15 && p + len <= 8 * |src|
    requires Seeking(ls, src, p, len, code, first, index)
    requires first <= Msb(src, p, len) < first + h.counts[len]
    ensures index + Msb(src, p, len) - first < |h.symbols|
    ensures Symbol(ls, src, p) == Ok((h.symbols[index + Msb(src, p, len) - first], p + len))
  {
    hide Msb, FirstCode;
    var s := Nth(ls, |ls|, len, Msb(src, p, len) - first);
    assert Place(ls, s) == index + Msb(src, p, len) - first;
    SymbolIs(ls, src, p, s);
  }

  /** Bits above a length's codes are no code of that length. */
  lemma Miss(h: Table, ls: seq<nat>, src: seq<byte>, p: nat, len: nat, code: nat, first: nat, index: nat)
    requires TableOf(h, ls) && 1 <= len <= 15 && p + len <= 8 * |src|
    requires Seeking(ls, src, p, len, code, first, index)
    requires first + h.counts[len] <= Msb(src, p, len)
    ensures Seeking(ls, src, p, len + 1, Shl(Msb(src, p, len), 1), Shl(first + h.counts[len], 1), index + h.counts[len])
  {
    forall s: nat | CodeAt(ls, src, p, s)
      ensures ls[s] != len
    {
      if ls[s] == len {
        CountToMono(ls, s, |ls|, len);
      }
    }
  }

  lemma Refill(src: seq<byte>, p: nat, held: nat, pos: nat)
    requires pos < |src| && p + held == 8 * pos
    ensures Or(Num(src, p, held), Shl(src[pos], held)) == Num(src, p, held + 8)
  {
    hide Num, Or, Shl;
    NumSplit(src, p, held, 8);
    NumByte(src, pos, 0);
    NumBound(src, p, held);
    OrDisjoint(Num(src, p, held), src[pos], held);
  }

  lemma TakeLow(src: seq<byte>, p: nat, held: nat, n: nat)
    requires n <= held && p + held <= 8 * |src|
    ensures Shl(1, n) > 0
    ensures And(Num(src, p, held), Shl(1, n) - 1) == Num(src, p, n)
    ensures Shr(Num(src, p, held), n) == Num(src, p + n, held - n)
  {
    hide Num, And, Shl, Shr, Low;
    NumSplit(src, p, n, held - n);
    NumBound(src, p, n);
    SplitShifted(Num(src, p, n), Num(src, p + n, held - n), n);
    AndMask(Num(src, p, held), n);
    ShlOne(n);
  }
}
