/** Canonical Huffman codes (section 3.2.2 of RFC 1951), said in terms of the code lengths alone. */
module Huffman {
  import opened Bits
  import opened BitStream

  /** A code length per symbol, 0 for a symbol without a code. */
  ghost predicate Lengths(ls: seq<nat>)
  {
    forall s :: 0 <= s < |ls| ==> ls[s] <= 15
  }

  /** How many of the first `n` symbols have length `L`. */
  function CountTo(ls: seq<nat>, n: nat, L: nat): nat
    requires n <= |ls|
  {
    if n == 0 then 0 else CountTo(ls, n - 1, L) + (if ls[n - 1] == L then 1 else 0)
  }

  function Count(ls: seq<nat>, L: nat): nat
  {
    CountTo(ls, |ls|, L)
  }

  /** The first code of length `L`. */
  function FirstCode(ls: seq<nat>, L: nat): nat
    requires L >= 1
  {
    if L == 1 then 0 else 2 * (FirstCode(ls, L - 1) + Count(ls, L - 1))
  }

  /** Codes of equal length are consecutive, in order of their symbols. */
  function Code(ls: seq<nat>, s: nat): nat
    requires s < |ls| && ls[s] > 0
  {
    FirstCode(ls, ls[s]) + CountTo(ls, s, ls[s])
  }

  /** How many of the first `n` symbols have a code shorter than `L`. */
  function Shorter(ls: seq<nat>, n: nat, L: nat): nat
    requires n <= |ls|
  {
    if L <= 1 then 0 else Shorter(ls, n, L - 1) + CountTo(ls, n, L - 1)
  }

  /** Where symbol `s` stands when coded symbols are listed by length, then by symbol. */
  function Place(ls: seq<nat>, s: nat): nat
    requires s < |ls| && ls[s] > 0
  {
    Shorter(ls, |ls|, ls[s]) + CountTo(ls, s, ls[s])
  }

  /** The bits at `p` are the code of symbol `s`. */
  ghost predicate CodeAt(ls: seq<nat>, src: seq<byte>, p: nat, s: nat)
  {
    s < |ls| && ls[s] > 0 && p + ls[s] <= 8 * |src| && Msb(src, p, ls[s]) == Code(ls, s)
  }

  datatype Table = Table(counts: seq<nat>, symbols: seq<nat>)

  /** The table lists the coded symbols in code order, and how many have each length. */
  ghost predicate TableOf(h: Table, ls: seq<nat>)
  {
    && Lengths(ls)
    && |h.counts| == 16 && h.counts[0] == 0
    && (forall L :: 1 <= L <= 15 ==> h.counts[L] == Count(ls, L))
    && |h.symbols| == |ls|
    && forall s :: 0 <= s < |ls| && ls[s] > 0 ==> Place(ls, s) < |ls| && h.symbols[Place(ls, s)] == s
  }

  lemma {:induction false} CountToMono(ls: seq<nat>, m: nat, n: nat, L: nat)
    requires m <= n <= |ls|
    ensures CountTo(ls, m, L) <= CountTo(ls, n, L)
    ensures m < n && ls[m] == L ==> CountTo(ls, m, L) < CountTo(ls, n, L)
    decreases n - m
  {
    if m < n {
      CountToMono(ls, m + 1, n, L);
    }
  }

  lemma {:induction false} ShorterMono(ls: seq<nat>, n: nat, K: nat, L: nat)
    requires n <= |ls| && 1 <= K < L
    ensures Shorter(ls, n, K) + CountTo(ls, n, K) <= Shorter(ls, n, L)
    decreases L
  {
    if K < L - 1 {
      ShorterMono(ls, n, K, L - 1);
    }
  }

  lemma {:induction false} ShorterStep(ls: seq<nat>, n: nat, L: nat)
    requires 0 < n <= |ls|
    ensures Shorter(ls, n, L) == Shorter(ls, n - 1, L) + if 1 <= ls[n - 1] < L then 1 else 0
    decreases L
  {
    if L > 1 {
      ShorterStep(ls, n, L - 1);
    }
  }

  lemma {:induction false} ShorterBound(ls: seq<nat>, n: nat, L: nat)
    requires n <= |ls|
    ensures Shorter(ls, n, L) <= n
    decreases n
  {
    if n == 0 {
      ShorterNone(ls, L);
    } else {
      ShorterBound(ls, n - 1, L);
      ShorterStep(ls, n, L);
    }
  }

  lemma {:induction false} ShorterNone(ls: seq<nat>, L: nat)
    ensures Shorter(ls, 0, L) == 0
  {
    if L > 1 {
      ShorterNone(ls, L - 1);
    }
  }

  /** A symbol's place lies within its length's run of places. */
  lemma PlaceBounds(ls: seq<nat>, s: nat)
    requires s < |ls| && ls[s] > 0
    ensures Shorter(ls, |ls|, ls[s]) <= Place(ls, s) < Shorter(ls, |ls|, ls[s]) + Count(ls, ls[s]) <= |ls|
  {
    CountToMono(ls, s, |ls|, ls[s]);
    ShorterBound(ls, |ls|, ls[s] + 1);
  }

  /** Places follow the order by length, then by symbol: the sort is stable. */
  lemma PlaceOrder(ls: seq<nat>, s: nat, t: nat)
    requires s < |ls| && ls[s] > 0 && t < |ls| && ls[t] > 0
    ensures Place(ls, s) < Place(ls, t) <==> ls[s] < ls[t] || (ls[s] == ls[t] && s < t)
  {
    PlaceBounds(ls, s);
    PlaceBounds(ls, t);
    if ls[s] < ls[t] {
      ShorterMono(ls, |ls|, ls[s], ls[t]);
    } else if ls[t] < ls[s] {
      ShorterMono(ls, |ls|, ls[t], ls[s]);
    } else if s < t {
      CountToMono(ls, s, t, ls[s]);
    } else {
      CountToMono(ls, t, s, ls[s]);
    }
  }

  /** The symbol that is the `r`th of its length. */
  function Nth(ls: seq<nat>, n: nat, L: nat, r: nat): (s: nat)
    requires n <= |ls| && r < CountTo(ls, n, L)
    ensures s < n && ls[s] == L && CountTo(ls, s, L) == r
  {
    if ls[n - 1] == L && CountTo(ls, n - 1, L) == r then n - 1 else Nth(ls, n - 1, L, r)
  }

  lemma {:induction false} FirstCodeGrows(ls: seq<nat>, K: nat, L: nat)
    requires 1 <= K < L
    ensures Shl(FirstCode(ls, K) + Count(ls, K), L - K) <= FirstCode(ls, L)
    decreases L
  {
    if K < L - 1 {
      FirstCodeGrows(ls, K, L - 1);
    }
  }

  /**
   No code is the start of another, whatever the lengths: so at most one
   symbol's code stands at any position.
   */
  lemma CodeAtUnique(ls: seq<nat>, src: seq<byte>, p: nat, s: nat, t: nat)
    requires CodeAt(ls, src, p, s) && CodeAt(ls, src, p, t)
    ensures s == t
  {
    if ls[s] < ls[t] {
      LongerCodeIsAbove(ls, src, p, s, t);
    } else if ls[t] < ls[s] {
      LongerCodeIsAbove(ls, src, p, t, s);
    } else if s < t {
      CountToMono(ls, s, t, ls[s]);
    } else if t < s {
      CountToMono(ls, t, s, ls[s]);
    }
  }

  /** Where a code stands, the bits are below every longer code. */
  lemma LongerCodeIsAbove(ls: seq<nat>, src: seq<byte>, p: nat, s: nat, t: nat)
    requires CodeAt(ls, src, p, s)
    requires t < |ls| && ls[s] < ls[t] && p + ls[t] <= 8 * |src|
    ensures Msb(src, p, ls[t]) < Code(ls, t)
  {
    hide Msb, FirstCode, CountTo, Shl, Pow2;
    var K, L := ls[s], ls[t];
    var n := L - K;
    MsbSplit(src, p, K, n);
    MsbBound(src, p + K, n);
    FirstCodeGrows(ls, K, L);
    CountToMono(ls, s, |ls|, K);
    ShlMono(Code(ls, s) + 1, FirstCode(ls, K) + Count(ls, K), n);
    ShlAdd(Code(ls, s), 1, n);
    ShlOne(n);
  }

  /** What the codes up to length `L` take up of the code space, in units of 2^-15. */
  function Shares(ls: seq<nat>, n: nat, L: nat): nat
    requires n <= |ls|
  {
    if n == 0 then 0
    else Shares(ls, n - 1, L) + if 1 <= ls[n - 1] <= L && L <= 15 then Pow2(15 - ls[n - 1]) else 0
  }

  /** The code is not oversubscribed (Kraft's inequality). */
  ghost predicate Kraft(ls: seq<nat>)
  {
    Shares(ls, |ls|, 15) <= Pow2(15)
  }

  lemma {:induction false} SharesStep(ls: seq<nat>, n: nat, L: nat)
    requires n <= |ls| && 1 <= L <= 15
    ensures Shares(ls, n, L) == Shares(ls, n, L - 1) + Shl(CountTo(ls, n, L), 15 - L)
  {
    if n == 0 {
      ShlZero(15 - L);
    } else {
      SharesStep(ls, n - 1, L);
      ShlAdd(CountTo(ls, n - 1, L), 1, 15 - L);
      ShlOne(15 - L);
    }
  }

  lemma {:induction false} SharesNone(ls: seq<nat>, n: nat)
    requires n <= |ls|
    ensures Shares(ls, n, 0) == 0
  {
    if n > 0 {
      SharesNone(ls, n - 1);
    }
  }

  lemma {:induction false} SharesMono(ls: seq<nat>, L: nat)
    requires 1 <= L <= 15
    ensures Shares(ls, |ls|, L) <= Shares(ls, |ls|, 15)
    decreases 15 - L
  {
    if L < 15 {
      SharesStep(ls, |ls|, L + 1);
      SharesMono(ls, L + 1);
    }
  }

  /** The first code of length `L` is the code space the shorter ones take up. */
  lemma {:induction false} FirstCodeIsShares(ls: seq<nat>, L: nat)
    requires 1 <= L <= 15
    ensures Shl(FirstCode(ls, L), 15 - L) == Shares(ls, |ls|, L - 1)
  {
    if L == 1 {
      SharesNone(ls, |ls|);
      ShlZero(14);
    } else {
      FirstCodeIsShares(ls, L - 1);
      SharesStep(ls, |ls|, L - 1);
      ShlAdd(FirstCode(ls, L - 1), Count(ls, L - 1), 16 - L);
      ShlDouble(FirstCode(ls, L - 1) + Count(ls, L - 1), 15 - L);
    }
  }

  /** With Kraft's inequality every symbol's code fits its length. */
  lemma CodeFits(ls: seq<nat>, s: nat)
    requires Lengths(ls) && Kraft(ls) && s < |ls| && ls[s] > 0
    ensures Code(ls, s) < Pow2(ls[s])
  {
    CountToMono(ls, s, |ls|, ls[s]);
    SpaceUsed(ls, ls[s]);
    ShlInverse(FirstCode(ls, ls[s]) + Count(ls, ls[s]), ls[s], 15 - ls[s]);
  }

  lemma SpaceUsed(ls: seq<nat>, L: nat)
    requires Kraft(ls) && 1 <= L <= 15
    ensures Shl(FirstCode(ls, L) + Count(ls, L), 15 - L) <= Pow2(L + (15 - L))
  {
    hide Shares, FirstCode, CountTo, Shl, Pow2;
    FirstCodeIsShares(ls, L);
    SharesStep(ls, |ls|, L);
    SharesMono(ls, L);
    ShlAdd(FirstCode(ls, L), Count(ls, L), 15 - L);
  }
}
