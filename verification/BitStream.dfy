/**
 A byte string read as a string of bits, least significant bit of each byte
 first, as section 3.1.1 of RFC 1951 packs them; and the numbers its fields
 make, lowest bit first or, for Huffman codes, highest first.
 */
module BitStream {
  import opened Bits

  function BitAt(src: seq<byte>, p: nat): bit
    requires p < 8 * |src|
  {
    Bit(src[p / 8], p % 8)
  }

  /** The `n` bits at `p` as a number, first bit least significant. */
  function Num(src: seq<byte>, p: nat, n: nat): nat
    requires p + n <= 8 * |src|
    decreases n
  {
    if n == 0 then 0 else BitAt(src, p) + 2 * Num(src, p + 1, n - 1)
  }

  /** The `n` bits at `p` as a number, first bit most significant (Huffman codes). */
  function Msb(src: seq<byte>, p: nat, n: nat): nat
    requires p + n <= 8 * |src|
  {
    if n == 0 then 0 else 2 * Msb(src, p, n - 1) + BitAt(src, p + n - 1)
  }

  lemma {:induction false} NumBound(src: seq<byte>, p: nat, n: nat)
    requires p + n <= 8 * |src|
    ensures Num(src, p, n) < Pow2(n)
    decreases n
  {
    if n > 0 {
      NumBound(src, p + 1, n - 1);
    }
  }

  lemma {:induction false} MsbBound(src: seq<byte>, p: nat, n: nat)
    requires p + n <= 8 * |src|
    ensures Msb(src, p, n) < Pow2(n)
  {
    if n > 0 {
      MsbBound(src, p, n - 1);
    }
  }

  lemma {:induction false} NumSplit(src: seq<byte>, p: nat, m: nat, n: nat)
    requires p + m + n <= 8 * |src|
    ensures Num(src, p, m + n) == Num(src, p, m) + Shl(Num(src, p + m, n), m)
    decreases m
  {
    if m > 0 {
      NumSplit(src, p + 1, m - 1, n);
    }
  }

  /** What is left of byte `i` from its bit `j` on. */
  lemma {:induction false} NumByte(src: seq<byte>, i: nat, j: nat)
    requires i < |src| && j <= 8
    ensures Num(src, 8 * i + j, 8 - j) == Shr(src[i], j)
    decreases 8 - j
  {
    if j == 8 {
      ByteGone(src[i]);
    } else {
      NumByte(src, i, j + 1);
      BitShift(src[i], j);
      assert (8 * i + j) / 8 == i && (8 * i + j) % 8 == j;
    }
  }

  lemma ByteGone(b: byte)
    ensures Shr(b, 8) == 0
  {
    assert b / 2 / 2 / 2 / 2 / 2 / 2 / 2 / 2 == 0;
    assert Shr(b, 8) == Shr(b / 2 / 2 / 2 / 2, 4);
  }

  /** The first `m` bits of a longer code are its high bits. */
  lemma {:induction false} MsbSplit(src: seq<byte>, p: nat, m: nat, n: nat)
    requires p + m + n <= 8 * |src|
    ensures Msb(src, p, m + n) == Shl(Msb(src, p, m), n) + Msb(src, p + m, n)
    decreases n
  {
    if n > 0 {
      MsbSplit(src, p, m, n - 1);
    }
  }
}
