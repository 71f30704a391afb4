/**
 Bit arithmetic on natural numbers, and bytes. Shifts, masks and the bitwise
 operations are defined a bit at a time, so that what is proved about them
 stays linear, and their laws are proved by induction on the bits.
 */
module Bits {
  type byte = x: int | 0 <= x < 256
  type bit = x: int | 0 <= x < 2

  function Pow2(n: nat): (r: nat)
    ensures r > 0
  {
    if n == 0 then 1 else 2 * Pow2(n - 1)
  }

  /** `a << k` */
  function Shl(a: nat, k: nat): nat
  {
    if k == 0 then a else 2 * Shl(a, k - 1)
  }

  /** `a >> k` */
  function Shr(a: nat, k: nat): nat
    decreases k
  {
    if k == 0 then a else Shr(a / 2, k - 1)
  }

  /** The lowest `k` bits of `a`. */
  function Low(a: nat, k: nat): nat
    decreases k
  {
    if k == 0 then 0 else a % 2 + 2 * Low(a / 2, k - 1)
  }

  /** Bit `k` of `a`. */
  function Bit(a: nat, k: nat): bit
    decreases k
  {
    if k == 0 then a % 2 else Bit(a / 2, k - 1)
  }

  /** `a | b` */
  function Or(a: nat, b: nat): nat
  {
    if a == 0 then b
    else if b == 0 then a
    else 2 * Or(a / 2, b / 2) + (if a % 2 == 1 || b % 2 == 1 then 1 else 0)
  }

  /** `a & b` */
  function And(a: nat, b: nat): nat
  {
    if a == 0 || b == 0 then 0
    else 2 * And(a / 2, b / 2) + (if a % 2 == 1 && b % 2 == 1 then 1 else 0)
  }

  lemma {:induction false} Pow2Mono(a: nat, b: nat)
    requires a <= b
    ensures Pow2(a) <= Pow2(b)
  {
    if a < b {
      Pow2Mono(a, b - 1);
    }
  }

  /** A number below `2^k` and one shifted left by `k` share no bit. */
  lemma {:induction false} OrDisjoint(a: nat, b: nat, k: nat)
    requires a < Pow2(k)
    ensures Or(a, Shl(b, k)) == a + Shl(b, k)
    decreases k
  {
    if k > 0 && a > 0 {
      OrDisjoint(a / 2, b, k - 1);
    }
  }

  /** Masking with `2^k - 1` keeps the lowest `k` bits. */
  lemma {:induction false} AndMask(a: nat, k: nat)
    ensures And(a, Pow2(k) - 1) == Low(a, k)
    decreases k
  {
    LowZero(k);
    if k > 0 && a > 0 {
      AndMask(a / 2, k - 1);
      var m := Pow2(k - 1);
      assert (2 * m - 1) / 2 == m - 1 && (2 * m - 1) % 2 == 1;
      assert And(a, 2 * m - 1) == 2 * And(a / 2, m - 1) + a % 2;
    }
  }

  lemma {:induction false} LowZero(k: nat)
    ensures Low(0, k) == 0
  {
    if k > 0 {
      LowZero(k - 1);
    }
  }

  lemma {:induction false} LowBound(a: nat, k: nat)
    ensures Low(a, k) < Pow2(k)
    decreases k
  {
    if k > 0 {
      LowBound(a / 2, k - 1);
    }
  }

  lemma {:induction false} LowSmall(a: nat, k: nat)
    requires a < Pow2(k)
    ensures Low(a, k) == a
    decreases k
  {
    if k > 0 {
      LowSmall(a / 2, k - 1);
    }
  }

  lemma {:induction false} LowPow2(k: nat)
    ensures Low(Pow2(k), k) == 0
  {
    if k > 0 {
      LowPow2(k - 1);
    }
  }

  /** The low bits and the rest of `a + (b << k)` when `a < 2^k`. */
  lemma {:induction false} SplitShifted(a: nat, b: nat, k: nat)
    requires a < Pow2(k)
    ensures Low(a + Shl(b, k), k) == a && Shr(a + Shl(b, k), k) == b
    decreases k
  {
    if k > 0 {
      SplitShifted(a / 2, b, k - 1);
      assert (a + Shl(b, k)) / 2 == a / 2 + Shl(b, k - 1);
    }
  }

  lemma {:induction false} ShlAdd(a: nat, b: nat, k: nat)
    ensures Shl(a + b, k) == Shl(a, k) + Shl(b, k)
  {
    if k > 0 {
      ShlAdd(a, b, k - 1);
    }
  }

  lemma {:induction false} ShlOne(k: nat)
    ensures Shl(1, k) == Pow2(k)
  {
    if k > 0 {
      ShlOne(k - 1);
    }
  }

  lemma {:induction false} ShlZero(k: nat)
    ensures Shl(0, k) == 0
  {
    if k > 0 {
      ShlZero(k - 1);
    }
  }

  lemma {:induction false} ShlDouble(a: nat, k: nat)
    ensures Shl(2 * a, k) == Shl(a, k + 1)
  {
    if k > 0 {
      ShlDouble(a, k - 1);
    }
  }

  lemma {:induction false} ShlInverse(a: nat, j: nat, k: nat)
    requires Shl(a, k) <= Pow2(j + k)
    ensures a <= Pow2(j)
    decreases k
  {
    if k > 0 {
      ShlInverse(a, j, k - 1);
    }
  }

  lemma {:induction false} ShlMono(a: nat, b: nat, k: nat)
    requires a <= b
    ensures Shl(a, k) <= Shl(b, k)
  {
    if k > 0 {
      ShlMono(a, b, k - 1);
    }
  }

  /** Bit `k` is what shifting right by `k` leaves lowest. */
  lemma {:induction false} BitShift(a: nat, k: nat)
    ensures Shr(a, k) == Bit(a, k) + 2 * Shr(a, k + 1)
    decreases k
  {
    if k > 0 {
      BitShift(a / 2, k - 1);
    }
  }

  lemma {:induction false} OrBit(a: nat, b: nat, k: nat)
    ensures Bit(Or(a, b), k) == if Bit(a, k) == 1 || Bit(b, k) == 1 then 1 else 0
    decreases k
  {
    BitZero(k);
    if k > 0 && a > 0 && b > 0 {
      OrBit(a / 2, b / 2, k - 1);
    }
  }

  lemma {:induction false} BitZero(k: nat)
    ensures Bit(0, k) == 0
  {
    if k > 0 {
      BitZero(k - 1);
    }
  }

  /** The only bit of `1 << j` is bit `j`. */
  lemma {:induction false} BitPow2(j: nat, k: nat)
    ensures Bit(Pow2(j), k) == if j == k then 1 else 0
  {
    BitZero(k);
    if j == 0 {
      if k > 0 {
        BitZero(k - 1);
      }
    } else if k > 0 {
      BitPow2(j - 1, k - 1);
    }
  }

  lemma {:induction false} OrBound(a: nat, b: nat, k: nat)
    requires a < Pow2(k) && b < Pow2(k)
    ensures Or(a, b) < Pow2(k)
    decreases k
  {
    if k > 0 && a > 0 && b > 0 {
      OrBound(a / 2, b / 2, k - 1);
    }
  }

  /** Quotient and remainder are unique. */
  lemma QuotUnique(p: int, s: int, q: int, r: int, m: int)
    requires 0 <= r < m && 0 <= s < m
    requires p * m + s == q * m + r
    ensures p == q && s == r
  {
    if p < q {
      MulGap(p, q, m);
    } else if q < p {
      MulGap(q, p, m);
    }
  }

  lemma MulGap(p: int, q: int, m: int)
    requires p < q && 0 < m
    ensures p * m + m <= q * m
  {
    var d := q - p - 1;
    assert 0 <= d * m;
    assert q * m == p * m + d * m + m;
  }
}
