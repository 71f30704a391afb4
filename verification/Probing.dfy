/**
 Open addressing over a power of two of slots: where a value's probes go, and
 what keeps it findable, whatever its hash. 0 is an empty slot, else a code
 plus 1.
 */
module Probing {
  import opened Bits

  ghost predicate IsPow2(n: nat)
  {
    exists k: nat :: n == Pow2(k)
  }

  /** A value's first slot: `(h >> 32) & mask`. */
  function Home(h: nat, size: nat): nat
    requires size > 0
  {
    And(Shr(h, 32), size - 1)
  }

  /** The slot probed after `i`: `(i + 1) & mask`. */
  function Next(i: nat, size: nat): nat
    requires size > 0
  {
    And(i + 1, size - 1)
  }

  lemma HomeInside(h: nat, size: nat)
    requires IsPow2(size)
    ensures Home(h, size) < size
  {
    hide Shr, And, Low;
    var k: nat :| size == Pow2(k);
    AndMask(Shr(h, 32), k);
    LowBound(Shr(h, 32), k);
  }

  lemma NextWraps(i: nat, size: nat)
    requires IsPow2(size) && i < size
    ensures Next(i, size) == if i + 1 == size then 0 else i + 1
  {
    hide And, Low;
    var k: nat :| size == Pow2(k);
    AndMask(i + 1, k);
    if i + 1 == size {
      LowPow2(k);
    } else {
      LowSmall(i + 1, k);
    }
  }

  /** How many probes after slot `h` slot `j` comes. */
  function Dist(h: nat, j: nat, size: nat): nat
    requires h < size && j < size
  {
    if j >= h then j - h else j + size - h
  }

  /** Every slot probed from `h` before `w` is taken. */
  ghost predicate Reach(slots: seq<nat>, h: nat, w: nat)
    requires h < |slots| && w < |slots|
  {
    forall j :: 0 <= j < |slots| && Dist(h, j, |slots|) < Dist(h, w, |slots|) ==> slots[j] != 0
  }

  /** The codes below `|hashes|` stand in `slots`, once each, at `spot`, each where its probes lead. */
  ghost predicate Placed(slots: seq<nat>, hashes: seq<nat>, spot: seq<nat>)
  {
    && IsPow2(|slots|) && |slots| > 0 && |spot| == |hashes|
    && (forall c :: 0 <= c < |spot| ==> spot[c] < |slots| && slots[spot[c]] == c + 1)
    && (forall j :: 0 <= j < |slots| && slots[j] != 0 ==> slots[j] <= |spot| && spot[slots[j] - 1] == j)
    && forall c :: 0 <= c < |spot| ==> Home(hashes[c], |slots|) < |slots| && Reach(slots, Home(hashes[c], |slots|), spot[c])
  }

  /** Taking the empty slot that a hash's probes lead to places the next code. */
  lemma PlaceOne(slots: seq<nat>, hashes: seq<nat>, spot: seq<nat>, h: nat, i: nat)
    requires Placed(slots, hashes, spot)
    requires i < |slots| && slots[i] == 0 && Home(h, |slots|) < |slots| && Reach(slots, Home(h, |slots|), i)
    ensures Placed(slots[i := |hashes| + 1], hashes + [h], spot + [i])
  {
    hide Home, IsPow2;
    var s, hs, sp := slots[i := |hashes| + 1], hashes + [h], spot + [i];
    forall c | 0 <= c < |sp|
      ensures Home(hs[c], |s|) < |s| && Reach(s, Home(hs[c], |s|), sp[c])
    {
      if c < |spot| {
        assert Reach(slots, Home(hashes[c], |slots|), spot[c]);
      }
    }
  }

  /** `m` codes cannot fill more than `m` slots. */
  lemma HasEmpty(slots: seq<nat>, hashes: seq<nat>, spot: seq<nat>)
    requires Placed(slots, hashes, spot) && |hashes| < |slots|
    ensures exists j :: 0 <= j < |slots| && slots[j] == 0
  {
    if forall j :: 0 <= j < |slots| ==> slots[j] != 0 {
      var taken := set c | 0 <= c < |spot| :: spot[c];
      forall j | 0 <= j < |slots|
        ensures j in taken
      {
        assert spot[slots[j] - 1] == j;
      }
      ImageSize(spot);
      RangeSize(|slots|, taken);
      assert false;
    }
  }

  lemma {:induction false} ImageSize(spot: seq<nat>)
    ensures |(set c | 0 <= c < |spot| :: spot[c])| <= |spot|
  {
    var all := set c | 0 <= c < |spot| :: spot[c];
    if spot == [] {
      assert all == {};
    } else {
      var front := spot[..|spot| - 1];
      var rest := set c | 0 <= c < |front| :: front[c];
      ImageSize(front);
      assert all <= rest + {spot[|spot| - 1]};
      SubsetSize(all, rest + {spot[|spot| - 1]});
    }
  }

  lemma {:induction false} SubsetSize<T>(a: set<T>, b: set<T>)
    requires a <= b
    ensures |a| <= |b|
  {
    assert b == a + (b - a);
  }

  lemma {:induction false} RangeSize(n: nat, s: set<nat>)
    requires forall j :: 0 <= j < n ==> j in s
    ensures |s| >= n
  {
    if n > 0 {
      RangeSize(n - 1, s - {n - 1});
    }
  }

  /** A value whose probes end at an empty slot before its own is not placed. */
  lemma Missed(slots: seq<nat>, hashes: seq<nat>, spot: seq<nat>, c: nat, i: nat)
    requires Placed(slots, hashes, spot) && c < |hashes|
    requires i < |slots| && slots[i] == 0
    ensures Dist(Home(hashes[c], |slots|), spot[c], |slots|) < Dist(Home(hashes[c], |slots|), i, |slots|)
  {
    assert Reach(slots, Home(hashes[c], |slots|), spot[c]);
    assert slots[spot[c]] == c + 1 && spot[c] != i;
  }
}
