/**
 `js/src/parquet.ts`: the byte ranges an asynchronous reader has fetched of a
 file, how they are joined, kept and dropped, and the loop that runs a
 synchronous read over them.
 */
module AsyncReads {
  import opened Wrappers
  import opened Bits
  import opened Sorting

  /** The bytes from `lo` up to `hi`. */
  datatype Range = Range(lo: int, hi: int)

  datatype Entry = Entry(start: nat, end: nat, bytes: seq<byte>, pinned: bool, used: nat)

  /** Two ranges with a smaller gap than this become one. */
  const GAP: int := 65536

  /** The last attempt that may be followed by another. */
  const LAST: nat := 64

  // ---------------------------------------------------------------- ranges

  function Max(a: int, b: int): int {
    if a < b then b else a
  }

  function Min(a: int, b: int): int {
    if a < b then a else b
  }

  function Clip(r: Range, size: nat): Range
  {
    Range(Max(0, r.lo), Min(size, r.hi))
  }

  predicate Within(r: Range, s: Range)
  {
    s.lo <= r.lo && r.hi <= s.hi
  }

  predicate Holds(e: Entry, r: Range)
  {
    e.start <= r.lo && r.hi <= e.end
  }

  /** One entry has all of `r`. */
  predicate Has(entries: seq<Entry>, r: Range)
  {
    exists i :: 0 <= i < |entries| && Holds(entries[i], r)
  }

  /** One of the ranges has all of `r`. */
  predicate Covered(r: Range, rs: seq<Range>)
  {
    exists i :: 0 <= i < |rs| && Within(r, rs[i])
  }

  /** What of `ranges` is in the file and not in one entry. */
  function Wanted(entries: seq<Entry>, ranges: seq<Range>, size: nat): (w: seq<Range>)
    ensures forall i :: 0 <= i < |w| ==> 0 <= w[i].lo < w[i].hi <= size
  {
    if ranges == [] then [] else
    var r := Clip(ranges[0], size);
    (if r.lo < r.hi && !Has(entries, r) then [r] else []) + Wanted(entries, ranges[1..], size)
  }

  lemma {:induction false} WantedIs(entries: seq<Entry>, ranges: seq<Range>, size: nat, i: nat)
    requires i < |ranges|
    ensures var r := Clip(ranges[i], size);
            r.lo < r.hi ==> Has(entries, r) || r in Wanted(entries, ranges, size)
  {
    if i > 0 {
      WantedIs(entries, ranges[1..], size, i - 1);
    }
  }

  ghost predicate ByStart(rs: seq<Range>)
  {
    forall i, j :: 0 <= i < j < |rs| ==> rs[i].lo <= rs[j].lo
  }

  /** The ranges by where they start. */
  method SortRanges(rs: seq<Range>, size: nat) returns (sorted: seq<Range>)
    requires Proper(rs, size)
    ensures ByStart(sorted) && Proper(sorted, size) && forall r :: r in sorted <==> r in rs
  {
    hide StableOrder, Permutes, Picked;
    ghost var order;
    sorted, order := SortBy(rs, Starts(rs));
    SortedStarts(rs, order);
    assert forall i :: 0 <= i < |sorted| ==> sorted[i] in rs;
  }

  lemma SortedStarts(rs: seq<Range>, order: seq<nat>)
    requires (forall i :: 0 <= i < |rs| ==> 0 <= rs[i].lo) && StableOrder(order, Starts(rs)) && Permutes(order, |rs|)
    ensures ByStart(Picked(rs, order))
  {
    hide Starts, StableOrder, Permutes;
    PermutesPlaces(order, |rs|);
    forall i, j | 0 <= i < j < |order|
      ensures Picked(rs, order)[i].lo <= Picked(rs, order)[j].lo
    {
      SortedAt(order, Starts(rs), i, j);
    }
  }

  /** Every range is whole and not empty, and in the file. */
  ghost predicate Proper(rs: seq<Range>, size: nat)
  {
    forall i :: 0 <= i < |rs| ==> 0 <= rs[i].lo < rs[i].hi <= size
  }

  /** Every range starts 65,536 bytes or more after the one before it ends. */
  ghost predicate Apart(rs: seq<Range>)
  {
    forall i :: 0 < i < |rs| ==> rs[i].lo - rs[i - 1].hi >= 65536
  }

  function Starts(rs: seq<Range>): (s: seq<nat>)
    ensures |s| == |rs| && forall i :: 0 <= i < |rs| ==> s[i] == Max(0, rs[i].lo)
  {
    if rs == [] then [] else Starts(rs[..|rs| - 1]) + [Max(0, rs[|rs| - 1].lo)]
  }

  ghost predicate StartsOne(x: int, rs: seq<Range>)
  {
    exists j :: 0 <= j < |rs| && rs[j].lo == x
  }

  ghost predicate EndsOne(x: int, rs: seq<Range>)
  {
    exists j :: 0 <= j < |rs| && rs[j].hi == x
  }

  /** Every range starts where one of `want` starts, and ends where one ends. */
  ghost predicate Bounded(rs: seq<Range>, want: seq<Range>)
  {
    forall i :: 0 <= i < |rs| ==> StartsOne(rs[i].lo, want) && EndsOne(rs[i].hi, want)
  }

  lemma BoundsIn(x: int, rs: seq<Range>, more: seq<Range>)
    requires forall r :: r in rs ==> r in more
    ensures StartsOne(x, rs) ==> StartsOne(x, more)
    ensures EndsOne(x, rs) ==> EndsOne(x, more)
  {
    if StartsOne(x, rs) {
      var j :| 0 <= j < |rs| && rs[j].lo == x;
      assert rs[j] in more;
    }
    if EndsOne(x, rs) {
      var j :| 0 <= j < |rs| && rs[j].hi == x;
      assert rs[j] in more;
    }
  }

  lemma BoundsOf(r: Range, rs: seq<Range>)
    requires r in rs
    ensures StartsOne(r.lo, rs) && EndsOne(r.hi, rs)
  {}

  ghost predicate CoversAll(merged: seq<Range>, want: seq<Range>)
  {
    forall j :: 0 <= j < |want| ==> Covered(want[j], merged)
  }

  /** Some wanted range has one of the 65,536 bytes from `x`. */
  ghost predicate WantedNear(want: seq<Range>, x: int)
  {
    exists j :: 0 <= j < |want| && want[j].lo < x + 65536 && x < want[j].hi
  }

  /** No stretch of 65,536 bytes is fetched that nothing wants. */
  ghost predicate Dense(merged: seq<Range>, want: seq<Range>)
  {
    forall i, x :: 0 <= i < |merged| && merged[i].lo <= x && x + 65536 <= merged[i].hi ==> WantedNear(want, x)
  }

  /** What joining the first wanted ranges has come to. */
  ghost predicate MergedSoFar(merged: seq<Range>, want: seq<Range>, size: nat)
  {
    Proper(merged, size) && Apart(merged) && Bounded(merged, want) && CoversAll(merged, want) && Dense(merged, want)
  }

  lemma NearMore(want: seq<Range>, r: Range, x: int)
    requires WantedNear(want, x)
    ensures WantedNear(want + [r], x)
  {
    var j :| 0 <= j < |want| && want[j].lo < x + 65536 && x < want[j].hi;
    assert (want + [r])[j] == want[j];
  }

  /** A range alone, or one less than 65,536 bytes after the last, leaves no such stretch. */
  lemma DenseMore(merged: seq<Range>, now: seq<Range>, want: seq<Range>, r: Range, size: nat)
    requires Dense(merged, want) && Bounded(merged, want) && Proper(want, size) && r.lo < r.hi
    requires now == merged + [r] || (merged != [] && now == Widened(merged, r) && r.lo - merged[|merged| - 1].hi < GAP)
    ensures Dense(now, want + [r])
  {
    forall i, x | 0 <= i < |now| && now[i].lo <= x && x + 65536 <= now[i].hi
      ensures WantedNear(want + [r], x)
    {
      if i < |merged| && x + 65536 <= merged[i].hi {
        assert now[i].lo == merged[i].lo;
        NearMore(want, r, x);
      } else if r.lo < x + 65536 {
        assert (want + [r])[|want|] == r;
      } else {
        var j :| 0 <= j < |want| && want[j].hi == merged[i].hi;
        NearMore(want, r, x);
      }
    }
  }

  /** Join ranges less than `GAP` apart. */
  method Merge(want: seq<Range>, size: nat) returns (merged: seq<Range>)
    requires ByStart(want) && Proper(want, size)
    ensures MergedSoFar(merged, want, size)
  {
    hide Covered, MergedSoFar;
    merged := [];
    NoneMerged(size);
    var i := 0;
    while i < |want|
      invariant i <= |want| && MergedSoFar(merged, want[..i], size)
      invariant merged != [] && i < |want| ==> merged[|merged| - 1].lo <= want[i].lo
    {
      var r := want[i];
      assert want[..i + 1] == want[..i] + [r];
      if merged != [] && r.lo - merged[|merged| - 1].hi < GAP {
        WidenStep(merged, want[..i], r, size);
        merged := Widened(merged, r);
      } else {
        PushStep(merged, want[..i], r, size);
        merged := merged + [r];
      }
      i := i + 1;
    }
    assert want[..i] == want;
  }

  lemma NoneMerged(size: nat)
    ensures MergedSoFar([], [], size)
  {}

  lemma PushStep(merged: seq<Range>, want: seq<Range>, r: Range, size: nat)
    requires MergedSoFar(merged, want, size) && Proper(want, size) && 0 <= r.lo < r.hi <= size
    requires merged != [] ==> r.lo - merged[|merged| - 1].hi >= GAP
    ensures MergedSoFar(merged + [r], want + [r], size)
  {
    hide Covered, StartsOne, EndsOne, Dense;
    DenseMore(merged, merged + [r], want, r, size);
    var now := merged + [r];
    forall i | 0 <= i < |now|
      ensures StartsOne(now[i].lo, want + [r]) && EndsOne(now[i].hi, want + [r])
    {
      if i < |merged| {
        BoundsIn(merged[i].lo, want, want + [r]);
        BoundsIn(merged[i].hi, want, want + [r]);
      } else {
        BoundsOf(r, want + [r]);
      }
    }
    forall j | 0 <= j < |want + [r]|
      ensures Covered((want + [r])[j], now)
    {
      if j < |want| {
        assert Covered(want[j], merged);
        CoveredPush(want[j], merged, r);
      } else {
        CoveredAt(r, now, |merged|);
      }
    }
  }

  /** The last range, and on to the end of `r`. */
  function Widened(merged: seq<Range>, r: Range): (now: seq<Range>)
    requires merged != []
    ensures |now| == |merged| && now[..|now| - 1] == merged[..|now| - 1]
    ensures now[|now| - 1] == Range(merged[|now| - 1].lo, Max(merged[|now| - 1].hi, r.hi))
  {
    var last := |merged| - 1;
    merged[last := Range(merged[last].lo, Max(merged[last].hi, r.hi))]
  }

  lemma WidenStep(merged: seq<Range>, want: seq<Range>, r: Range, size: nat)
    requires MergedSoFar(merged, want, size) && Proper(want, size) && 0 <= r.lo < r.hi <= size
    requires merged != [] && merged[|merged| - 1].lo <= r.lo && r.lo - merged[|merged| - 1].hi < GAP
    ensures MergedSoFar(Widened(merged, r), want + [r], size)
  {
    hide Covered, StartsOne, EndsOne, Dense;
    DenseMore(merged, Widened(merged, r), want, r, size);
    var last, now := |merged| - 1, Widened(merged, r);
    forall i | 0 <= i < |now|
      ensures StartsOne(now[i].lo, want + [r]) && EndsOne(now[i].hi, want + [r])
    {
      BoundsIn(merged[i].lo, want, want + [r]);
      BoundsIn(merged[i].hi, want, want + [r]);
      BoundsOf(r, want + [r]);
    }
    forall j | 0 <= j < |want + [r]|
      ensures Covered((want + [r])[j], now)
    {
      if j < |want| {
        assert Covered(want[j], merged);
        CoveredWider(want[j], merged, now);
      } else {
        CoveredAt(r, now, last);
      }
    }
  }

  lemma CoveredAt(r: Range, rs: seq<Range>, i: nat)
    requires i < |rs| && Within(r, rs[i])
    ensures Covered(r, rs)
  {}

  lemma CoveredPush(r: Range, rs: seq<Range>, more: Range)
    requires Covered(r, rs)
    ensures Covered(r, rs + [more])
  {
    var i :| 0 <= i < |rs| && Within(r, rs[i]);
    assert Within(r, (rs + [more])[i]);
  }

  lemma CoveredWider(r: Range, rs: seq<Range>, now: seq<Range>)
    requires Covered(r, rs) && |now| == |rs| && forall i :: 0 <= i < |rs| ==> Within(rs[i], now[i])
    ensures Covered(r, now)
  {
    var i :| 0 <= i < |rs| && Within(r, rs[i]);
    assert Within(r, now[i]);
  }

  // ---------------------------------------------------------------- reads of a file

  /** What a synchronous operation does next. */
  datatype Step<T> = Done(value: T) | Want(offset: nat, length: nat)

  /** An operation as a function of the bytes its reads have given so far, with at most `most` reads. */
  datatype Op<!T> = Op(next: seq<seq<byte>> -> Step<T>, most: nat)
  {
    ghost predicate Ends()
    {
      forall got: seq<seq<byte>> :: |got| >= most ==> next(got).Done?
    }
  }

  /** What the operation gives on the whole file, if no read leaves it. */
  ghost function Whole<T>(op: Op<T>, file: seq<byte>, got: seq<seq<byte>>): Option<T>
    requires op.Ends()
    decreases Max(0, op.most - |got|)
  {
    match op.next(got)
    case Done(value) => Some(value)
    case Want(offset, length) =>
      assert |got| < op.most;
      if offset + length <= |file| then Whole(op, file, got + [file[offset..offset + length]]) else None
  }

  /** The first `k` answers on the whole file. */
  ghost function Trail<T>(op: Op<T>, file: seq<byte>, k: nat): (got: seq<seq<byte>>)
  {
    if k == 0 then [] else
    var got := Trail(op, file, k - 1);
    match op.next(got)
    case Done(_) => got
    case Want(offset, length) =>
      if offset + length <= |file| then got + [file[offset..offset + length]] else got
  }

  /** The read that follows the first `k`. */
  ghost function Ask<T>(op: Op<T>, file: seq<byte>, k: nat): Step<T>
  {
    op.next(Trail(op, file, k))
  }

  /** The range that read is of. */
  ghost function RangeOf<T>(s: Step<T>): Range
    requires s.Want?
  {
    Range(s.offset, s.offset + s.length)
  }

  /** The first `k` reads on the whole file are reads, of bytes inside the file, and each is in one entry. */
  ghost predicate Ready<T>(op: Op<T>, file: seq<byte>, entries: seq<Entry>, k: nat)
  {
    forall j :: 0 <= j < k ==> Ask(op, file, j).Want? && InFile(Ask(op, file, j), |file|) && Has(entries, RangeOf(Ask(op, file, j)))
  }

  ghost predicate InFile<T>(s: Step<T>, size: nat)
    requires s.Want?
  {
    s.offset + s.length <= size
  }

  /** The operation does `k` reads on the whole file, none of them empty, and none outside it. */
  ghost predicate Does<T>(op: Op<T>, file: seq<byte>, k: nat)
  {
    && Ask(op, file, k).Done?
    && forall j :: 0 <= j < k ==> Ask(op, file, j).Want? && InFile(Ask(op, file, j), |file|) && Ask(op, file, j).length > 0
  }

  // ---------------------------------------------------------------- the store

  /** How an attempt ends. */
  datatype Try<T> = Value(value: T) | Missed(offset: nat, length: nat)

  /** How a call ends: with a value, a missing range, or a fetch that failed. */
  datatype Outcome<T> = Result(value: T) | Missing(offset: nat, length: nat) | FetchFailed

  /** Bytes of entries that are not pinned. */
  function Held(entries: seq<Entry>): nat
  {
    if entries == [] then 0 else Loose(entries[|entries| - 1]) + Held(entries[..|entries| - 1])
  }

  /** What an entry counts towards the budget. */
  function Loose(e: Entry): nat
  {
    if e.pinned then 0 else |e.bytes|
  }

  /** The entries not dropped. */
  function Without(entries: seq<Entry>, drop: set<Entry>): (kept: seq<Entry>)
    ensures forall e :: e in kept <==> e in entries && e !in drop
  {
    if entries == [] then [] else
    Without(entries[..|entries| - 1], drop) + if entries[|entries| - 1] in drop then [] else [entries[|entries| - 1]]
  }

  /** Every entry holds the file's bytes of its range, and was used at a time of its own. */
  ghost predicate Truthful(entries: seq<Entry>, file: seq<byte>, tick: nat)
  {
    && (forall i :: 0 <= i < |entries| ==> True(entries[i], file) && entries[i].used <= tick)
    && forall i, j :: 0 <= i < j < |entries| ==> entries[i].used != entries[j].used
  }

  predicate True(e: Entry, file: seq<byte>)
  {
    e.start <= e.end <= |file| && e.bytes == file[e.start..e.end]
  }

  /** The same entries, but for when they were last used. */
  ghost predicate SameEntries(now: seq<Entry>, was: seq<Entry>)
  {
    |now| == |was| && forall i :: 0 <= i < |now| ==> now[i] == was[i].(used := now[i].used)
  }

  lemma TruthfulAt(entries: seq<Entry>, file: seq<byte>, tick: nat, i: nat)
    requires Truthful(entries, file, tick) && i < |entries|
    ensures True(entries[i], file)
  {}

  lemma TouchKeeps(entries: seq<Entry>, file: seq<byte>, tick: nat, i: nat)
    requires Truthful(entries, file, tick) && i < |entries|
    ensures Truthful(entries[i := entries[i].(used := tick + 1)], file, tick + 1)
  {}

  /** Entry `i` was used after every other. */
  ghost predicate Latest(entries: seq<Entry>, i: nat)
  {
    i < |entries| && forall j :: 0 <= j < |entries| && j != i ==> entries[j].used < entries[i].used
  }

  /** A read of `r`: the first entry that holds it is the latest used, and no other entry has changed. */
  ghost predicate Touched(was: seq<Entry>, now: seq<Entry>, r: Range)
  {
    && |now| == |was|
    && exists i: nat ::
         && Latest(now, i) && Holds(was[i], r) && (forall j :: 0 <= j < i ==> !Holds(was[j], r))
         && now == was[i := was[i].(used := now[i].used)]
  }

  lemma TouchLatest(entries: seq<Entry>, file: seq<byte>, tick: nat, r: Range, i: nat)
    requires Truthful(entries, file, tick) && i < |entries| && Holds(entries[i], r) && forall j :: 0 <= j < i ==> !Holds(entries[j], r)
    ensures Touched(entries, entries[i := entries[i].(used := tick + 1)], r)
  {
    assert Latest(entries[i := entries[i].(used := tick + 1)], i);
  }

  lemma PushLatest(entries: seq<Entry>, file: seq<byte>, tick: nat, e: Entry)
    requires Truthful(entries, file, tick) && e.used == tick + 1
    ensures Latest(entries + [e], |entries|)
  {}

  lemma NoneReady<T>(op: Op<T>, file: seq<byte>, entries: seq<Entry>)
    ensures Ready(op, file, entries, 0) && Trail(op, file, 0) == []
  {}

  lemma SameThrough(now: seq<Entry>, mid: seq<Entry>, was: seq<Entry>)
    requires SameEntries(now, mid) && SameEntries(mid, was)
    ensures SameEntries(now, was)
  {
    forall i | 0 <= i < |now|
      ensures now[i] == was[i].(used := now[i].used)
    {
      assert mid[i] == was[i].(used := mid[i].used);
    }
  }

  lemma AllPending(entries: seq<Entry>, merged: seq<Range>)
    ensures HeldOrPending(entries, merged, merged)
  {}

  lemma NearSame(sorted: seq<Range>, want: seq<Range>, x: int)
    requires WantedNear(sorted, x) && forall r :: r in sorted <==> r in want
    ensures WantedNear(want, x)
  {
    var j :| 0 <= j < |sorted| && sorted[j].lo < x + 65536 && x < sorted[j].hi;
    assert sorted[j] in want;
  }

  /** The joined ranges are bounded by what was wanted, in whatever order. */
  lemma MergedIs(merged: seq<Range>, sorted: seq<Range>, want: seq<Range>, size: nat)
    requires MergedSoFar(merged, sorted, size) && forall r :: r in sorted <==> r in want
    ensures Proper(merged, size) && Apart(merged) && Bounded(merged, want) && Dense(merged, want)
  {
    hide StartsOne, EndsOne, Covered, WantedNear;
    forall i, x | 0 <= i < |merged| && merged[i].lo <= x && x + 65536 <= merged[i].hi
      ensures WantedNear(want, x)
    {
      NearSame(sorted, want, x);
    }
    forall i | 0 <= i < |merged|
      ensures StartsOne(merged[i].lo, want) && EndsOne(merged[i].hi, want)
    {
      BoundsIn(merged[i].lo, sorted, want);
      BoundsIn(merged[i].hi, sorted, want);
    }
  }

  lemma PushKeeps(entries: seq<Entry>, file: seq<byte>, tick: nat, e: Entry)
    requires Truthful(entries, file, tick) && True(e, file) && e.used == tick + 1
    ensures Truthful(entries + [e], file, tick + 1)
  {}

  lemma SliceOfSlice(file: seq<byte>, at: nat, to: nat, lo: nat, hi: nat)
    requires at <= lo <= hi <= to <= |file|
    ensures file[at..to][lo - at..hi - at] == file[lo..hi]
  {
    var t, v := file[at..to], file[lo..hi];
    var u := t[lo - at..hi - at];
    assert forall i :: 0 <= i < hi - lo ==> u[i] == v[i];
  }

  lemma HasAt(entries: seq<Entry>, r: Range, i: nat)
    requires i < |entries| && Holds(entries[i], r)
    ensures Has(entries, r)
  {}

  /** Entries added, or used, still have what was there. */
  lemma HasKept(now: seq<Entry>, was: seq<Entry>, r: Range)
    requires |was| <= |now| && SameEntries(now[..|was|], was) && Has(was, r)
    ensures Has(now, r)
  {
    var i :| 0 <= i < |was| && Holds(was[i], r);
    assert now[..|was|][i] == was[i].(used := now[..|was|][i].used);
    assert Holds(now[i], r);
  }

  lemma HasSame(now: seq<Entry>, was: seq<Entry>, r: Range)
    requires SameEntries(now, was)
    ensures Has(now, r) == Has(was, r)
  {
    if Has(now, r) {
      var i :| 0 <= i < |now| && Holds(now[i], r);
      assert now[i] == was[i].(used := now[i].used) && Holds(was[i], r);
    }
    if Has(was, r) {
      assert now[..|was|] == now;
      HasKept(now, was, r);
    }
  }

  lemma ReadySame<T>(op: Op<T>, file: seq<byte>, now: seq<Entry>, was: seq<Entry>, k: nat)
    requires SameEntries(now, was) && Ready(op, file, was, k)
    ensures Ready(op, file, now, k)
  {
    hide Has, SameEntries, Ask;
    forall j | 0 <= j < k
      ensures Has(now, RangeOf(Ask(op, file, j)))
    {
      HasSame(now, was, RangeOf(Ask(op, file, j)));
    }
  }

  lemma ReadyKept<T>(op: Op<T>, file: seq<byte>, now: seq<Entry>, was: seq<Entry>, k: nat)
    requires was <= now && Ready(op, file, was, k)
    ensures Ready(op, file, now, k)
  {
    hide Has, Ask;
    SameAsWas(now[..|was|], was);
    forall j | 0 <= j < k
      ensures Has(now, RangeOf(Ask(op, file, j)))
    {
      HasKept(now, was, RangeOf(Ask(op, file, j)));
    }
  }

  lemma SameAsWas(now: seq<Entry>, was: seq<Entry>)
    requires now == was
    ensures SameEntries(now, was)
  {}

  lemma ReadyMore<T>(op: Op<T>, file: seq<byte>, entries: seq<Entry>, k: nat)
    requires Ready(op, file, entries, k) && Ask(op, file, k).Want? && InFile(Ask(op, file, k), |file|)
    requires Has(entries, RangeOf(Ask(op, file, k)))
    ensures Ready(op, file, entries, k + 1)
  {}

  /** A read that misses comes after every read that is ready, and before the operation's end. */
  lemma MissPlace<T>(op: Op<T>, file: seq<byte>, entries: seq<Entry>, ready: nat, d: nat, k: nat)
    requires Ready(op, file, entries, ready) && Ready(op, file, entries, d) && Does(op, file, k)
    requires Ask(op, file, d).Want? && !Has(entries, RangeOf(Ask(op, file, d)))
    ensures ready <= d < k
  {
    hide Has, Ask;
  }

  /** No entry has bytes past the file's end, so a read of them is missing however often it is fetched. */
  lemma PastTheEnd(entries: seq<Entry>, file: seq<byte>, tick: nat, r: Range)
    requires Truthful(entries, file, tick) && r.hi > |file|
    ensures !Has(entries, r)
  {}

  /** An operation that comes to an end on the whole file does so at the same answers. */
  lemma TrailStep<T>(op: Op<T>, file: seq<byte>, k: nat)
    requires Ask(op, file, k).Want? && InFile(Ask(op, file, k), |file|)
    ensures var s := Ask(op, file, k);
            Trail(op, file, k + 1) == Trail(op, file, k) + [file[s.offset..s.offset + s.length]]
  {}

  /** Every range, clipped to the file, is empty or all in one entry. */
  ghost predicate AllHeld(entries: seq<Entry>, ranges: seq<Range>, size: nat)
  {
    forall i :: 0 <= i < |ranges| ==> Clip(ranges[i], size).lo < Clip(ranges[i], size).hi ==> Has(entries, Clip(ranges[i], size))
  }

  /** The entries after the first `n` are of ranges of `merged`. */
  ghost predicate Fetched(entries: seq<Entry>, n: nat, merged: seq<Range>, pin: bool)
  {
    forall i :: n <= i < |entries| ==> Range(entries[i].start, entries[i].end) in merged && entries[i].pinned == pin
  }

  /** Every range of `merged` is held or still to be fetched. */
  ghost predicate HeldOrPending(entries: seq<Entry>, merged: seq<Range>, pending: seq<Range>)
  {
    forall m :: m in merged ==> m in pending || Has(entries, m)
  }

  lemma PendingStep(now: seq<Entry>, was: seq<Entry>, merged: seq<Range>, pending: seq<Range>, at: nat)
    requires HeldOrPending(was, merged, pending) && at < |pending| && was <= now && Has(now, pending[at])
    ensures HeldOrPending(now, merged, pending[..at] + pending[at + 1..])
  {
    hide Has;
    SameAsWas(now[..|was|], was);
    forall m | m in merged
      ensures m in pending[..at] + pending[at + 1..] || Has(now, m)
    {
      if m in pending {
        assert pending == pending[..at] + [pending[at]] + pending[at + 1..];
      } else {
        HasKept(now, was, m);
      }
    }
  }

  /** With all joined ranges held, so is all that was asked for. */
  lemma AllFetched(now: seq<Entry>, was: seq<Entry>, ranges: seq<Range>, sorted: seq<Range>, merged: seq<Range>, size: nat)
    requires was <= now && HeldOrPending(now, merged, [])
    requires (forall r :: r in sorted <==> r in Wanted(was, ranges, size)) && MergedSoFar(merged, sorted, size)
    ensures AllHeld(now, ranges, size)
  {
    hide Has, Wanted, Covered;
    SameAsWas(now[..|was|], was);
    forall i | 0 <= i < |ranges| && Clip(ranges[i], size).lo < Clip(ranges[i], size).hi
      ensures Has(now, Clip(ranges[i], size))
    {
      var r := Clip(ranges[i], size);
      WantedIs(was, ranges, size, i);
      if Has(was, r) {
        HasKept(now, was, r);
      } else {
        var j :| 0 <= j < |sorted| && sorted[j] == r;
        HeldIfCovered(now, r, merged);
      }
    }
  }

  lemma HeldIfCovered(entries: seq<Entry>, r: Range, merged: seq<Range>)
    requires Covered(r, merged) && HeldOrPending(entries, merged, [])
    ensures Has(entries, r)
  {
    var i :| 0 <= i < |merged| && Within(r, merged[i]);
    assert merged[i] in merged;
    var j :| 0 <= j < |entries| && Holds(entries[j], merged[i]);
    assert Holds(entries[j], r);
  }

  class RangeStore {
    var entries: seq<Entry>
    var tick: nat
    const size: nat
    const budget: nat
    /** The file that ranges are fetched of; only `Fetch` looks at it. */
    const file: seq<byte>

    constructor (file: seq<byte>, budget: nat)
      ensures Valid() && entries == [] && this.file == file && this.budget == budget
    {
      this.file, this.budget, size := file, budget, |file|;
      entries, tick := [], 0;
    }

    ghost predicate Valid()
      reads this
    {
      size == |file| && Truthful(entries, file, tick)
    }

    /** The bytes of a range one entry holds all of, or None. */
    method Read(offset: nat, length: nat) returns (r: Option<seq<byte>>)
      requires Valid()
      modifies this
      ensures Valid() && SameEntries(entries, old(entries))
      ensures r == None <==> !Has(old(entries), Range(offset, offset + length))
      ensures r == None ==> entries == old(entries)
      ensures r != None ==> offset + length <= size && r.value == file[offset..offset + length]
      ensures r != None ==> Touched(old(entries), entries, Range(offset, offset + length))
    {
      hide Truthful;
      var end := offset + length;
      var i := 0;
      while i < |entries| && !Holds(entries[i], Range(offset, end))
        invariant i <= |entries|
        invariant forall j :: 0 <= j < i ==> !Holds(entries[j], Range(offset, end))
        modifies {}
      {
        i := i + 1;
      }
      if i == |entries| {
        return None;
      }
      var e := entries[i];
      TruthfulAt(entries, file, tick, i);
      SliceOfSlice(file, e.start, e.end, offset, end);
      TouchKeeps(entries, file, tick, i);
      TouchLatest(entries, file, tick, Range(offset, end), i);
      tick := tick + 1;
      entries := entries[i := e.(used := tick)];
      return Some(e.bytes[offset - e.start..end - e.start]);
    }

    /** One range from the file: its bytes, bytes of another number, or nothing. */
    method Fetch(at: nat, length: nat, works: bool) returns (r: Option<seq<byte>>)
      requires Valid() && at + length <= size
      ensures works ==> r != None && |r.value| == length
      ensures r != None && |r.value| == length ==> r.value == file[at..at + length]
    {
      var right := *;
      if works || right {
        return Some(file[at..at + length]);
      }
      var fails := *;
      if fails {
        return None;
      }
      var wrong: seq<byte> := *;
      if |wrong| == length {
        return None;
      }
      return Some(wrong);
    }

    /** Keep the bytes a fetch gave, if they are as many as were asked for. */
    method Keep(r: Range, pin: bool, works: bool) returns (ok: bool)
      requires Valid() && 0 <= r.lo < r.hi <= size
      modifies this
      ensures Valid() && (works ==> ok)
      ensures !ok ==> entries == old(entries)
      ensures ok ==> |entries| == |old(entries)| + 1 && entries[..|old(entries)|] == old(entries)
      ensures ok ==> var e := entries[|old(entries)|]; e.start == r.lo && e.end == r.hi && e.pinned == pin
      ensures ok ==> Latest(entries, |old(entries)|)
    {
      hide Truthful;
      var bytes := Fetch(r.lo, r.hi - r.lo, works);
      if bytes == None || |bytes.value| != r.hi - r.lo {
        return false;
      }
      var e := Entry(r.lo, r.hi, bytes.value, pin, tick + 1);
      PushKeeps(entries, file, tick, e);
      PushLatest(entries, file, tick, e);
      tick := tick + 1;
      entries := entries + [e];
      return true;
    }

    /** Let entries go until the bytes come within the budget: the longest unused first, pinned ones never. */
    method Trim() returns (ghost drop: set<Entry>)
      requires Valid()
      modifies this`entries
      ensures Valid() && Trimmed(old(entries), entries, drop, budget)
    {
      hide Truthful, Trimmed, Held, Without, ByUse;
      var held := HeldBytes(entries, file, tick);
      if held <= budget {
        NothingTrimmed(entries, budget);
        return {};
      }
      var order := LeastUsed();
      var dropped: set<Entry> := {};
      WithoutNone(entries);
      FirstOf(order);
      var i := 0;
      while i < |order| && held > budget
        invariant i <= |order| && dropped == FirstSet(order, i)
        invariant held == Held(Without(entries, dropped))
        invariant i > 0 ==> held + Loose(order[i - 1]) > budget
        modifies {}
      {
        DropOne(entries, file, tick, order, i);
        dropped := dropped + {order[i]};
        held := held - (order[i].end - order[i].start);
        i := i + 1;
      }
      TrimEnds(entries, file, tick, order, i, budget);
      drop := dropped;
      entries := Without(entries, dropped);
    }

    /** The entries that are not pinned, the least recently used first. */
    method LeastUsed() returns (order: seq<Entry>)
      requires Valid()
      ensures ByUse(order, entries)
    {
      hide StableOrder, Permutes, Picked, Truthful, ByUse, DistinctUses, Unpinned, Uses;
      var loose := Unpinned(entries);
      ghost var places;
      order, places := SortBy(loose, Uses(loose));
      LooseDistinct(entries, file, tick);
      SortedUses(loose, places);
      ByUseIs(order, entries);
    }

    /** What other calls do while this one waits: any reads, fetches and trims, in any order. */
    method Others()
      requires Valid()
      modifies this
      ensures Valid()
    {
      var steps: nat := *;
      while steps > 0
        invariant Valid()
      {
        var offset: nat, length: nat, r: Range := *, *, *;
        if {
          case true =>
            var _ := Read(offset, length);
          case 0 <= r.lo < r.hi <= size =>
            var pin, works := *, *;
            var _ := Keep(r, pin, works);
          case true =>
            ghost var _ := Trim();
        }
        steps := steps - 1;
      }
    }

    /** Fetch what the store lacks of `ranges`. With `alone`, no other call runs meanwhile; with `works`, every fetch gives what it is asked for. */
    method Ensure(ranges: seq<Range>, pin: bool, alone: bool, works: bool) returns (ok: bool, ghost merged: seq<Range>)
      requires Valid()
      modifies this
      ensures Valid() && (works ==> ok)
      ensures alone ==> old(entries) <= entries && Fetched(entries, |old(entries)|, merged, pin)
      ensures alone && ok ==> AllHeld(entries, ranges, size)
      ensures Proper(merged, size) && Apart(merged) && Bounded(merged, Wanted(old(entries), ranges, size))
      ensures Dense(merged, Wanted(old(entries), ranges, size))
    {
      hide Truthful, Has, MergedSoFar, Wanted, HeldOrPending, Fetched, AllHeld, Apart, Bounded, Dense;
      ghost var was := entries;
      var want := Wanted(entries, ranges, size);
      var sorted := SortRanges(want, size);
      var joined := Merge(sorted, size);
      merged := joined;
      MergedIs(joined, sorted, want, size);
      ok := FetchAll(joined, pin, alone, works);
      if alone && ok {
        AllFetched(entries, was, ranges, sorted, joined, size);
      }
    }

    /** Fetch each range, in whatever order they arrive. */
    method FetchAll(joined: seq<Range>, pin: bool, alone: bool, works: bool) returns (ok: bool)
      requires Valid() && Proper(joined, size)
      modifies this
      ensures Valid() && (works ==> ok)
      ensures alone ==> old(entries) <= entries && Fetched(entries, |old(entries)|, joined, pin)
      ensures alone && ok ==> HeldOrPending(entries, joined, [])
    {
      hide Truthful, Has, HeldOrPending;
      ghost var was := entries;
      var pending := joined;
      AllPending(entries, joined);
      while pending != []
        invariant Valid() && Proper(pending, size) && forall m :: m in pending ==> m in joined
        invariant alone ==> was <= entries && Fetched(entries, |was|, joined, pin) && HeldOrPending(entries, joined, pending)
        decreases |pending|
      {
        if !alone {
          Others();
        }
        var at: nat :| at < |pending|;
        ghost var before := entries;
        ok := Keep(pending[at], pin, works);
        if !ok {
          return false;
        }
        if alone {
          HasAt(entries, pending[at], |before|);
          PendingStep(entries, before, joined, pending, at);
        }
        assert pending[at] in pending;
        pending := pending[..at] + pending[at + 1..];
      }
      if !alone {
        Others();
      }
      ok := true;
    }

    /** Run an operation on the ranges held; a read of any other ends it. */
    method Attempt<T>(op: Op<T>) returns (r: Try<T>, ghost d: nat)
      requires Valid() && op.Ends()
      modifies this
      ensures Valid() && SameEntries(entries, old(entries))
      ensures r.Value? ==> Whole(op, file, []) == Some(r.value)
      ensures r.Missed? ==> Ready(op, file, entries, d) && Ask(op, file, d) == Want(r.offset, r.length)
      ensures r.Missed? ==> !Has(entries, Range(r.offset, r.offset + r.length))
    {
      hide Truthful, Has, Ready, Trail;
      var got: seq<seq<byte>> := [];
      ghost var was := entries;
      d := 0;
      NoneReady(op, file, entries);
      SameAsWas(entries, was);
      while true
        invariant Valid() && SameEntries(entries, was)
        invariant |got| == d && got == Trail(op, file, d)
        invariant Ready(op, file, entries, d)
        invariant Whole(op, file, []) == Whole(op, file, got)
        decreases op.most - |got|
      {
        match op.next(got)
        case Done(value) =>
          return Value(value), d;
        case Want(offset, length) =>
          ghost var before := entries;
          var bytes := Read(offset, length);
          ReadySame(op, file, entries, before, d);
          HasSame(entries, before, Range(offset, offset + length));
          if bytes == None {
            return Missed(offset, length), d;
          }
          SameThrough(entries, before, was);
          TrailStep(op, file, d);
          ReadyMore(op, file, entries, d);
          got := got + [bytes.value];
          d := d + 1;
      }
    }

    /** One attempt: the plan, its ranges, the operation. */
    method Once<T>(op: Op<T>, plan: Op<seq<Range>>, alone: bool, works: bool, ghost a: nat, ghost b: nat)
      returns (r: Outcome<T>, ghost d: nat)
      requires Valid() && op.Ends() && plan.Ends()
      requires alone ==> Ready(plan, file, entries, a) && Ready(op, file, entries, b)
      modifies this
      ensures Valid() && (works ==> !r.FetchFailed?)
      ensures r.Result? ==> Whole(op, file, []) == Some(r.value)
      ensures r.Missing? && alone ==> Ready(plan, file, entries, a) && Ready(op, file, entries, b)
      ensures r.Missing? && alone ==> Stuck(plan, file, entries, d, r.offset, r.length) || Stuck(op, file, entries, d, r.offset, r.length)
      ensures alone ==> PinsFrom(entries, old(entries))
    {
      hide Truthful, Has, Ready, Whole, AllHeld, SameEntries, Fetched, Proper, Apart, Bounded, Dense, PinsFrom, Trimmed;
      ghost var e0 := entries;
      var planned;
      planned, d := Attempt(plan);
      if alone {
        ReadySame(plan, file, entries, e0, a);
        ReadySame(op, file, entries, e0, b);
      }
      PinsSame(entries, e0);
      if planned.Missed? {
        return Missing(planned.offset, planned.length), d;
      }
      ghost var e1 := entries;
      var ok, merged := Ensure(planned.value, false, alone, works);
      if alone {
        PinsFetched(entries, e1, merged);
        PinsChain(entries, e1, e0);
      }
      if !ok {
        return FetchFailed, d;
      }
      ghost var e2 := entries;
      if alone {
        ReadyKept(plan, file, e2, e1, a);
        ReadyKept(op, file, e2, e1, b);
      }
      var done;
      done, d := Attempt(op);
      PinsSame(entries, e2);
      if alone {
        PinsChain(entries, e2, e0);
      }
      ghost var e3 := entries;
      if done.Value? {
        ghost var drop := Trim();
        PinsKept(entries, e3, drop, budget);
        if alone {
          PinsChain(entries, e3, e0);
        }
        return Result(done.value), d;
      }
      if alone {
        ReadySame(plan, file, entries, e2, a);
        ReadySame(op, file, entries, e2, b);
      }
      return Missing(done.offset, done.length), d;
    }

    /** Try `op` until it ends: its plan's ranges are fetched beforehand, and after each try the one it lacked. */
    method Run<T>(op: Op<T>, plan: Op<seq<Range>>, alone: bool, works: bool, ghost p: nat, ghost q: nat)
      returns (r: Outcome<T>, attempts: nat)
      requires Valid() && op.Ends() && plan.Ends()
      modifies this
      ensures Valid() && 1 <= attempts <= 65 && (r.Missing? ==> attempts == 65)
      ensures r.Result? ==> Whole(op, file, []) == Some(r.value)
      ensures alone && works && Does(plan, file, p) && Does(op, file, q) && p + q <= 64 ==> r.Result?
      ensures alone ==> PinsFrom(entries, old(entries))
    {
      hide Truthful, Has, Ready, Does, Whole, AllHeld, SameEntries, Stuck, PinsFrom, Fetched, Dense;
      SameAsWas(entries, old(entries));
      PinsSame(entries, old(entries));
      var attempt: nat := 0;
      ghost var easy := alone && works && Does(plan, file, p) && Does(op, file, q) && p + q <= LAST;
      ghost var a: nat, b: nat := 0, 0;
      NoneReady(plan, file, entries);
      NoneReady(op, file, entries);
      while true
        invariant attempt <= LAST && Valid()
        invariant alone ==> Ready(plan, file, entries, a) && Ready(op, file, entries, b) && PinsFrom(entries, old(entries))
        invariant easy ==> attempt <= a + b && a <= p && b <= q
        decreases LAST - attempt
      {
        ghost var d;
        ghost var start := entries;
        r, d := Once(op, plan, alone, works, a, b);
        if alone {
          PinsChain(entries, start, old(entries));
        }
        if !r.Missing? {
          return r, attempt + 1;
        }
        ghost var before := entries;
        ghost var inPlan := alone && Stuck(plan, file, before, d, r.offset, r.length);
        if easy {
          if inPlan {
            StuckBefore(plan, file, before, a, d, p, r.offset, r.length);
          } else {
            StuckBefore(op, file, before, b, d, q, r.offset, r.length);
          }
        }
        if attempt >= LAST {
          return r, attempt + 1;
        }
        var ranges := [Range(r.offset, r.offset + r.length)];
        var ok, merged := Ensure(ranges, false, alone, works);
        if alone {
          PinsFetched(entries, before, merged);
          PinsChain(entries, before, old(entries));
        }
        if !ok {
          return FetchFailed, attempt + 1;
        }
        if alone {
          ReadyKept(plan, file, entries, before, a);
          ReadyKept(op, file, entries, before, b);
        }
        if easy {
          if inPlan {
            Cured(plan, file, entries, before, d, p, r.offset, r.length);
            a := d + 1;
          } else {
            Cured(op, file, entries, before, d, q, r.offset, r.length);
            b := d + 1;
          }
        }
        attempt := attempt + 1;
      }
    }
  }

  /** Every pinned entry is of a range that was pinned. */
  ghost predicate PinsFrom(now: seq<Entry>, was: seq<Entry>)
  {
    forall i :: 0 <= i < |now| && now[i].pinned ==> PinnedOne(now[i], was)
  }

  ghost predicate PinnedOne(e: Entry, was: seq<Entry>)
  {
    exists j :: 0 <= j < |was| && was[j].pinned && was[j].start == e.start && was[j].end == e.end
  }

  lemma PinsSame(now: seq<Entry>, was: seq<Entry>)
    requires SameEntries(now, was)
    ensures PinsFrom(now, was)
  {
    forall i | 0 <= i < |now| && now[i].pinned
      ensures PinnedOne(now[i], was)
    {
      assert now[i] == was[i].(used := now[i].used);
    }
  }

  lemma PinsFetched(now: seq<Entry>, was: seq<Entry>, merged: seq<Range>)
    requires was <= now && Fetched(now, |was|, merged, false)
    ensures PinsFrom(now, was)
  {
    forall i | 0 <= i < |now| && now[i].pinned
      ensures PinnedOne(now[i], was)
    {
      assert i < |was| && was[i] == now[i];
    }
  }

  lemma PinsKept(now: seq<Entry>, was: seq<Entry>, drop: set<Entry>, budget: nat)
    requires Trimmed(was, now, drop, budget)
    ensures PinsFrom(now, was)
  {
    forall i | 0 <= i < |now| && now[i].pinned
      ensures PinnedOne(now[i], was)
    {
      assert now[i] in Without(was, drop);
      var j :| 0 <= j < |was| && was[j] == now[i];
    }
  }

  lemma PinsChain(now: seq<Entry>, mid: seq<Entry>, was: seq<Entry>)
    requires PinsFrom(now, mid) && PinsFrom(mid, was)
    ensures PinsFrom(now, was)
  {
    forall i | 0 <= i < |now| && now[i].pinned
      ensures PinnedOne(now[i], was)
    {
      var j :| 0 <= j < |mid| && mid[j].pinned && mid[j].start == now[i].start && mid[j].end == now[i].end;
      assert PinnedOne(mid[j], was);
    }
  }

  /** The operation's read after the first `d`, of these bytes, is in no entry. */
  ghost predicate Stuck<T>(op: Op<T>, file: seq<byte>, entries: seq<Entry>, d: nat, offset: nat, length: nat)
  {
    Ready(op, file, entries, d) && Ask(op, file, d) == Want(offset, length) && !Has(entries, Range(offset, offset + length))
  }

  lemma StuckBefore<T>(op: Op<T>, file: seq<byte>, entries: seq<Entry>, ready: nat, d: nat, k: nat, offset: nat, length: nat)
    requires Ready(op, file, entries, ready) && Stuck(op, file, entries, d, offset, length) && Does(op, file, k)
    ensures ready <= d < k
  {
    hide Ready, Does;
    MissPlace(op, file, entries, ready, d, k);
  }

  /** Once the range it was stuck at is fetched, one more read is ready. */
  lemma Cured<T>(op: Op<T>, file: seq<byte>, now: seq<Entry>, was: seq<Entry>, d: nat, k: nat, offset: nat, length: nat)
    requires Stuck(op, file, was, d, offset, length) && Does(op, file, k) && d < k
    requires was <= now && AllHeld(now, [Range(offset, offset + length)], |file|)
    ensures Ready(op, file, now, d + 1)
  {
    hide Has, Ask;
    ReadyKept(op, file, now, was, d);
    var r := Range(offset, offset + length);
    assert [r][0] == r && Clip(r, |file|) == r;
    ReadyMore(op, file, now, d);
  }

  /** The sum of the bytes of entries that are not pinned. */
  method HeldBytes(entries: seq<Entry>, ghost file: seq<byte>, ghost tick: nat) returns (held: nat)
    requires Truthful(entries, file, tick)
    ensures held == Held(entries)
  {
    held := 0;
    var i := 0;
    while i < |entries|
      invariant i <= |entries| && held == Held(entries[..i])
    {
      TruthfulAt(entries, file, tick, i);
      assert entries[..i + 1][..i] == entries[..i];
      held := held + if entries[i].pinned then 0 else entries[i].end - entries[i].start;
      i := i + 1;
    }
    assert entries[..i] == entries;
  }

  function Unpinned(entries: seq<Entry>): (r: seq<Entry>)
    ensures forall e :: e in r <==> e in entries && !e.pinned
  {
    if entries == [] then [] else
    Unpinned(entries[..|entries| - 1]) + if entries[|entries| - 1].pinned then [] else [entries[|entries| - 1]]
  }

  function Uses(entries: seq<Entry>): (r: seq<nat>)
    ensures |r| == |entries| && forall i :: 0 <= i < |r| ==> r[i] == entries[i].used
  {
    if entries == [] then [] else Uses(entries[..|entries| - 1]) + [entries[|entries| - 1].used]
  }

  ghost predicate DistinctUses(entries: seq<Entry>)
  {
    forall i, j :: 0 <= i < j < |entries| ==> entries[i].used != entries[j].used
  }

  /** `order` is the entries that are not pinned, each used before the next. */
  ghost predicate ByUse(order: seq<Entry>, entries: seq<Entry>)
  {
    && (forall e :: e in order <==> e in entries && !e.pinned)
    && forall i, j :: 0 <= i < j < |order| ==> order[i].used < order[j].used
  }

  lemma ByUseIs(order: seq<Entry>, entries: seq<Entry>)
    requires forall e :: e in order <==> e in entries && !e.pinned
    requires forall i, j :: 0 <= i < j < |order| ==> order[i].used < order[j].used
    ensures ByUse(order, entries)
  {}

  lemma {:induction false} UnpinnedDistinct(entries: seq<Entry>)
    requires DistinctUses(entries)
    ensures DistinctUses(Unpinned(entries))
  {
    if entries != [] {
      var front := entries[..|entries| - 1];
      UnpinnedDistinct(front);
      forall e | e in Unpinned(front)
        ensures e.used != entries[|entries| - 1].used
      {
        var i :| 0 <= i < |front| && front[i] == e;
      }
    }
  }

  lemma LooseDistinct(entries: seq<Entry>, file: seq<byte>, tick: nat)
    requires Truthful(entries, file, tick)
    ensures DistinctUses(Unpinned(entries))
  {
    UnpinnedDistinct(entries);
  }

  lemma SortedUses(loose: seq<Entry>, places: seq<nat>)
    requires DistinctUses(loose) && StableOrder(places, Uses(loose)) && Permutes(places, |loose|)
    ensures forall i, j :: 0 <= i < j < |Picked(loose, places)| ==> Picked(loose, places)[i].used < Picked(loose, places)[j].used
  {
    hide Uses, StableOrder, Permutes;
    PermutesPlaces(places, |loose|);
    forall i, j | 0 <= i < j < |places|
      ensures Picked(loose, places)[i].used < Picked(loose, places)[j].used
    {
      SortedAt(places, Uses(loose), i, j);
      assert places[i] < places[j] || places[j] < places[i];
    }
  }

  function FirstSet(order: seq<Entry>, i: nat): set<Entry>
    requires i <= |order|
  {
    set e | e in order[..i]
  }

  lemma FirstOf(order: seq<Entry>)
    ensures FirstSet(order, 0) == {}
  {}

  /** What trimming does: the kept entries are the others, as they were. */
  ghost predicate Trimmed(was: seq<Entry>, now: seq<Entry>, drop: set<Entry>, budget: nat)
  {
    && now == Without(was, drop) && Held(now) <= budget
    && (forall d :: d in drop ==> d in was && !d.pinned)
    && (forall d, e :: d in drop && e in now && !e.pinned ==> d.used < e.used)
    && (drop != {} ==> exists d :: d in drop && (forall e :: e in drop ==> e.used <= d.used) && Held(now) + Loose(d) > budget)
  }

  /** The entry fetched or read after all the others that may be dropped is not dropped while any of them stays. */
  lemma LatestStays(was: seq<Entry>, now: seq<Entry>, drop: set<Entry>, budget: nat, i: nat)
    requires Trimmed(was, now, drop, budget) && i < |was|
    requires forall j :: 0 <= j < |was| && j != i && !was[j].pinned ==> was[j].used < was[i].used
    ensures (exists j :: 0 <= j < |was| && !was[j].pinned && was[j] !in drop) ==> was[i] !in drop
  {
    hide Held, Loose;
    if j :| 0 <= j < |was| && !was[j].pinned && was[j] !in drop {
      assert was[j] in now;
    }
  }

  lemma {:induction false} WithoutNone(entries: seq<Entry>)
    ensures Without(entries, {}) == entries
  {
    if entries != [] {
      WithoutNone(entries[..|entries| - 1]);
    }
  }

  lemma NothingTrimmed(entries: seq<Entry>, budget: nat)
    requires Held(entries) <= budget
    ensures Trimmed(entries, entries, {}, budget)
  {
    WithoutNone(entries);
  }

  /** Dropping one more takes its bytes away. */
  lemma {:induction false} HeldDrop(entries: seq<Entry>, drop: set<Entry>, e: Entry)
    requires DistinctUses(entries) && e in entries && e !in drop
    ensures Held(Without(entries, drop)) == Held(Without(entries, drop + {e})) + Loose(e)
  {
    var n := |entries| - 1;
    var front, last := entries[..n], entries[n];
    HeldPush(Without(front, drop), last);
    HeldPush(Without(front, drop + {e}), last);
    if last == e {
      assert e !in front;
      SameWithout(front, drop, e);
    } else {
      HeldDrop(front, drop, e);
    }
  }

  lemma HeldPush(entries: seq<Entry>, e: Entry)
    ensures Held(entries + [e]) == Held(entries) + Loose(e)
    ensures entries + [] == entries
  {
    assert (entries + [e])[..|entries|] == entries;
  }

  lemma {:induction false} SameWithout(entries: seq<Entry>, drop: set<Entry>, e: Entry)
    requires e !in entries
    ensures Without(entries, drop + {e}) == Without(entries, drop)
  {
    if entries != [] {
      SameWithout(entries[..|entries| - 1], drop, e);
    }
  }

  lemma DropOne(entries: seq<Entry>, file: seq<byte>, tick: nat, order: seq<Entry>, i: nat)
    requires Truthful(entries, file, tick) && ByUse(order, entries) && i < |order|
    ensures FirstSet(order, i + 1) == FirstSet(order, i) + {order[i]} && Loose(order[i]) == order[i].end - order[i].start
    ensures Held(Without(entries, FirstSet(order, i))) == Held(Without(entries, FirstSet(order, i + 1))) + Loose(order[i])
  {
    hide Held, Without;
    assert order[..i + 1] == order[..i] + [order[i]] && order[i] in entries;
    HeldDrop(entries, FirstSet(order, i), order[i]);
  }

  lemma {:induction false} AllPinned(entries: seq<Entry>)
    requires forall e :: e in entries ==> e.pinned
    ensures Held(entries) == 0
  {
    if entries != [] {
      AllPinned(entries[..|entries| - 1]);
    }
  }

  lemma FirstDroppable(entries: seq<Entry>, order: seq<Entry>, i: nat)
    requires ByUse(order, entries) && i <= |order|
    ensures forall d :: d in FirstSet(order, i) ==> d in entries && !d.pinned
    ensures i == 0 ==> FirstSet(order, i) == {}
  {}

  lemma TrimEnds(entries: seq<Entry>, file: seq<byte>, tick: nat, order: seq<Entry>, i: nat, budget: nat)
    requires Truthful(entries, file, tick) && ByUse(order, entries) && i <= |order|
    requires i < |order| ==> Held(Without(entries, FirstSet(order, i))) <= budget
    requires i > 0 ==> Held(Without(entries, FirstSet(order, i))) + Loose(order[i - 1]) > budget
    ensures Trimmed(entries, Without(entries, FirstSet(order, i)), FirstSet(order, i), budget)
    ensures Truthful(Without(entries, FirstSet(order, i)), file, tick)
  {
    hide Held, Without, Truthful;
    WithoutTruthful(entries, file, tick, FirstSet(order, i));
    if i == |order| {
      AllDropped(entries, order);
    }
    LeastDropped(entries, order, i);
    FirstDroppable(entries, order, i);
  }

  lemma FirstHas(order: seq<Entry>, i: nat, b: nat)
    requires i <= |order| && b < |order|
    ensures b < i ==> order[b] in FirstSet(order, i)
  {
    if b < i {
      assert order[..i][b] == order[b];
    }
  }

  /** With all that may be dropped dropped, nothing counts. */
  lemma AllDropped(entries: seq<Entry>, order: seq<Entry>)
    requires ByUse(order, entries)
    ensures Held(Without(entries, FirstSet(order, |order|))) == 0
  {
    hide Held, Without;
    assert order[..|order|] == order;
    AllPinned(Without(entries, FirstSet(order, |order|)));
  }

  /** Every entry dropped was used before every one kept that could have been. */
  lemma LeastDropped(entries: seq<Entry>, order: seq<Entry>, i: nat)
    requires ByUse(order, entries) && i <= |order|
    ensures forall d, e :: d in FirstSet(order, i) && e in entries && e !in FirstSet(order, i) && !e.pinned ==> d.used < e.used
    ensures i > 0 ==> order[i - 1] in FirstSet(order, i) && forall e :: e in FirstSet(order, i) ==> e.used <= order[i - 1].used
  {
    forall d, e | d in FirstSet(order, i) && e in entries && e !in FirstSet(order, i) && !e.pinned
      ensures d.used < e.used
    {
      var a :| 0 <= a < |order[..i]| && order[..i][a] == d;
      var b :| 0 <= b < |order| && order[b] == e;
      FirstHas(order, i, b);
    }
    if i > 0 {
      FirstHas(order, i, i - 1);
    }
  }

  lemma {:induction false} WithoutTruthful(entries: seq<Entry>, file: seq<byte>, tick: nat, drop: set<Entry>)
    requires Truthful(entries, file, tick)
    ensures Truthful(Without(entries, drop), file, tick)
  {
    if entries != [] {
      var n := |entries| - 1;
      WithoutTruthful(entries[..n], file, tick, drop);
      var front := Without(entries[..n], drop);
      forall e | e in front
        ensures e.used != entries[n].used
      {
        var i :| 0 <= i < n && entries[..n][i] == e;
      }
    }
  }
}
