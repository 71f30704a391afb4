/** `js/src/parquet.ts`, `calls`: which module calls a read makes, by the footer's sizes and a budget. */
module Planner {
  /** Columns, by their places in the read, and the rows of them that are asked for. */
  datatype Call = Call(cols: seq<nat>, start: nat, count: nat)

  datatype Group = Group(firstRow: nat, rows: nat)
  {
    function End(): nat { firstRow + rows }
  }

  /** What a column's rows take: text by the footer's sizes per row group where it gives them. */
  datatype Kind = Text(sizes: seq<nat>) | Levels | Number

  function PerRow(kind: Kind, groups: seq<Group>, g: nat): (r: real)
    requires g < |groups|
    ensures r >= 4.0
  {
    match kind
    case Text(sizes) =>
      var rows := if groups[g].rows == 0 then 1 else groups[g].rows;
      9.0 + if g < |sizes| then sizes[g] as real / rows as real else 64.0
    case Levels => 4.0
    case Number => 9.0
  }

  ghost predicate Inside(cols: seq<nat>, n: nat)
  {
    forall i :: 0 <= i < |cols| ==> cols[i] < n
  }

  /** What one row of the columns takes in group `g`. */
  function RowBytes(kinds: seq<Kind>, cols: seq<nat>, groups: seq<Group>, g: nat): (r: real)
    requires g < |groups| && Inside(cols, |kinds|)
    ensures r >= 0.0
  {
    if cols == [] then 0.0
    else RowBytes(kinds, cols[..|cols| - 1], groups, g) + PerRow(kinds[cols[|cols| - 1]], groups, g)
  }

  /** What `rows` rows take. */
  function Bytes(perRow: real, rows: nat): real
  {
    perRow * rows as real
  }

  /** How many of the rows from `s` to `e` are in a group. */
  function Overlap(group: Group, s: nat, e: nat): nat
  {
    var lo := if s < group.firstRow then group.firstRow else s;
    var hi := if e < group.End() then e else group.End();
    if lo < hi then hi - lo else 0
  }

  /** What rows `s` to `e` of the columns take, in the first `n` groups. */
  function EstimateTo(kinds: seq<Kind>, cols: seq<nat>, groups: seq<Group>, s: nat, e: nat, n: nat): real
    requires n <= |groups| && Inside(cols, |kinds|)
  {
    if n == 0 then 0.0
    else EstimateTo(kinds, cols, groups, s, e, n - 1) + Bytes(RowBytes(kinds, cols, groups, n - 1), Overlap(groups[n - 1], s, e))
  }

  /** What a call takes, by the footer. */
  function Estimate(kinds: seq<Kind>, groups: seq<Group>, c: Call): real
    requires Inside(c.cols, |kinds|)
  {
    EstimateTo(kinds, c.cols, groups, c.start, c.start + c.count, |groups|)
  }

  /** The groups follow one another. */
  ghost predicate Contiguous(groups: seq<Group>)
  {
    forall g :: 0 < g < |groups| ==> groups[g].firstRow == groups[g - 1].End()
  }

  /** Column `k`'s calls, in order, read rows `from` to `to` without a gap. */
  ghost predicate Runs(calls: seq<Call>, k: nat, from: nat, to: nat)
    decreases |calls|
  {
    if calls == [] then from == to
    else if k in calls[0].cols then calls[0].start == from && Runs(calls[1..], k, from + calls[0].count, to)
    else Runs(calls[1..], k, from, to)
  }

  /** A call's columns are some of the first `n`, each once. */
  ghost predicate CallOk(c: Call, n: nat)
  {
    && c.cols != [] && Inside(c.cols, n)
    && forall i, j :: 0 <= i < j < |c.cols| ==> c.cols[i] != c.cols[j]
  }

  ghost predicate CallsOk(calls: seq<Call>, n: nat)
  {
    forall i :: 0 <= i < |calls| ==> CallOk(calls[i], n)
  }

  /** The calls tile the first `n` columns times rows `from` to `to`. */
  ghost predicate Tiles(calls: seq<Call>, n: nat, from: nat, to: nat)
  {
    CallsOk(calls, n) && forall k :: 0 <= k < n ==> Runs(calls, k, from, to)
  }

  lemma {:induction false} RunsPush(calls: seq<Call>, c: Call, k: nat, from: nat, to: nat)
    requires Runs(calls, k, from, to) && (k in c.cols ==> c.start == to)
    ensures Runs(calls + [c], k, from, if k in c.cols then to + c.count else to)
    decreases |calls|
  {
    if calls == [] {
      assert (calls + [c])[1..] == [];
    } else {
      assert (calls + [c])[1..] == calls[1..] + [c];
      RunsPush(calls[1..], c, k, if k in calls[0].cols then from + calls[0].count else from, to);
    }
  }

  lemma {:induction false} RunsGrow(calls: seq<Call>, k: nat, from: nat, to: nat)
    requires Runs(calls, k, from, to)
    ensures from <= to
    decreases |calls|
  {
    if calls != [] {
      RunsGrow(calls[1..], k, if k in calls[0].cols then from + calls[0].count else from, to);
    }
  }

  /** How many calls read column `k` of row `r`. */
  function Times(calls: seq<Call>, k: nat, r: nat): nat
    decreases |calls|
  {
    if calls == [] then 0
    else Times(calls[1..], k, r) + if k in calls[0].cols && calls[0].start <= r < calls[0].start + calls[0].count then 1 else 0
  }

  /** Each cell of what is tiled is read exactly once, and no other cell is. */
  lemma {:induction false} CoveredOnce(calls: seq<Call>, k: nat, from: nat, to: nat, r: nat)
    requires Runs(calls, k, from, to)
    ensures Times(calls, k, r) == if from <= r < to then 1 else 0
    decreases |calls|
  {
    if calls != [] {
      var next := if k in calls[0].cols then from + calls[0].count else from;
      CoveredOnce(calls[1..], k, next, to, r);
      RunsGrow(calls[1..], k, next, to);
    }
  }

  // ---------------------------------------------------------------- estimates

  lemma {:induction false} GroupsOrdered(groups: seq<Group>, g: nat, h: nat)
    requires Contiguous(groups) && g < h < |groups|
    ensures groups[g].End() <= groups[h].firstRow
    decreases h
  {
    if g < h - 1 {
      GroupsOrdered(groups, g, h - 1);
    }
  }

  /** Groups whose rows all come before do not count. */
  lemma {:induction false} EstimateNone(kinds: seq<Kind>, cols: seq<nat>, groups: seq<Group>, s: nat, e: nat, n: nat)
    requires n <= |groups| && Inside(cols, |kinds|)
    requires forall g :: 0 <= g < n ==> Overlap(groups[g], s, e) == 0
    ensures EstimateTo(kinds, cols, groups, s, e, n) == 0.0
  {
    hide RowBytes, Overlap, Bytes;
    if n > 0 {
      EstimateNone(kinds, cols, groups, s, e, n - 1);
      TimesZero(RowBytes(kinds, cols, groups, n - 1));
    }
  }

  /** Rows past the end of the groups counted change nothing. */
  lemma {:induction false} EstimateSame(kinds: seq<Kind>, cols: seq<nat>, groups: seq<Group>, s: nat, e: nat, f: nat, n: nat)
    requires n <= |groups| && Inside(cols, |kinds|)
    requires forall g :: 0 <= g < n ==> Overlap(groups[g], s, e) == Overlap(groups[g], s, f)
    ensures EstimateTo(kinds, cols, groups, s, e, n) == EstimateTo(kinds, cols, groups, s, f, n)
  {
    hide RowBytes, Overlap, Bytes;
    if n > 0 {
      EstimateSame(kinds, cols, groups, s, e, f, n - 1);
    }
  }

  /** Groups that begin at `e` or later do not count. */
  lemma {:induction false} EstimateRest(kinds: seq<Kind>, cols: seq<nat>, groups: seq<Group>, s: nat, e: nat, m: nat, n: nat)
    requires m <= n <= |groups| && Inside(cols, |kinds|)
    requires forall g :: m <= g < n ==> Overlap(groups[g], s, e) == 0
    ensures EstimateTo(kinds, cols, groups, s, e, n) == EstimateTo(kinds, cols, groups, s, e, m)
    decreases n
  {
    hide RowBytes, Overlap, Bytes;
    if m < n {
      EstimateRest(kinds, cols, groups, s, e, m, n - 1);
      TimesZero(RowBytes(kinds, cols, groups, n - 1));
    }
  }

  // ---------------------------------------------------------------- the plan

  /** What the footer says `rows` rows of a column, all of group `g`, take: 4 bytes a row for levels, 9 for any other kind, and text its size or 64 bytes a row. */
  function GroupTakes(kind: Kind, g: nat, rows: nat): nat
  {
    match kind
    case Text(sizes) => 9 * rows + if g < |sizes| then sizes[g] else 64 * rows
    case Levels => 4 * rows
    case Number => 9 * rows
  }

  function ColumnsTake(kinds: seq<Kind>, cols: seq<nat>, g: nat, rows: nat): nat
    requires Inside(cols, |kinds|)
  {
    if cols == [] then 0 else ColumnsTake(kinds, cols[..|cols| - 1], g, rows) + GroupTakes(kinds[cols[|cols| - 1]], g, rows)
  }

  /** A call's rows of a group take their share of what the whole group does. */
  function Share(kinds: seq<Kind>, cols: seq<nat>, group: Group, g: nat, n: nat): real
    requires Inside(cols, |kinds|)
  {
    if group.rows == 0 then 0.0 else (n * ColumnsTake(kinds, cols, g, group.rows)) as real / group.rows as real
  }

  /** What a call takes of the first `n` groups, by the footer's sizes. */
  function TakesTo(kinds: seq<Kind>, groups: seq<Group>, c: Call, n: nat): real
    requires n <= |groups| && Inside(c.cols, |kinds|)
  {
    if n == 0 then 0.0
    else TakesTo(kinds, groups, c, n - 1) + Share(kinds, c.cols, groups[n - 1], n - 1, Overlap(groups[n - 1], c.start, c.start + c.count))
  }

  function Takes(kinds: seq<Kind>, groups: seq<Group>, c: Call): real
    requires Inside(c.cols, |kinds|)
  {
    TakesTo(kinds, groups, c, |groups|)
  }

  /** A group's rows at the average of each column come to what the footer says the group takes. */
  lemma {:induction false} AverageTakes(kinds: seq<Kind>, cols: seq<nat>, groups: seq<Group>, g: nat)
    requires g < |groups| && Inside(cols, |kinds|) && groups[g].rows > 0
    ensures Bytes(RowBytes(kinds, cols, groups, g), groups[g].rows) == ColumnsTake(kinds, cols, g, groups[g].rows) as real
  {
    var rows := groups[g].rows;
    if cols == [] {
      TimesZero0(rows);
    } else {
      var front, kind := cols[..|cols| - 1], kinds[cols[|cols| - 1]];
      AverageTakes(kinds, front, groups, g);
      BytesSum(RowBytes(kinds, front, groups, g), PerRow(kind, groups, g), rows);
      AverageOne(kind, groups, g);
    }
  }

  lemma AverageOne(kind: Kind, groups: seq<Group>, g: nat)
    requires g < |groups| && groups[g].rows > 0
    ensures Bytes(PerRow(kind, groups, g), groups[g].rows) == GroupTakes(kind, g, groups[g].rows) as real
  {
    if kind.Text? && g < |kind.sizes| {
      BytesSum(9.0, kind.sizes[g] as real / groups[g].rows as real, groups[g].rows);
    }
  }

  /** So some of its rows come to their share. */
  lemma AverageShare(kinds: seq<Kind>, cols: seq<nat>, groups: seq<Group>, g: nat, n: nat)
    requires g < |groups| && Inside(cols, |kinds|) && n <= groups[g].rows
    ensures Bytes(RowBytes(kinds, cols, groups, g), n) == Share(kinds, cols, groups[g], g, n)
  {
    hide RowBytes, ColumnsTake;
    var rows, per := groups[g].rows, RowBytes(kinds, cols, groups, g);
    if rows == 0 {
      TimesZero(per);
    } else {
      AverageTakes(kinds, cols, groups, g);
      var all := ColumnsTake(kinds, cols, g, rows) as real;
      assert all == per * rows as real;
      assert n as real * all == (per * n as real) * rows as real;
    }
  }

  /** The plan's own estimate is what the footer says. */
  lemma {:induction false} EstimateTakes(kinds: seq<Kind>, groups: seq<Group>, c: Call, n: nat)
    requires n <= |groups| && Inside(c.cols, |kinds|)
    ensures EstimateTo(kinds, c.cols, groups, c.start, c.start + c.count, n) == TakesTo(kinds, groups, c, n)
  {
    hide RowBytes, Bytes, Share;
    if n > 0 {
      EstimateTakes(kinds, groups, c, n - 1);
      AverageShare(kinds, c.cols, groups, n - 1, Overlap(groups[n - 1], c.start, c.start + c.count));
    }
  }

  lemma TakesIs(kinds: seq<Kind>, groups: seq<Group>, c: Call)
    requires Inside(c.cols, |kinds|)
    ensures Takes(kinds, groups, c) == Estimate(kinds, groups, c)
  {
    EstimateTakes(kinds, groups, c, |groups|);
  }

  /** What groups `a` to `b` take, whole. */
  function GroupsTake(kinds: seq<Kind>, cols: seq<nat>, groups: seq<Group>, a: nat, b: nat): nat
    requires a <= b <= |groups| && Inside(cols, |kinds|)
  {
    if a == b then 0
    else GroupsTake(kinds, cols, groups, a, b - 1) + if groups[b - 1].rows == 0 then 0 else ColumnsTake(kinds, cols, b - 1, groups[b - 1].rows)
  }

  /** A call of whole groups takes the sum of what the footer says of them. */
  lemma WholeGroups(kinds: seq<Kind>, groups: seq<Group>, c: Call, a: nat, b: nat)
    requires Contiguous(groups) && a < b <= |groups| && Inside(c.cols, |kinds|)
    requires c.start == groups[a].firstRow && c.start + c.count == groups[b - 1].End()
    ensures Takes(kinds, groups, c) == GroupsTake(kinds, c.cols, groups, a, b) as real
  {
    hide TakesTo, GroupsTake;
    forall g | 0 <= g < |groups|
      ensures Overlap(groups[g], c.start, c.start + c.count) == if a <= g < b then groups[g].rows else 0
    {
      if g < a {
        GroupsOrdered(groups, g, a);
      } else if a < g {
        GroupsOrdered(groups, a, g);
      }
      if g < b - 1 {
        GroupsOrdered(groups, g, b - 1);
      } else if b - 1 < g {
        GroupsOrdered(groups, b - 1, g);
      }
    }
    WholeTo(kinds, groups, c, a, b, |groups|);
  }

  lemma {:induction false} WholeTo(kinds: seq<Kind>, groups: seq<Group>, c: Call, a: nat, b: nat, n: nat)
    requires a < b <= |groups| && n <= |groups| && Inside(c.cols, |kinds|)
    requires forall g :: 0 <= g < |groups| ==> Overlap(groups[g], c.start, c.start + c.count) == if a <= g < b then groups[g].rows else 0
    ensures TakesTo(kinds, groups, c, n) == if n <= a then 0.0 else GroupsTake(kinds, c.cols, groups, a, if n < b then n else b) as real
  {
    hide Overlap, ColumnsTake, Share;
    if n > 0 {
      WholeTo(kinds, groups, c, a, b, n - 1);
      ShareWhole(kinds, c.cols, groups[n - 1], n - 1);
    }
  }

  /** No rows of a group take nothing, and all its rows what it does. */
  lemma ShareWhole(kinds: seq<Kind>, cols: seq<nat>, group: Group, g: nat)
    requires Inside(cols, |kinds|)
    ensures Share(kinds, cols, group, g, 0) == 0.0
    ensures Share(kinds, cols, group, g, group.rows) == if group.rows == 0 then 0.0 else ColumnsTake(kinds, cols, g, group.rows) as real
  {
    hide ColumnsTake;
    if group.rows > 0 {
      var all := ColumnsTake(kinds, cols, g, group.rows);
      assert (group.rows * all) as real == all as real * group.rows as real;
    }
  }

  ghost predicate InBudget(kinds: seq<Kind>, groups: seq<Group>, c: Call, budget: real)
  {
    Inside(c.cols, |kinds|) && (Takes(kinds, groups, c) <= budget || (|c.cols| == 1 && c.count == 1))
  }

  lemma EstimateInBudget(kinds: seq<Kind>, groups: seq<Group>, c: Call, budget: real)
    requires Inside(c.cols, |kinds|) && (Estimate(kinds, groups, c) <= budget || (|c.cols| == 1 && c.count == 1))
    ensures InBudget(kinds, groups, c, budget)
  {
    EstimateTakes(kinds, groups, c, |groups|);
  }

  ghost predicate AllInBudget(kinds: seq<Kind>, groups: seq<Group>, calls: seq<Call>, budget: real)
  {
    forall i :: 0 <= i < |calls| ==> InBudget(kinds, groups, calls[i], budget)
  }

  /** The groups cover the window, and row `s` of it begins in group `g` or later. */
  ghost predicate At(groups: seq<Group>, s: nat, end: nat, g: nat)
  {
    && Contiguous(groups) && g <= |groups| && s <= end
    && (s < end ==> g < |groups| && groups[g].firstRow <= s <= groups[g].End())
    && (groups != [] ==> end <= groups[|groups| - 1].End() || s == end)
  }

  function Min(a: nat, b: nat): nat
  {
    if a < b then a else b
  }

  /** Fewer rows take no more. */
  lemma {:induction false} EstimateGrows(kinds: seq<Kind>, cols: seq<nat>, groups: seq<Group>, s: nat, e: nat, f: nat, n: nat)
    requires n <= |groups| && Inside(cols, |kinds|) && e <= f
    ensures EstimateTo(kinds, cols, groups, s, e, n) <= EstimateTo(kinds, cols, groups, s, f, n)
  {
    hide RowBytes;
    if n > 0 {
      EstimateGrows(kinds, cols, groups, s, e, f, n - 1);
      var g := groups[n - 1];
      BytesGrow(RowBytes(kinds, cols, groups, n - 1), Overlap(g, s, e), Overlap(g, s, f));
    }
  }

  lemma BytesGrow(per: real, m: nat, n: nat)
    requires per >= 0.0 && m <= n
    ensures Bytes(per, m) <= Bytes(per, n)
  {}

  /** As many whole groups after `g` as the budget takes. */
  method Merge(kinds: seq<Kind>, cols: seq<nat>, groups: seq<Group>, s: nat, end: nat, g: nat, budget: real) returns (spanEnd: nat, next: nat)
    requires Inside(cols, |kinds|) && At(groups, s, end, g) && s < end
    requires Bytes(RowBytes(kinds, cols, groups, g), Min(end, groups[g].End()) - s) <= budget
    ensures g < next <= |groups| && At(groups, spanEnd, end, next) && Min(end, groups[g].End()) <= spanEnd == Min(end, groups[next - 1].End())
    ensures Estimate(kinds, groups, Call(cols, s, spanEnd - s)) <= budget
    ensures spanEnd < end && next < |groups| ==> Estimate(kinds, groups, Call(cols, s, Min(end, groups[next].End()) - s)) > budget
  {
    hide RowBytes, Estimate, EstimateTo, Bytes;
    spanEnd := Min(end, groups[g].End());
    var bytes := Bytes(RowBytes(kinds, cols, groups, g), spanEnd - s);
    next := g + 1;
    FirstSpan(kinds, cols, groups, s, spanEnd, g);
    while spanEnd < end && next < |groups|
      invariant g < next <= |groups| && s <= Min(end, groups[g].End()) <= spanEnd == Min(end, groups[next - 1].End())
      invariant bytes == EstimateTo(kinds, cols, groups, s, spanEnd, next) <= budget
    {
      var e := Min(end, groups[next].End());
      var add := Bytes(RowBytes(kinds, cols, groups, next), e - spanEnd);
      NextSpan(kinds, cols, groups, s, spanEnd, e, next);
      if bytes + add > budget {
        LastSpan(kinds, cols, groups, s, e, next + 1);
        break;
      }
      bytes := bytes + add;
      spanEnd := e;
      next := next + 1;
    }
    LastSpan(kinds, cols, groups, s, spanEnd, next);
  }

  lemma FirstSpan(kinds: seq<Kind>, cols: seq<nat>, groups: seq<Group>, s: nat, e: nat, g: nat)
    requires Inside(cols, |kinds|) && Contiguous(groups) && g < |groups| && groups[g].firstRow <= s <= e <= groups[g].End()
    ensures EstimateTo(kinds, cols, groups, s, e, g + 1) == Bytes(RowBytes(kinds, cols, groups, g), e - s)
  {
    hide RowBytes, Bytes;
    forall h | 0 <= h < g
      ensures Overlap(groups[h], s, e) == 0
    {
      GroupsOrdered(groups, h, g);
    }
    EstimateNone(kinds, cols, groups, s, e, g);
    assert Overlap(groups[g], s, e) == e - s;
    hide Overlap;
  }

  lemma NextSpan(kinds: seq<Kind>, cols: seq<nat>, groups: seq<Group>, s: nat, e: nat, f: nat, n: nat)
    requires Inside(cols, |kinds|) && Contiguous(groups) && 0 < n < |groups|
    requires s <= e == groups[n - 1].End() <= f <= groups[n].End()
    ensures EstimateTo(kinds, cols, groups, s, f, n + 1)
            == EstimateTo(kinds, cols, groups, s, e, n) + Bytes(RowBytes(kinds, cols, groups, n), f - e)
  {
    hide RowBytes, Bytes;
    forall h | 0 <= h < n
      ensures Overlap(groups[h], s, e) == Overlap(groups[h], s, f)
    {
      if h < n - 1 {
        GroupsOrdered(groups, h, n - 1);
      }
    }
    EstimateSame(kinds, cols, groups, s, e, f, n);
    assert Overlap(groups[n], s, f) == f - e;
  }

  lemma LastSpan(kinds: seq<Kind>, cols: seq<nat>, groups: seq<Group>, s: nat, e: nat, n: nat)
    requires Inside(cols, |kinds|) && Contiguous(groups) && 0 < n <= |groups| && s <= e <= groups[n - 1].End()
    ensures Estimate(kinds, groups, Call(cols, s, e - s)) == EstimateTo(kinds, cols, groups, s, e, n)
  {
    hide RowBytes, Bytes;
    forall h | n <= h < |groups|
      ensures Overlap(groups[h], s, e) == 0
    {
      GroupsOrdered(groups, n - 1, h);
    }
    EstimateRest(kinds, cols, groups, s, e, n, |groups|);
  }

  /** Rows within one group take what that group's rows take. */
  lemma EstimateWithin(kinds: seq<Kind>, groups: seq<Group>, c: Call, g: nat)
    requires Contiguous(groups) && g < |groups| && Inside(c.cols, |kinds|)
    requires groups[g].firstRow <= c.start && c.start + c.count <= groups[g].End()
    ensures Estimate(kinds, groups, c) == Bytes(RowBytes(kinds, c.cols, groups, g), c.count)
  {
    hide RowBytes, EstimateTo, Bytes;
    FirstSpan(kinds, c.cols, groups, c.start, c.start + c.count, g);
    LastSpan(kinds, c.cols, groups, c.start, c.start + c.count, g + 1);
  }

  /** The rows a strip may have so that it is within the budget, or one. */
  lemma StepFits(per: real, budget: real, step: int, n: nat)
    requires per > 0.0 && budget > 0.0 && step == (if (budget / per).Floor < 1 then 1 else (budget / per).Floor)
    requires 1 <= n <= step
    ensures Bytes(per, n) <= budget || n == 1
  {
    if n > 1 {
      var q := budget / per;
      assert n as real <= q;
      assert per * n as real <= per * q;
      assert per * q == budget;
    }
  }

  lemma StepMost(per: real, budget: real, step: int)
    requires per > 0.0 && budget > 0.0 && step == (if (budget / per).Floor < 1 then 1 else (budget / per).Floor)
    ensures Bytes(per, step + 1) > budget
  {
    var q := budget / per;
    assert (step + 1) as real > q;
    assert per * (step + 1) as real > per * q;
    assert per * q == budget;
  }

  /** Column `j`'s calls read from `s` to `at[j]`, for every column. */
  ghost predicate Reached(calls: seq<Call>, s: nat, at: seq<nat>)
  {
    forall j :: 0 <= j < |at| ==> Runs(calls, j, s, at[j])
  }

  ghost function Moved(at: seq<nat>, cols: seq<nat>, to: nat): (r: seq<nat>)
    ensures |r| == |at|
  {
    seq(|at|, j requires 0 <= j < |at| => if j in cols then to else at[j])
  }

  /** A call pushed moves its own columns on, and no others. */
  lemma PushAll(out: seq<Call>, c: Call, s: nat, at: seq<nat>)
    requires Reached(out, s, at)
    requires forall j :: 0 <= j < |at| && j in c.cols ==> c.start == at[j]
    ensures Reached(out + [c], s, Moved(at, c.cols, c.start + c.count))
  {
    var next := Moved(at, c.cols, c.start + c.count);
    forall j | 0 <= j < |next|
      ensures Runs(out + [c], j, s, next[j])
    {
      RunsPush(out, c, j, s, at[j]);
    }
  }

  /** A column too large for one call, in strips of rows. */
  method Strips(kinds: seq<Kind>, groups: seq<Group>, k: nat, s: nat, e: nat, g: nat, budget: real, done: seq<Call>, ghost from: nat,
      ghost at: seq<nat>)
    returns (out: seq<Call>)
    requires k < |kinds| == |at| && Contiguous(groups) && g < |groups| && budget > 0.0
    requires groups[g].firstRow <= s < e <= groups[g].End()
    requires CallsOk(done, |kinds|) && AllInBudget(kinds, groups, done, budget) && Reached(done, from, at) && at[k] == s
    ensures CallsOk(out, |kinds|) && AllInBudget(kinds, groups, out, budget) && Reached(out, from, at[k := e])
    ensures done <= out && forall i :: |done| <= i < |out| ==> out[i].cols == [k] && out[i].count > 0
    ensures forall i :: |done| <= i < |out| - 1 ==> Bytes(PerRow(kinds[k], groups, g), out[i].count + 1) > budget
  {
    hide PerRow, RowBytes, Estimate, Runs, Bytes, InBudget;
    var per := PerRow(kinds[k], groups, g);
    var fits := (budget / per).Floor;
    var step := if fits < 1 then 1 else fits;
    var r := s;
    out := done;
    assert at[k := s] == at;
    StepMost(per, budget, step);
    while r < e
      invariant s <= r <= e && CallsOk(out, |kinds|) && AllInBudget(kinds, groups, out, budget)
      invariant Reached(out, from, at[k := r])
      invariant done <= out && forall i :: |done| <= i < |out| ==> out[i].cols == [k] && out[i].count > 0 && (out[i].count == step || (i == |out| - 1 && r == e))
    {
      var c := Call([k], r, if step < e - r then step else e - r);
      StepFits(per, budget, step, c.count);
      EstimateWithin(kinds, groups, c, g);
      OneColumn(kinds, k, groups, g);
      EstimateInBudget(kinds, groups, c, budget);
      PushAll(out, c, from, at[k := r]);
      assert Moved(at[k := r], [k], r + c.count) == at[k := r + c.count];
      out := out + [c];
      r := r + c.count;
    }
  }

  lemma OneColumn(kinds: seq<Kind>, k: nat, groups: seq<Group>, g: nat)
    requires k < |kinds| && g < |groups|
    ensures RowBytes(kinds, [k], groups, g) == PerRow(kinds[k], groups, g)
  {
    assert [k][..0] == [];
    assert RowBytes(kinds, [k][..0], groups, g) == 0.0;
  }

  /** Columns `group` still wait at `s`; the others below `k` have been read to `e`. */
  ghost function Waiting(n: nat, group: seq<nat>, k: nat, s: nat, e: nat): (at: seq<nat>)
    ensures |at| == n
  {
    seq(n, j => if j < k && j !in group then e else s)
  }

  /** Columns that wait, all below `k` and each once. */
  ghost predicate Grouped(group: seq<nat>, k: nat)
  {
    && (forall i :: 0 <= i < |group| ==> group[i] < k)
    && forall i, j :: 0 <= i < j < |group| ==> group[i] != group[j]
  }

  /** Each call is of some columns for all `n` rows, or of one column that is too large for that. */
  ghost predicate Needed(kinds: seq<Kind>, groups: seq<Group>, g: nat, calls: seq<Call>, whole: seq<seq<nat>>, n: nat, budget: real)
    requires g < |groups|
  {
    forall i :: 0 <= i < |calls| ==>
      || (calls[i].cols in whole && calls[i].count == n)
      || (|calls[i].cols| == 1 && calls[i].cols[0] < |kinds| && Bytes(PerRow(kinds[calls[i].cols[0]], groups, g), n) > budget)
  }

  /** What each call takes, and that the first column of each did not fit in the call before. */
  ghost predicate Full(kinds: seq<Kind>, groups: seq<Group>, g: nat, whole: seq<seq<nat>>, n: nat, budget: real)
    requires g < |groups|
  {
    && (forall i :: 0 <= i < |whole| ==>
         whole[i] != [] && Inside(whole[i], |kinds|) && Bytes(RowBytes(kinds, whole[i], groups, g), n) <= budget)
    && forall i :: 0 < i < |whole| ==> Bytes(RowBytes(kinds, whole[i - 1] + [whole[i][0]], groups, g), n) > budget
  }

  lemma NoneNeeded(kinds: seq<Kind>, groups: seq<Group>, g: nat, n: nat, budget: real)
    requires g < |groups|
    ensures Needed(kinds, groups, g, [], [], n, budget) && Full(kinds, groups, g, [], n, budget)
  {}

  lemma StripsNeeded(kinds: seq<Kind>, groups: seq<Group>, g: nat, was: seq<Call>, now: seq<Call>, whole: seq<seq<nat>>, k: nat, n: nat, budget: real)
    requires g < |groups| && Needed(kinds, groups, g, was, whole, n, budget) && k < |kinds| && Bytes(PerRow(kinds[k], groups, g), n) > budget
    requires was <= now && forall i :: |was| <= i < |now| ==> now[i].cols == [k]
    ensures Needed(kinds, groups, g, now, whole, n, budget)
  {
    hide PerRow, Bytes;
  }

  lemma CallNeeded(kinds: seq<Kind>, groups: seq<Group>, g: nat, calls: seq<Call>, whole: seq<seq<nat>>, group: seq<nat>, s: nat, n: nat,
      budget: real)
    requires g < |groups| && Needed(kinds, groups, g, calls, whole, n, budget)
    ensures Needed(kinds, groups, g, calls + [Call(group, s, n)], whole + [group], n, budget)
  {
    hide PerRow, Bytes;
    forall i | 0 <= i < |calls|
      ensures calls[i].cols in whole ==> calls[i].cols in whole + [group]
    {}
    assert (whole + [group])[|whole|] == group;
  }

  /** A column joins the last call, or begins one when it did not fit in the last. */
  lemma FullMore(kinds: seq<Kind>, groups: seq<Group>, g: nat, whole: seq<seq<nat>>, group: seq<nat>, k: nat, n: nat, budget: real)
    requires g < |groups| && k < |kinds| && Full(kinds, groups, g, if group == [] then whole else whole + [group], n, budget)
    requires group == [] && whole != [] ==> Bytes(RowBytes(kinds, whole[|whole| - 1] + [k], groups, g), n) > budget
    requires Inside(group + [k], |kinds|) && Bytes(RowBytes(kinds, group + [k], groups, g), n) <= budget
    ensures Full(kinds, groups, g, whole + [group + [k]], n, budget)
  {
    hide RowBytes, Bytes;
    var was, now := if group == [] then whole else whole + [group], whole + [group + [k]];
    forall i | 0 <= i < |now|
      ensures now[i] != [] && Inside(now[i], |kinds|) && Bytes(RowBytes(kinds, now[i], groups, g), n) <= budget
      ensures i > 0 ==> Bytes(RowBytes(kinds, now[i - 1] + [now[i][0]], groups, g), n) > budget
    {
      if i < |whole| {
        assert now[i] == was[i] && (i > 0 ==> now[i - 1] == was[i - 1]);
      } else {
        assert now[i] == group + [k];
        if group != [] {
          assert now[i][0] == was[i][0] && (i > 0 ==> now[i - 1] == was[i - 1]);
        }
      }
    }
  }

  /** When the group is too large for a call of all columns, no call is of all of them. */
  lemma NeverAll(kinds: seq<Kind>, groups: seq<Group>, g: nat, calls: seq<Call>, whole: seq<seq<nat>>, all: seq<nat>, n: nat, budget: real)
    requires g < |groups| && Needed(kinds, groups, g, calls, whole, n, budget) && Full(kinds, groups, g, whole, n, budget)
    requires |all| > 1 && Inside(all, |kinds|) && Bytes(RowBytes(kinds, all, groups, g), n) > budget
    ensures forall i :: 0 <= i < |calls| ==> calls[i].cols != all
  {
    hide RowBytes, Bytes, PerRow;
  }

  ghost predicate NoneEmpty(calls: seq<Call>)
  {
    forall i :: 0 <= i < |calls| ==> calls[i].count > 0
  }

  /** A call of all columns cannot take the rows of the group after it as well. */
  ghost predicate Widest(kinds: seq<Kind>, groups: seq<Group>, calls: seq<Call>, all: seq<nat>, end: nat, budget: real)
    requires Inside(all, |kinds|)
  {
    forall i, g :: 0 <= i < |calls| && 0 <= g < |groups| && calls[i].cols == all && groups[g].rows > 0
      && groups[g].firstRow == calls[i].start + calls[i].count < end
      ==> Takes(kinds, groups, Call(all, calls[i].start, Min(end, groups[g].End()) - calls[i].start)) > budget
  }

  lemma WidestMore(kinds: seq<Kind>, groups: seq<Group>, calls: seq<Call>, all: seq<nat>, s: nat, e: nat, next: nat, end: nat, budget: real)
    requires Inside(all, |kinds|) && Widest(kinds, groups, calls, all, end, budget) && s <= e && 0 < next <= |groups|
    requires Contiguous(groups) && e == Min(end, groups[next - 1].End())
    requires e < end && next < |groups| ==> Estimate(kinds, groups, Call(all, s, Min(end, groups[next].End()) - s)) > budget
    requires Estimate(kinds, groups, Call(all, s, e - s)) <= budget
    ensures Widest(kinds, groups, calls + [Call(all, s, e - s)], all, end, budget)
  {
    hide Estimate, Takes;
    forall g | 0 <= g < |groups| && groups[g].rows > 0 && groups[g].firstRow == e < end
      ensures Takes(kinds, groups, Call(all, s, Min(end, groups[g].End()) - s)) > budget
    {
      NextGroup(groups, e, next, end, g);
      TakesIs(kinds, groups, Call(all, s, Min(end, groups[g].End()) - s));
    }
  }

  /** The group with rows that begins where the groups before `next` end comes after nothing but empty ones. */
  lemma NextGroup(groups: seq<Group>, e: nat, next: nat, end: nat, g: nat)
    requires Contiguous(groups) && 0 < next <= |groups| && g < |groups| && groups[g].rows > 0
    requires groups[g].firstRow == e == groups[next - 1].End() < end
    ensures next <= g && (g != next ==> groups[next].End() == e)
  {
    if g < next - 1 {
      GroupsOrdered(groups, g, next - 1);
    } else if next < g {
      GroupsOrdered(groups, next, g);
    }
  }

  lemma WidestJoin(kinds: seq<Kind>, groups: seq<Group>, a: seq<Call>, b: seq<Call>, all: seq<nat>, end: nat, budget: real)
    requires Inside(all, |kinds|) && Widest(kinds, groups, a, all, end, budget) && forall i :: 0 <= i < |b| ==> b[i].cols != all
    ensures Widest(kinds, groups, a + b, all, end, budget)
  {
    hide Takes;
  }

  /** One row group, too large for one call: fewer columns at a time. */
  method SplitColumns(kinds: seq<Kind>, groups: seq<Group>, s: nat, e: nat, g: nat, budget: real) returns (out: seq<Call>, ghost whole: seq<seq<nat>>)
    requires Contiguous(groups) && g < |groups| && budget > 0.0 && groups[g].firstRow <= s < e <= groups[g].End()
    ensures CallsOk(out, |kinds|) && AllInBudget(kinds, groups, out, budget) && Reached(out, s, Waiting(|kinds|, [], |kinds|, s, e))
    ensures Needed(kinds, groups, g, out, whole, e - s, budget) && Full(kinds, groups, g, whole, e - s, budget) && NoneEmpty(out)
  {
    hide PerRow, RowBytes, Estimate, Runs, Reached, CallsOk, AllInBudget, Waiting, Bytes, InBudget, Needed, Full;
    var group: seq<nat>, held, k := [], 0.0, 0;
    out, whole := [], [];
    NoneRead(|kinds|, s, e);
    NoCalls(kinds, groups, budget, s, Waiting(|kinds|, [], 0, s, e));
    NoneNeeded(kinds, groups, g, e - s, budget);
    NoColumns(kinds, groups, g);
    TimesZero0(e - s);
    while k < |kinds|
      invariant k <= |kinds| && Grouped(group, k) && CallsOk(out, |kinds|) && AllInBudget(kinds, groups, out, budget)
      invariant Reached(out, s, Waiting(|kinds|, group, k, s, e))
      invariant held == Bytes(RowBytes(kinds, group, groups, g), e - s) <= budget
      invariant Needed(kinds, groups, g, out, whole, e - s, budget) && NoneEmpty(out)
      invariant Full(kinds, groups, g, if group == [] then whole else whole + [group], e - s, budget) && (group == [] ==> whole == [])
    {
      var b := Bytes(PerRow(kinds[k], groups, g), e - s);
      if b > budget {
        PastOne(|kinds|, group, k, s, e);
        ghost var was := out;
        out := Strips(kinds, groups, k, s, e, g, budget, out, s, Waiting(|kinds|, group, k, s, e));
        StripsNeeded(kinds, groups, g, was, out, whole, k, e - s, budget);
      } else {
        if held + b > budget {
          CallNeeded(kinds, groups, g, out, whole, group, s, e - s, budget);
          out := Flush(kinds, groups, group, k, s, e, g, budget, out);
          AddColumn(kinds, group, k, groups, g, e - s);
          whole := whole + [group];
          group, held := [], 0.0;
          NoColumns(kinds, groups, g);
          TimesZero0(e - s);
        }
        AddColumn(kinds, group, k, groups, g, e - s);
        WaitsToo(|kinds|, group, k, s, e);
        FullMore(kinds, groups, g, whole, group, k, e - s, budget);
        group, held := group + [k], held + b;
      }
      k := k + 1;
    }
    if group != [] {
      CallNeeded(kinds, groups, g, out, whole, group, s, e - s, budget);
      out := Flush(kinds, groups, group, k, s, e, g, budget, out);
      whole := whole + [group];
    }
  }

  /** The columns that wait, as one call. */
  method Flush(kinds: seq<Kind>, groups: seq<Group>, group: seq<nat>, k: nat, s: nat, e: nat, g: nat, budget: real,
      done: seq<Call>) returns (out: seq<Call>)
    requires Contiguous(groups) && g < |groups| && groups[g].firstRow <= s < e <= groups[g].End()
    requires group != [] && k <= |kinds| && Grouped(group, k) && Bytes(RowBytes(kinds, group, groups, g), e - s) <= budget
    requires CallsOk(done, |kinds|) && AllInBudget(kinds, groups, done, budget) && Reached(done, s, Waiting(|kinds|, group, k, s, e))
    ensures CallsOk(out, |kinds|) && AllInBudget(kinds, groups, out, budget) && Reached(out, s, Waiting(|kinds|, [], k, s, e))
    ensures out == done + [Call(group, s, e - s)]
  {
    hide RowBytes, Estimate, Runs, Bytes, InBudget;
    var c := Call(group, s, e - s);
    EstimateWithin(kinds, groups, c, g);
    EstimateInBudget(kinds, groups, c, budget);
    PushAll(done, c, s, Waiting(|kinds|, group, k, s, e));
    assert Moved(Waiting(|kinds|, group, k, s, e), group, e) == Waiting(|kinds|, [], k, s, e);
    out := done + [c];
  }

  lemma NoneRead(n: nat, s: nat, e: nat)
    ensures forall j :: 0 <= j < n ==> Waiting(n, [], 0, s, e)[j] == s
  {}

  lemma PastOne(n: nat, group: seq<nat>, k: nat, s: nat, e: nat)
    requires k < n && Grouped(group, k)
    ensures Waiting(n, group, k, s, e)[k] == s && Waiting(n, group, k, s, e)[k := e] == Waiting(n, group, k + 1, s, e)
  {}

  lemma WaitsToo(n: nat, group: seq<nat>, k: nat, s: nat, e: nat)
    requires k < n
    ensures Waiting(n, group + [k], k + 1, s, e) == Waiting(n, group, k, s, e)
  {}

  lemma NoCalls(kinds: seq<Kind>, groups: seq<Group>, budget: real, s: nat, at: seq<nat>)
    requires forall j :: 0 <= j < |at| ==> at[j] == s
    ensures CallsOk([], |kinds|) && AllInBudget(kinds, groups, [], budget) && Reached([], s, at)
  {}

  lemma NoColumns(kinds: seq<Kind>, groups: seq<Group>, g: nat)
    requires g < |groups|
    ensures RowBytes(kinds, [], groups, g) == 0.0
  {}

  lemma AddColumn(kinds: seq<Kind>, group: seq<nat>, k: nat, groups: seq<Group>, g: nat, n: nat)
    requires k < |kinds| && Grouped(group, k) && g < |groups|
    ensures Bytes(RowBytes(kinds, group + [k], groups, g), n) == Bytes(RowBytes(kinds, group, groups, g), n) + Bytes(PerRow(kinds[k], groups, g), n)
    ensures Grouped(group + [k], k + 1)
  {
    assert (group + [k])[..|group|] == group;
    BytesSum(RowBytes(kinds, group, groups, g), PerRow(kinds[k], groups, g), n);
    hide Bytes, PerRow;
  }

  lemma BytesSum(x: real, y: real, n: nat)
    ensures Bytes(x + y, n) == Bytes(x, n) + Bytes(y, n)
  {}

  /** The first group with rows after `start`. */
  method Skip(groups: seq<Group>, start: nat, end: nat) returns (g: nat)
    requires Contiguous(groups) && start <= end
    requires start < end ==> groups != [] && groups[0].firstRow <= start && end <= groups[|groups| - 1].End()
    ensures At(groups, start, end, g) && (start < end ==> start < groups[g].End())
  {
    g := 0;
    while g < |groups| && groups[g].End() <= start
      invariant g <= |groups| && (g > 0 ==> groups[g - 1].End() <= start)
    {
      g := g + 1;
    }
  }

  /**
   The calls a read makes: they tile its columns and rows, and each takes no
   more than the budget by the footer's sizes, unless it is a single cell. All
   is one call when it fits, calls of all columns are as long as fits, and no
   call is empty unless a group is.
   */
  method Plan(kinds: seq<Kind>, groups: seq<Group>, start: nat, count: nat, budget: real) returns (out: seq<Call>)
    requires kinds != [] && budget > 0.0 && Contiguous(groups)
    requires count > 0 ==> groups != [] && groups[0].firstRow <= start && start + count <= groups[|groups| - 1].End()
    ensures Tiles(out, |kinds|, start, start + count) && AllInBudget(kinds, groups, out, budget)
    ensures count > 0 && Takes(kinds, groups, Everything(kinds, start, count)) <= budget ==> out == [Everything(kinds, start, count)]
    ensures |kinds| > 1 ==> Widest(kinds, groups, out, Everything(kinds, start, count).cols, start + count, budget)
    ensures (forall g :: 0 <= g < |groups| ==> groups[g].rows > 0) ==> NoneEmpty(out)
  {
    hide *;
    var all := seq(|kinds|, j => j);
    var end := start + count;
    var g := Skip(groups, start, end);
    var s: nat := start;
    out := [];
    PlanBegun(kinds, groups, start, count, budget, g);
    while s < end && g < |groups|
      invariant Planned(kinds, groups, start, count, budget, out, s, g)
      decreases |groups| - g
    {
      PlannedAt(kinds, groups, start, count, budget, out, s, g);
      var spanEnd := Min(end, groups[g].End());
      if Bytes(RowBytes(kinds, all, groups, g), spanEnd - s) <= budget {
        var next;
        spanEnd, next := Merge(kinds, all, groups, s, end, g, budget);
        PlannedWhole(kinds, groups, start, count, budget, out, s, g, spanEnd, next);
        out := out + [Call(all, s, spanEnd - s)];
        g := next;
      } else {
        ghost var whole;
        var more;
        more, whole := SplitColumns(kinds, groups, s, spanEnd, g, budget);
        PlannedSplit(kinds, groups, start, count, budget, out, s, g, more, whole);
        out := out + more;
        g := g + 1;
      }
      s := spanEnd;
    }
    PlanEnded(kinds, groups, start, count, budget, out, s, g);
  }

  /** The plan so far: calls for the rows from `start` to `s`, where group `g` begins or goes on. */
  ghost predicate Planned(kinds: seq<Kind>, groups: seq<Group>, start: nat, count: nat, budget: real, out: seq<Call>, s: nat, g: nat)
  {
    var one, end := Everything(kinds, start, count), start + count;
    && start <= s <= end && At(groups, s, end, g)
    && CallsOk(out, |kinds|) && AllInBudget(kinds, groups, out, budget) && Reached(out, start, Level(|kinds|, s))
    && (|kinds| > 1 ==> Widest(kinds, groups, out, one.cols, end, budget))
    && ((forall h :: 0 <= h < |groups| ==> groups[h].rows > 0) ==> NoneEmpty(out) && (s < end ==> s < groups[g].End()))
    && (Takes(kinds, groups, one) <= budget ==> if s < end then s == start && out == [] else out == [one] || count == 0)
  }

  lemma PlanBegun(kinds: seq<Kind>, groups: seq<Group>, start: nat, count: nat, budget: real, g: nat)
    requires At(groups, start, start + count, g) && (count > 0 ==> start < groups[g].End())
    ensures Planned(kinds, groups, start, count, budget, [], start, g)
  {
    hide Runs, Takes;
    NoCalls(kinds, groups, budget, start, Level(|kinds|, start));
  }

  /** Row `s` is in group `g`, and its rows are one call, when everything is. */
  lemma PlannedAt(kinds: seq<Kind>, groups: seq<Group>, start: nat, count: nat, budget: real, out: seq<Call>, s: nat, g: nat)
    requires Planned(kinds, groups, start, count, budget, out, s, g) && s < start + count && budget > 0.0
    ensures At(groups, s, start + count, g) && Contiguous(groups) && g < |groups| && groups[g].firstRow <= s <= groups[g].End()
    ensures var all := Everything(kinds, start, count).cols; var e := Min(start + count, groups[g].End());
            && all == seq(|kinds|, j => j) && Inside(all, |kinds|) && s <= e <= groups[g].End()
            && (Takes(kinds, groups, Everything(kinds, start, count)) <= budget || s == e ==> Bytes(RowBytes(kinds, all, groups, g), e - s) <= budget)
  {
    hide Takes, RowBytes, Bytes, CallsOk, AllInBudget, Reached, Widest, NoneEmpty;
    var all := Everything(kinds, start, count).cols;
    TimesZero(RowBytes(kinds, all, groups, g));
    if Takes(kinds, groups, Everything(kinds, start, count)) <= budget {
      FirstFits(kinds, groups, start, count, g, budget);
    }
  }

  lemma PlannedWhole(kinds: seq<Kind>, groups: seq<Group>, start: nat, count: nat, budget: real, out: seq<Call>, s: nat, g: nat, e: nat, next: nat)
    requires Planned(kinds, groups, start, count, budget, out, s, g) && s < start + count && kinds != []
    requires g < next <= |groups| && At(groups, e, start + count, next)
    requires Min(start + count, groups[g].End()) <= e == Min(start + count, groups[next - 1].End())
    requires Estimate(kinds, groups, Call(Everything(kinds, start, count).cols, s, e - s)) <= budget
    requires e < start + count && next < |groups| ==>
               Estimate(kinds, groups, Call(Everything(kinds, start, count).cols, s, Min(start + count, groups[next].End()) - s)) > budget
    ensures Planned(kinds, groups, start, count, budget, out + [Call(Everything(kinds, start, count).cols, s, e - s)], e, next)
  {
    hide Takes, Estimate, CallsOk, AllInBudget, Reached, Widest;
    var one, end := Everything(kinds, start, count), start + count;
    WholeSpan(kinds, groups, one.cols, s, e, budget, out, start);
    if |kinds| > 1 {
      WidestMore(kinds, groups, out, one.cols, s, e, next, end, budget);
    }
    if Takes(kinds, groups, one) <= budget && e < end {
      PartFits(kinds, groups, start, count, Min(end, groups[next].End()) - s, budget);
      assert false;
    }
  }

  lemma PlannedSplit(kinds: seq<Kind>, groups: seq<Group>, start: nat, count: nat, budget: real, out: seq<Call>, s: nat, g: nat, more: seq<Call>,
      whole: seq<seq<nat>>)
    requires Planned(kinds, groups, start, count, budget, out, s, g) && s < start + count && g < |groups| && kinds != [] && budget > 0.0
    requires var e := Min(start + count, groups[g].End());
             && s < e && Bytes(RowBytes(kinds, Everything(kinds, start, count).cols, groups, g), e - s) > budget
             && CallsOk(more, |kinds|) && AllInBudget(kinds, groups, more, budget) && Reached(more, s, Waiting(|kinds|, [], |kinds|, s, e))
             && Needed(kinds, groups, g, more, whole, e - s, budget) && Full(kinds, groups, g, whole, e - s, budget) && NoneEmpty(more)
    ensures Planned(kinds, groups, start, count, budget, out + more, Min(start + count, groups[g].End()), g + 1)
  {
    hide Takes, RowBytes, Bytes, CallsOk, AllInBudget, Reached, Widest, Needed, Full;
    var one, e := Everything(kinds, start, count), Min(start + count, groups[g].End());
    PlannedAt(kinds, groups, start, count, budget, out, s, g);
    if |kinds| > 1 {
      NeverAll(kinds, groups, g, more, whole, one.cols, e - s, budget);
      WidestJoin(kinds, groups, out, more, one.cols, start + count, budget);
    }
    Joined(kinds, groups, budget, out, more, start, s, e);
  }

  lemma PlanEnded(kinds: seq<Kind>, groups: seq<Group>, start: nat, count: nat, budget: real, out: seq<Call>, s: nat, g: nat)
    requires Planned(kinds, groups, start, count, budget, out, s, g) && !(s < start + count && g < |groups|)
    ensures Tiles(out, |kinds|, start, start + count) && AllInBudget(kinds, groups, out, budget)
    ensures count > 0 && Takes(kinds, groups, Everything(kinds, start, count)) <= budget ==> out == [Everything(kinds, start, count)]
    ensures |kinds| > 1 ==> Widest(kinds, groups, out, Everything(kinds, start, count).cols, start + count, budget)
    ensures (forall h :: 0 <= h < |groups| ==> groups[h].rows > 0) ==> NoneEmpty(out)
  {
    hide Takes, CallsOk, AllInBudget, Reached, Widest, NoneEmpty, Tiles;
    TilesFrom(out, |kinds|, start, start + count);
  }

  /** The whole read as one call. */
  function Everything(kinds: seq<Kind>, start: nat, count: nat): Call
  {
    Call(seq(|kinds|, j => j), start, count)
  }

  lemma PartFits(kinds: seq<Kind>, groups: seq<Group>, start: nat, count: nat, n: nat, budget: real)
    requires Takes(kinds, groups, Everything(kinds, start, count)) <= budget && n <= count
    ensures Estimate(kinds, groups, Everything(kinds, start, n)) <= budget
  {
    EstimateTakes(kinds, groups, Everything(kinds, start, count), |groups|);
    EstimateGrows(kinds, Everything(kinds, start, n).cols, groups, start, start + n, start + count, |groups|);
  }

  lemma FirstFits(kinds: seq<Kind>, groups: seq<Group>, start: nat, count: nat, g: nat, budget: real)
    requires Takes(kinds, groups, Everything(kinds, start, count)) <= budget && Contiguous(groups) && g < |groups|
    requires groups[g].firstRow <= start <= groups[g].End()
    ensures Bytes(RowBytes(kinds, Everything(kinds, start, count).cols, groups, g), Min(start + count, groups[g].End()) - start) <= budget
  {
    hide Takes, Estimate, RowBytes, Bytes;
    var n := Min(start + count, groups[g].End()) - start;
    PartFits(kinds, groups, start, count, n, budget);
    EstimateWithin(kinds, groups, Everything(kinds, start, n), g);
  }

  lemma TimesZero0(n: nat)
    ensures Bytes(0.0, n) == 0.0
  {}

  lemma TimesZero(x: real)
    ensures Bytes(x, 0) == 0.0
  {}

  /** Every column at the same row. */
  function Level(n: nat, s: nat): (at: seq<nat>)
    ensures |at| == n
  {
    seq(n, _ => s)
  }

  lemma WholeSpan(kinds: seq<Kind>, groups: seq<Group>, all: seq<nat>, s: nat, e: nat, budget: real, out: seq<Call>, start: nat)
    requires kinds != [] && all == seq(|kinds|, j => j) && s <= e
    requires CallsOk(out, |kinds|) && AllInBudget(kinds, groups, out, budget) && Reached(out, start, Level(|kinds|, s))
    requires Estimate(kinds, groups, Call(all, s, e - s)) <= budget
    ensures CallsOk(out + [Call(all, s, e - s)], |kinds|) && AllInBudget(kinds, groups, out + [Call(all, s, e - s)], budget)
    ensures Reached(out + [Call(all, s, e - s)], start, Level(|kinds|, e))
  {
    hide Estimate, Runs, InBudget;
    var c := Call(all, s, e - s);
    EstimateInBudget(kinds, groups, c, budget);
    PushAll(out, c, start, Level(|kinds|, s));
    forall j | 0 <= j < |kinds|
      ensures Moved(Level(|kinds|, s), all, e)[j] == e
    {
      assert all[j] == j;
    }
    assert Moved(Level(|kinds|, s), all, e) == Level(|kinds|, e);
  }

  lemma {:induction false} RunsJoin(a: seq<Call>, b: seq<Call>, k: nat, from: nat, mid: nat, to: nat)
    requires Runs(a, k, from, mid) && Runs(b, k, mid, to)
    ensures Runs(a + b, k, from, to)
    decreases |a|
  {
    if a == [] {
      assert a + b == b;
    } else {
      assert (a + b)[1..] == a[1..] + b;
      RunsJoin(a[1..], b, k, if k in a[0].cols then from + a[0].count else from, mid, to);
    }
  }

  lemma Joined(kinds: seq<Kind>, groups: seq<Group>, budget: real, a: seq<Call>, b: seq<Call>, start: nat, s: nat, e: nat)
    requires CallsOk(a, |kinds|) && AllInBudget(kinds, groups, a, budget) && Reached(a, start, Level(|kinds|, s))
    requires CallsOk(b, |kinds|) && AllInBudget(kinds, groups, b, budget) && Reached(b, s, Waiting(|kinds|, [], |kinds|, s, e))
    ensures CallsOk(a + b, |kinds|) && AllInBudget(kinds, groups, a + b, budget) && Reached(a + b, start, Level(|kinds|, e))
  {
    hide Runs, InBudget, CallOk;
    forall j | 0 <= j < |kinds|
      ensures Runs(a + b, j, start, e)
    {
      RunsJoin(a, b, j, start, Level(|kinds|, s)[j], Waiting(|kinds|, [], |kinds|, s, e)[j]);
    }
  }

  lemma TilesFrom(out: seq<Call>, n: nat, start: nat, end: nat)
    requires CallsOk(out, n) && Reached(out, start, Level(n, end))
    ensures Tiles(out, n, start, end)
  {
    forall k | 0 <= k < n
      ensures Runs(out, k, start, end)
    {
      assert Level(n, end)[k] == end;
    }
  }
}
