/** `js/src/parquet.ts`, `gather`: the work stack of module calls, split whenever the module answers "over budget". */
module Gather {
  import opened Planner

  /** A call made, and whether the module answered "over budget". */
  datatype Event = Event(call: Call, over: bool)

  /** Column `k`'s calls still on the stack, top first, read rows `from` to `to`. */
  ghost predicate Left(work: seq<Call>, k: nat, from: nat, to: nat)
  {
    if work == [] then from == to
    else
      var c := work[|work| - 1];
      if k in c.cols then c.start == from && Left(work[..|work| - 1], k, from + c.count, to)
      else Left(work[..|work| - 1], k, from, to)
  }

  /** Every call so far that names column `k` started at the first row not yet read of it. */
  ghost predicate InOrder(trace: seq<Event>, k: nat, from: nat)
  {
    trace == [] || (InOrder(trace[..|trace| - 1], k, from)
                    && (k in trace[|trace| - 1].call.cols ==> trace[|trace| - 1].call.start == Front(trace[..|trace| - 1], k, from)))
  }

  /** How far column `k` has been read: past the calls that were not over budget. */
  function Front(trace: seq<Event>, k: nat, from: nat): nat
  {
    if trace == [] then from
    else
      var e := trace[|trace| - 1];
      Front(trace[..|trace| - 1], k, from) + if k in e.call.cols && !e.over then e.call.count else 0
  }

  /** The calls that were not over budget. */
  function Placed(trace: seq<Event>): seq<Call>
  {
    if trace == [] then []
    else Placed(trace[..|trace| - 1]) + if trace[|trace| - 1].over then [] else [trace[|trace| - 1].call]
  }

  lemma Pushed(trace: seq<Event>, e: Event, k: nat, from: nat)
    requires InOrder(trace, k, from) && (k in e.call.cols ==> e.call.start == Front(trace, k, from))
    ensures InOrder(trace + [e], k, from)
    ensures Front(trace + [e], k, from) == Front(trace, k, from) + if k in e.call.cols && !e.over then e.call.count else 0
    ensures Placed(trace + [e]) == Placed(trace) + if e.over then [] else [e.call]
  {
    assert (trace + [e])[..|trace|] == trace;
  }

  /** In order means without gaps: what was placed reads the rows up to the front, once each. */
  lemma {:induction false} PlacedRuns(trace: seq<Event>, k: nat, from: nat)
    requires InOrder(trace, k, from)
    ensures Runs(Placed(trace), k, from, Front(trace, k, from))
  {
    if trace != [] {
      var front, e := trace[..|trace| - 1], trace[|trace| - 1];
      PlacedRuns(front, k, from);
      if !e.over {
        RunsPush(Placed(front), e.call, k, from, Front(front, k, from));
      } else {
        assert Placed(front) + [] == Placed(front);
      }
    }
  }

  // ---------------------------------------------------------------- the stack

  function Reverse(calls: seq<Call>): (r: seq<Call>)
    ensures |r| == |calls| && forall i :: 0 <= i < |r| ==> r[i] == calls[|calls| - 1 - i]
  {
    if calls == [] then [] else Reverse(calls[1..]) + [calls[0]]
  }

  lemma {:induction false} ReverseLeft(calls: seq<Call>, k: nat, from: nat, to: nat)
    requires Runs(calls, k, from, to)
    ensures Left(Reverse(calls), k, from, to)
    decreases |calls|
  {
    if calls != [] {
      var r := Reverse(calls);
      assert r[..|r| - 1] == Reverse(calls[1..]);
      ReverseLeft(calls[1..], k, if k in calls[0].cols then from + calls[0].count else from, to);
    }
  }

  function Cells(c: Call): nat
  {
    |c.cols| * c.count
  }

  /** What is left to do: splitting a call always makes it less. */
  function Weight(work: seq<Call>): nat
  {
    if work == [] then 0
    else Weight(work[..|work| - 1]) + WeightOf(work[|work| - 1])
  }

  function WeightOf(c: Call): (w: nat)
    ensures w >= 1
  {
    if Cells(c) == 0 then 1 else 2 * Cells(c) - 1
  }

  lemma WeightPush(work: seq<Call>, c: Call)
    ensures Weight(work + [c]) == Weight(work) + WeightOf(c)
  {
    assert (work + [c])[..|work|] == work;
  }

  lemma LeftPush(work: seq<Call>, c: Call, k: nat, from: nat, to: nat)
    requires if k in c.cols then c.start == from && Left(work, k, from + c.count, to) else Left(work, k, from, to)
    ensures Left(work + [c], k, from, to)
  {
    assert (work + [c])[..|work|] == work;
  }

  /** Two halves of a call, the first on top. */
  function Halves(c: Call): (two: (Call, Call))
    requires c.count > 1
    ensures two.0.start == c.start && two.1.start == two.0.start + two.0.count && two.0.count + two.1.count == c.count
    ensures 1 <= two.1.count <= two.0.count <= two.1.count + 1 && two.0.cols == two.1.cols == c.cols
  {
    var half := (c.count + 1) / 2;
    (Call(c.cols, c.start, half), Call(c.cols, c.start + half, c.count - half))
  }

  lemma HalvesWeigh(c: Call)
    requires c.count > 1 && c.cols != []
    ensures WeightOf(Halves(c).0) + WeightOf(Halves(c).1) < WeightOf(c)
  {
    var n, a, b := |c.cols|, (c.count + 1) / 2, c.count - (c.count + 1) / 2;
    assert n * (a + b) == n * a + n * b;
    assert n * a >= 1 && n * b >= 1;
  }

  /** A column at a time, the first on top: columns `j` and on of a one-row call, pushed last to first. */
  function Singles(c: Call, j: nat): (r: seq<Call>)
    requires j <= |c.cols|
    ensures |r| == |c.cols| - j
    decreases |c.cols| - j
  {
    if j == |c.cols| then [] else Singles(c, j + 1) + [Call([c.cols[j]], c.start, 1)]
  }

  lemma {:induction false} SinglesWeigh(work: seq<Call>, c: Call, j: nat)
    requires j <= |c.cols|
    ensures Weight(work + Singles(c, j)) == Weight(work) + |c.cols| - j
    decreases |c.cols| - j
  {
    if j == |c.cols| {
      assert work + [] == work;
    } else {
      SinglesWeigh(work, c, j + 1);
      WeightPush(work + Singles(c, j + 1), Call([c.cols[j]], c.start, 1));
      assert work + Singles(c, j) == work + Singles(c, j + 1) + [Call([c.cols[j]], c.start, 1)];
    }
  }

  lemma {:induction false} SinglesLeft(work: seq<Call>, c: Call, j: nat, k: nat, from: nat, to: nat)
    requires j <= |c.cols| && forall a, b :: 0 <= a < b < |c.cols| ==> c.cols[a] != c.cols[b]
    requires if k in c.cols[j..] then c.start == from && Left(work, k, from + 1, to) else Left(work, k, from, to)
    ensures Left(work + Singles(c, j), k, from, to)
    decreases |c.cols| - j
  {
    if j == |c.cols| {
      assert work + [] == work;
    } else {
      var one := Call([c.cols[j]], c.start, 1);
      assert work + Singles(c, j) == work + Singles(c, j + 1) + [one];
      assert c.cols[j..] == [c.cols[j]] + c.cols[j + 1..];
      if k == c.cols[j] {
        SinglesLeft(work, c, j + 1, k, from + 1, to);
      } else {
        SinglesLeft(work, c, j + 1, k, from, to);
      }
      LeftPush(work + Singles(c, j + 1), one, k, from, to);
    }
  }

  // ---------------------------------------------------------------- the loop

  /** Each column's calls so far are in order, and what is left on the stack goes on from there. */
  ghost predicate State(work: seq<Call>, trace: seq<Event>, n: nat, start: nat, end: nat)
  {
    && CallsOk(work, n) && CallsOk(Placed(trace), n)
    && forall k :: 0 <= k < n ==> InOrder(trace, k, start) && Left(work, k, Front(trace, k, start), end)
  }

  lemma Begin(calls: seq<Call>, n: nat, start: nat, end: nat)
    requires Tiles(calls, n, start, end)
    ensures State(Reverse(calls), [], n, start, end)
  {
    forall k | 0 <= k < n
      ensures Left(Reverse(calls), k, start, end)
    {
      ReverseLeft(calls, k, start, end);
    }
  }

  /** A call that gave its rows. */
  lemma StepPlaced(work: seq<Call>, c: Call, trace: seq<Event>, n: nat, start: nat, end: nat)
    requires State(work + [c], trace, n, start, end)
    ensures State(work, trace + [Event(c, false)], n, start, end)
  {
    assert (work + [c])[..|work|] == work && (work + [c])[|work|] == c;
    var t := trace + [Event(c, false)];
    assert t[..|trace|] == trace;
    forall k | 0 <= k < n
      ensures InOrder(t, k, start) && Left(work, k, Front(t, k, start), end)
    {
      Pushed(trace, Event(c, false), k, start);
    }
    assert forall i :: 0 <= i < |work| ==> CallOk((work + [c])[i], n);
  }

  /** A call over budget, and what is pushed in its place. */
  ghost predicate Replaces(more: seq<Call>, c: Call, n: nat)
  {
    && CallsOk(more, n)
    && forall work: seq<Call>, k: nat, from: nat, to: nat :: Left(work + [c], k, from, to) ==> Left(work + more, k, from, to)
  }

  lemma StepOver(work: seq<Call>, c: Call, more: seq<Call>, trace: seq<Event>, n: nat, start: nat, end: nat)
    requires State(work + [c], trace, n, start, end) && Replaces(more, c, n)
    ensures State(work + more, trace + [Event(c, true)], n, start, end)
  {
    assert (work + [c])[..|work|] == work && (work + [c])[|work|] == c;
    var t := trace + [Event(c, true)];
    assert t[..|trace|] == trace && Placed(t) == Placed(trace);
    forall k | 0 <= k < n
      ensures InOrder(t, k, start) && Left(work + more, k, Front(t, k, start), end)
    {
      Pushed(trace, Event(c, true), k, start);
    }
    forall i | 0 <= i < |work + more|
      ensures CallOk((work + more)[i], n)
    {
      if i < |work| {
        assert CallOk((work + [c])[i], n);
      }
    }
  }

  lemma HalvesReplace(c: Call, n: nat)
    requires CallOk(c, n) && c.count > 1
    ensures Replaces([Halves(c).1, Halves(c).0], c, n)
  {
    var (a, b) := Halves(c);
    forall work: seq<Call>, k: nat, from: nat, to: nat | Left(work + [c], k, from, to)
      ensures Left(work + [b, a], k, from, to)
    {
      assert (work + [c])[..|work|] == work;
      LeftPush(work, b, k, if k in c.cols then from + a.count else from, to);
      LeftPush(work + [b], a, k, from, to);
      assert work + [b] + [a] == work + [b, a];
    }
  }

  lemma SinglesReplace(c: Call, n: nat)
    requires CallOk(c, n) && c.count == 1
    ensures Replaces(Singles(c, 0), c, n)
  {
    SinglesOk(c, 0, n);
    forall work: seq<Call>, k: nat, from: nat, to: nat | Left(work + [c], k, from, to)
      ensures Left(work + Singles(c, 0), k, from, to)
    {
      assert (work + [c])[..|work|] == work;
      assert c.cols[0..] == c.cols;
      SinglesLeft(work, c, 0, k, from, to);
    }
  }

  lemma {:induction false} SinglesOk(c: Call, j: nat, n: nat)
    requires CallOk(c, n) && j <= |c.cols|
    ensures CallsOk(Singles(c, j), n)
    decreases |c.cols| - j
  {
    if j < |c.cols| {
      SinglesOk(c, j + 1, n);
    }
  }

  lemma Finish(trace: seq<Event>, n: nat, start: nat, end: nat)
    requires State([], trace, n, start, end)
    ensures Tiles(Placed(trace), n, start, end)
  {
    forall k | 0 <= k < n
      ensures Runs(Placed(trace), k, start, end)
    {
      PlacedRuns(trace, k, start);
    }
  }

  /** The module answered "over budget" to the calls `over` says, but to none of no rows. */
  ghost predicate Answered(trace: seq<Event>, over: nat -> bool)
  {
    forall i :: 0 <= i < |trace| ==> trace[i].over == (over(i) && trace[i].call.count > 0)
  }

  lemma NoneAnswered(over: nat -> bool)
    ensures Answered([], over)
  {}

  lemma AnswerPush(trace: seq<Event>, c: Call, over: nat -> bool)
    requires Answered(trace, over)
    ensures Answered(trace + [Event(c, over(|trace|) && c.count > 0)], over)
  {}

  /** What the answer to the call on top makes of the stack, and whether it was a single cell over budget. */
  function Next(work: seq<Call>, over: bool): (seq<Call>, bool)
    requires work != []
  {
    var c, rest := work[|work| - 1], work[..|work| - 1];
    if !over then (rest, false)
    else if c.count > 1 then (rest + [Halves(c).1, Halves(c).0], false)
    else if |c.cols| > 1 then (rest + Singles(c, 0), false)
    else (work, true)
  }

  lemma NextStep(work: seq<Call>, trace: seq<Event>, over: bool, n: nat, start: nat, end: nat)
    requires work != [] && State(work, trace, n, start, end) && (over ==> work[|work| - 1].count > 0)
    ensures var top := Event(work[|work| - 1], over); var (left, failed) := Next(work, over);
            && (failed <==> over && Cells(top.call) == 1)
            && (!failed ==> State(left, trace + [top], n, start, end) && Weight(left) < Weight(work))
            && forall k :: 0 <= k < n ==> InOrder(trace + [top], k, start)
  {
    hide CallsOk, Left, InOrder, Weight, Replaces, Singles, CallOk, State;
    var c := work[|work| - 1];
    var rest := work[..|work| - 1];
    assert work == rest + [c];
    TopOk(work, trace, n, start, end);
    TopInOrder(work, trace, over, trace + [Event(c, over)], n, start, end);
    if !over {
      StepPlaced(rest, c, trace, n, start, end);
      WeightPush(rest, c);
    } else if c.count > 1 {
      StepHalves(rest, c, trace, n, start, end);
    } else if |c.cols| > 1 {
      StepSingles(rest, c, trace, n, start, end);
    }
  }

  lemma StepHalves(rest: seq<Call>, c: Call, trace: seq<Event>, n: nat, start: nat, end: nat)
    requires State(rest + [c], trace, n, start, end) && CallOk(c, n) && c.count > 1
    ensures var left := rest + [Halves(c).1, Halves(c).0];
            State(left, trace + [Event(c, true)], n, start, end) && Weight(left) < Weight(rest + [c])
  {
    hide Left, InOrder, Weight, Replaces, State, WeightOf;
    HalvesReplace(c, n);
    StepOver(rest, c, [Halves(c).1, Halves(c).0], trace, n, start, end);
    WeightPush(rest, c);
    WeightPush(rest, Halves(c).1);
    WeightPush(rest + [Halves(c).1], Halves(c).0);
    HalvesWeigh(c);
    assert rest + [Halves(c).1] + [Halves(c).0] == rest + [Halves(c).1, Halves(c).0];
  }

  lemma StepSingles(rest: seq<Call>, c: Call, trace: seq<Event>, n: nat, start: nat, end: nat)
    requires State(rest + [c], trace, n, start, end) && CallOk(c, n) && c.count == 1 && |c.cols| > 1
    ensures var left := rest + Singles(c, 0);
            State(left, trace + [Event(c, true)], n, start, end) && Weight(left) < Weight(rest + [c])
  {
    hide Left, InOrder, Weight, Replaces, State, Singles;
    SinglesReplace(c, n);
    StepOver(rest, c, Singles(c, 0), trace, n, start, end);
    WeightPush(rest, c);
    SinglesWeigh(rest, c, 0);
  }

  /**
   Reads columns times rows: whatever the module answers, it ends, either with
   every cell placed once or at a single cell over budget; and every column's
   calls come in row order, with no gap. A call of no rows is never over budget.
   */
  method GatherCalls(kinds: seq<Kind>, groups: seq<Group>, start: nat, count: nat, budget: real, over: nat -> bool)
    returns (trace: seq<Event>, ok: bool)
    requires kinds != [] && budget > 0.0 && Contiguous(groups)
    requires count > 0 ==> groups != [] && groups[0].firstRow <= start && start + count <= groups[|groups| - 1].End()
    ensures forall k :: 0 <= k < |kinds| ==> InOrder(trace, k, start)
    ensures ok ==> Tiles(Placed(trace), |kinds|, start, start + count)
    ensures !ok ==> trace != [] && trace[|trace| - 1].over && Cells(trace[|trace| - 1].call) == 1
    ensures Answered(trace, over)
  {
    hide CallsOk, Left, InOrder, Weight, Tiles, CallOk, Answered;
    NoneAnswered(over);
    var calls := Plan(kinds, groups, start, count, budget);
    var work := Reverse(calls);
    Begin(calls, |kinds|, start, start + count);
    trace := [];
    while work != []
      invariant State(work, trace, |kinds|, start, start + count)
      invariant Answered(trace, over)
      decreases Weight(work)
    {
      var c := work[|work| - 1];
      AnswerPush(trace, c, over);
      var answer := over(|trace|) && c.count > 0;
      NextStep(work, trace, answer, |kinds|, start, start + count);
      var (left, failed) := Next(work, answer);
      trace, work := trace + [Event(c, answer)], left;
      if failed {
        return trace, false;
      }
    }
    Finish(trace, |kinds|, start, start + count);
    return trace, true;
  }

  lemma TopOk(work: seq<Call>, trace: seq<Event>, n: nat, start: nat, end: nat)
    requires State(work, trace, n, start, end) && work != []
    ensures CallOk(work[|work| - 1], n) && work[|work| - 1].cols != []
  {}

  /** The call on top starts where its columns have been read to. */
  lemma TopInOrder(work: seq<Call>, trace: seq<Event>, over: bool, t: seq<Event>, n: nat, start: nat, end: nat)
    requires work != [] && State(work, trace, n, start, end) && t == trace + [Event(work[|work| - 1], over)]
    ensures forall k :: 0 <= k < n ==> InOrder(t, k, start)
  {
    forall k | 0 <= k < n
      ensures InOrder(t, k, start)
    {
      Pushed(trace, Event(work[|work| - 1], over), k, start);
    }
  }
}
