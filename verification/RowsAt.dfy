/** `js/src/parquet.ts`: listed rows, read as windows of rows near each other. */
module RowsAt {
  import opened Wrappers
  import opened Sorting

  datatype Span = Span(start: nat, count: nat)

  /** Rows closer than this are read as one window. */
  const NEAR: int := 64

  predicate In(r: nat, s: Span)
  {
    s.start <= r < s.start + s.count
  }

  /** Some window has row `r`. */
  ghost predicate Covered(r: nat, spans: seq<Span>)
  {
    exists i :: 0 <= i < |spans| && In(r, spans[i])
  }

  /** Windows in order, apart, inside the table, each from one listed row to another. */
  ghost predicate Windows(spans: seq<Span>, rows: seq<nat>, nobs: nat)
  {
    && (forall i :: 0 <= i < |spans| ==> Window(spans[i], rows, nobs))
    && forall i :: 0 < i < |spans| ==> spans[i].start - (spans[i - 1].start + spans[i - 1].count) >= 64
  }

  ghost predicate Window(s: Span, rows: seq<nat>, nobs: nat)
  {
    && s.count > 0 && s.start + s.count <= nobs && s.start in rows && s.start + s.count - 1 in rows
    && forall x :: s.start <= x && x + 64 <= s.start + s.count ==> Within(rows, x)
  }

  /** One of the 64 rows from `x` is listed. */
  ghost predicate Within(rows: seq<nat>, x: nat)
  {
    exists i :: 0 <= i < |rows| && x <= rows[i] < x + 64
  }

  lemma Widen(s: Span, rows: seq<nat>, nobs: nat, r: nat)
    requires Window(s, rows, nobs) && r in rows && s.start + s.count <= r < nobs && r - (s.start + s.count) < 64
    ensures Window(Span(s.start, r - s.start + 1), rows, nobs)
  {
    var last := s.start + s.count - 1;
    forall x | s.start <= x && x + 64 <= r + 1
      ensures Within(rows, x)
    {
      if x + 64 > s.start + s.count {
        var y := if x <= last then last else r;
        var i :| 0 <= i < |rows| && rows[i] == y;
      }
    }
  }

  /** The listed rows, each once. */
  method Distinct(rows: seq<nat>) returns (once: seq<nat>)
    ensures (forall r :: r in once <==> r in rows) && forall i, j :: 0 <= i < j < |once| ==> once[i] != once[j]
  {
    once := [];
    var i := 0;
    while i < |rows|
      invariant i <= |rows| && (forall r :: r in once <==> r in rows[..i])
      invariant forall i, j :: 0 <= i < j < |once| ==> once[i] != once[j]
    {
      assert rows[..i + 1] == rows[..i] + [rows[i]];
      if rows[i] !in once {
        once := once + [rows[i]];
      }
      i := i + 1;
    }
    assert rows[..i] == rows;
  }

  /** The listed rows, each once, in order. */
  method Ordered(rows: seq<nat>) returns (sorted: seq<nat>)
    ensures (forall r :: r in sorted <==> r in rows) && forall i :: 0 < i < |sorted| ==> sorted[i - 1] < sorted[i]
  {
    hide StableOrder, Permutes, Picked;
    var once := Distinct(rows);
    ghost var order;
    sorted, order := SortBy(once, once);
    PermutesPlaces(order, |once|);
    forall i | 0 < i < |sorted|
      ensures sorted[i - 1] < sorted[i]
    {
      StepUp(once, order, i);
    }
  }

  lemma StepUp(once: seq<nat>, order: seq<nat>, i: nat)
    requires (forall i, j :: 0 <= i < j < |once| ==> once[i] != once[j]) && StableOrder(order, once) && Permutes(order, |once|)
    requires 0 < i < |Picked(once, order)|
    ensures Picked(once, order)[i - 1] < Picked(once, order)[i]
  {
    SortedAt(order, once, i - 1, i);
  }

  /** The windows that have the listed rows; None when a row is outside the table. */
  method SpansOf(rows: seq<int>, nobs: nat) returns (r: Option<seq<Span>>, ghost listed: seq<nat>)
    ensures r == None <==> exists i :: 0 <= i < |rows| && !(0 <= rows[i] < nobs)
    ensures r != None ==> forall i :: 0 <= i < |rows| ==> Covered(rows[i], r.value)
    ensures r != None ==> listed == rows && Windows(r.value, listed, nobs)
  {
    var all: seq<nat> := [];
    var i := 0;
    while i < |rows|
      invariant i <= |rows| && all == rows[..i] && forall j :: 0 <= j < i ==> 0 <= rows[j] < nobs
    {
      if !(0 <= rows[i] < nobs) {
        return None, [];
      }
      all := all + [rows[i]];
      i := i + 1;
    }
    assert all == rows;
    assert forall r :: r in all ==> r < nobs;
    var sorted := Ordered(all);
    var spans := Group(sorted, all, nobs);
    forall i | 0 <= i < |rows|
      ensures Covered(rows[i], spans)
    {
      assert all[i] in sorted;
    }
    return Some(spans), all;
  }

  /** Join rows in order that are near each other. */
  method Group(sorted: seq<nat>, rows: seq<nat>, nobs: nat) returns (spans: seq<Span>)
    requires (forall i :: 0 < i < |sorted| ==> sorted[i - 1] < sorted[i]) && forall r :: r in sorted ==> r < nobs && r in rows
    ensures Windows(spans, rows, nobs) && forall r :: r in sorted ==> Covered(r, spans)
  {
    hide Covered, Within;
    spans := [];
    var i := 0;
    while i < |sorted|
      invariant i <= |sorted| && Windows(spans, rows, nobs) && forall j :: 0 <= j < i ==> Covered(sorted[j], spans)
      invariant i > 0 ==> spans != [] && spans[|spans| - 1].start + spans[|spans| - 1].count == sorted[i - 1] + 1
      invariant i == 0 ==> spans == []
    {
      var r := sorted[i];
      assert r in sorted;
      ghost var was := spans;
      if spans != [] && r - (spans[|spans| - 1].start + spans[|spans| - 1].count) < NEAR {
        var last := |spans| - 1;
        Widen(spans[last], rows, nobs, r);
        spans := spans[last := Span(spans[last].start, r - spans[last].start + 1)];
      } else {
        spans := spans + [Span(r, 1)];
      }
      forall j | 0 <= j <= i
        ensures Covered(sorted[j], spans)
      {
        if j < i {
          CoveredStill(sorted[j], was, spans);
        } else {
          CoveredAt(r, spans, |spans| - 1);
        }
      }
      i := i + 1;
    }
  }

  lemma CoveredAt(r: nat, spans: seq<Span>, i: nat)
    requires i < |spans| && In(r, spans[i])
    ensures Covered(r, spans)
  {}

  lemma CoveredStill(r: nat, was: seq<Span>, spans: seq<Span>)
    requires Covered(r, was) && |was| <= |spans|
    requires forall i :: 0 <= i < |was| ==> spans[i].start == was[i].start && spans[i].count >= was[i].count
    ensures Covered(r, spans)
  {
    var i :| 0 <= i < |was| && In(r, was[i]);
    assert In(r, spans[i]);
  }

  /** The rows of a window. */
  method ReadWindow<R>(table: seq<R>, s: Span) returns (rows: seq<R>)
    requires s.start + s.count <= |table|
    ensures rows == table[s.start..s.start + s.count]
  {
    rows := table[s.start..s.start + s.count];
  }

  /** One answer for each row of the list, which may name a row more than once. */
  method ReadRowsAt<R>(table: seq<R>, rows: seq<int>) returns (r: Option<seq<R>>)
    ensures r == None <==> exists i :: 0 <= i < |rows| && !(0 <= rows[i] < |table|)
    ensures r != None ==> |r.value| == |rows| && forall i :: 0 <= i < |rows| ==> 0 <= rows[i] < |table| && r.value[i] == table[rows[i]]
  {
    hide Covered, Windows;
    ghost var listed;
    var spans;
    spans, listed := SpansOf(rows, |table|);
    if spans == None {
      return None;
    }
    var place: map<int, R> := map[];
    NoneCovered(spans.value);
    var s := 0;
    while s < |spans.value|
      invariant s <= |spans.value|
      invariant forall k :: k in place ==> 0 <= k < |table| && place[k] == table[k]
      invariant forall k: nat :: Covered(k, spans.value[..s]) ==> k in place
    {
      WindowAt(spans.value, listed, |table|, s);
      var span := spans.value[s];
      var cols := ReadWindow(table, span);
      var i := 0;
      while i < span.count
        invariant i <= span.count
        invariant forall k :: k in place ==> 0 <= k < |table| && place[k] == table[k]
        invariant forall k: nat :: Covered(k, spans.value[..s]) ==> k in place
        invariant forall k :: span.start <= k < span.start + i ==> k in place
      {
        place := place[span.start + i := cols[i]];
        i := i + 1;
      }
      forall k: nat | Covered(k, spans.value[..s + 1])
        ensures k in place
      {
        CoveredLast(k, spans.value, s);
      }
      s := s + 1;
    }
    assert spans.value[..s] == spans.value;
    var out: seq<R> := [];
    var i := 0;
    while i < |rows|
      invariant i <= |rows| && |out| == i && forall j :: 0 <= j < i ==> out[j] == table[rows[j]]
    {
      assert Covered(rows[i], spans.value);
      out := out + [place[rows[i]]];
      i := i + 1;
    }
    return Some(out);
  }

  lemma WindowAt(spans: seq<Span>, rows: seq<nat>, nobs: nat, s: nat)
    requires s < |spans| && Windows(spans, rows, nobs)
    ensures spans[s].start + spans[s].count <= nobs
  {}

  lemma NoneCovered(spans: seq<Span>)
    ensures forall k: nat :: !Covered(k, spans[..0])
  {}

  lemma CoveredLast(k: nat, spans: seq<Span>, s: nat)
    requires s < |spans| && Covered(k, spans[..s + 1])
    ensures Covered(k, spans[..s]) || In(k, spans[s])
  {
    var i :| 0 <= i < |spans[..s + 1]| && In(k, spans[..s + 1][i]);
    if i < s {
      assert In(k, spans[..s][i]);
    }
  }
}
