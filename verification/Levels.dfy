/**
 Which values a text column's dictionary comes to have, and in what order: the
 history of the calls a read makes of the column, and the dictionary it leads to.
 */
module Levels {
  import opened Wrappers
  import opened Bits
  import opened Dictionary
  import opened TextAccumulator

  ghost predicate ChunksOk(chunks: seq<TextChunk>)
  {
    forall i :: 0 <= i < |chunks| ==> ChunkOk(chunks[i])
  }

  /** The rows of a call's chunks, in order. */
  ghost function AllRows(chunks: seq<TextChunk>): seq<Row>
    requires ChunksOk(chunks)
  {
    if chunks == [] then [] else AllRows(chunks[..|chunks| - 1]) + ChunkRows(chunks[|chunks| - 1])
  }

  lemma AllRowsPush(chunks: seq<TextChunk>, i: nat)
    requires ChunksOk(chunks) && i < |chunks|
    ensures AllRows(chunks[..i + 1]) == AllRows(chunks[..i]) + ChunkRows(chunks[i])
  {
    assert chunks[..i + 1][..i] == chunks[..i];
  }

  lemma {:induction false} AllRowsPrefix(chunks: seq<TextChunk>, n: nat)
    requires ChunksOk(chunks) && n <= |chunks|
    ensures ChunksOk(chunks[..n]) && AllRows(chunks[..n]) <= AllRows(chunks)
    decreases |chunks| - n
  {
    if n == |chunks| {
      assert chunks[..n] == chunks;
    } else {
      AllRowsPrefix(chunks, n + 1);
      AllRowsPush(chunks, n);
    }
  }

  /** The values a call's chunks have a dictionary take, in order. */
  ghost function AllListed(chunks: seq<TextChunk>): seq<seq<byte>>
    requires ChunksOk(chunks)
  {
    if chunks == [] then [] else AllListed(chunks[..|chunks| - 1]) + Listed(chunks[|chunks| - 1])
  }

  lemma AllListedPush(chunks: seq<TextChunk>, i: nat)
    requires ChunksOk(chunks) && i < |chunks|
    ensures AllListed(chunks[..i + 1]) == AllListed(chunks[..i]) + Listed(chunks[i])
  {
    assert chunks[..i + 1][..i] == chunks[..i];
  }

  // ---------------------------------------------------------------- histories

  /** A dictionary begun again, or a call on the column: the chunks that came of it, and whether it gave their rows. */
  datatype Step = Anew | Tried(chunks: seq<TextChunk>, gave: bool)

  ghost predicate StepOk(s: Step)
  {
    s.Tried? ==> ChunksOk(s.chunks)
  }

  ghost predicate HistoryOk(h: seq<Step>)
  {
    forall i :: 0 <= i < |h| ==> StepOk(h[i])
  }

  /** The values that the dictionary has been had to take since it was begun. */
  ghost function Taken(h: seq<Step>): seq<seq<byte>>
    requires HistoryOk(h)
  {
    if h == [] then [] else
    match h[|h| - 1]
    case Anew => []
    case Tried(chunks, _) => Taken(h[..|h| - 1]) + AllListed(chunks)
  }

  /** The rows that it has coded since then. */
  ghost function RowsTaken(h: seq<Step>): nat
    requires HistoryOk(h)
  {
    if h == [] then 0 else
    match h[|h| - 1]
    case Anew => 0
    case Tried(chunks, _) => RowsTaken(h[..|h| - 1]) + |AllRows(chunks)|
  }

  /** What was taken by the end of the last call that gave rows. */
  ghost function Shown(h: seq<Step>): seq<seq<byte>>
    requires HistoryOk(h)
  {
    if h == [] then []
    else if h[|h| - 1].Tried? && h[|h| - 1].gave then Taken(h)
    else Shown(h[..|h| - 1])
  }

  /** How many rows have been given. */
  ghost function Given(h: seq<Step>): nat
    requires HistoryOk(h)
  {
    if h == [] then 0
    else Given(h[..|h| - 1]) + if h[|h| - 1].Tried? && h[|h| - 1].gave then |AllRows(h[|h| - 1].chunks)| else 0
  }

  /** Every call was on the rows of `all` not given before, and a dictionary is begun again only before any are. */
  ghost predicate Follows(h: seq<Step>, all: seq<Row>)
    requires HistoryOk(h)
  {
    h == [] ||
    var front, last := h[..|h| - 1], h[|h| - 1];
    && Follows(front, all) && Given(front) <= |all|
    && if last.Anew? then Given(front) == 0 else AllRows(last.chunks) <= all[Given(front)..]
  }

  lemma StepMore(h: seq<Step>, s: Step)
    requires HistoryOk(h) && StepOk(s)
    ensures HistoryOk(h + [s]) && (h + [s])[..|h|] == h && (h + [s])[|h|] == s
  {}

  lemma AnewMore(h: seq<Step>, all: seq<Row>)
    requires HistoryOk(h) && Follows(h, all) && Given(h) == 0
    ensures HistoryOk(h + [Anew]) && Follows(h + [Anew], all) && Given(h + [Anew]) == 0
    ensures Taken(h + [Anew]) == [] && RowsTaken(h + [Anew]) == 0 && Shown(h + [Anew]) == Shown(h)
  {
    StepMore(h, Anew);
  }

  lemma TriedMore(h: seq<Step>, chunks: seq<TextChunk>, gave: bool, all: seq<Row>)
    requires HistoryOk(h) && ChunksOk(chunks) && Follows(h, all) && Given(h) <= |all| && AllRows(chunks) <= all[Given(h)..]
    ensures var now := h + [Tried(chunks, gave)];
            && HistoryOk(now) && Follows(now, all) && Given(now) == Given(h) + (if gave then |AllRows(chunks)| else 0) <= |all|
            && Taken(now) == Taken(h) + AllListed(chunks) && RowsTaken(now) == RowsTaken(h) + |AllRows(chunks)|
            && Shown(now) == if gave then Taken(now) else Shown(h)
  {
    StepMore(h, Tried(chunks, gave));
  }

  // ---------------------------------------------------------------- the order of first appearance

  /** A chunk lists its values as its rows first have them, and no others. */
  ghost predicate Orderly(c: TextChunk)
    requires ChunkOk(c)
  {
    Firsts(Listed(c)) == Firsts(Present(ChunkRows(c)))
  }

  ghost predicate AllOrderly(chunks: seq<TextChunk>)
    requires ChunksOk(chunks)
  {
    forall i :: 0 <= i < |chunks| ==> Orderly(chunks[i])
  }

  ghost predicate OrderlyHistory(h: seq<Step>)
    requires HistoryOk(h)
  {
    forall i :: 0 <= i < |h| ==> h[i].Tried? ==> AllOrderly(h[i].chunks)
  }

  lemma {:induction false} FirstsHas<T(!new)>(xs: seq<T>, x: T)
    ensures x in Firsts(xs) <==> x in xs
  {
    if xs != [] {
      FirstsHas(xs[..|xs| - 1], x);
      assert xs == xs[..|xs| - 1] + [xs[|xs| - 1]];
    }
  }

  /** Values in front, and the first ones of the rest, decide the first ones of all. */
  lemma {:induction false} FirstsJoin<T(!new)>(xs: seq<T>, ys: seq<T>)
    ensures Firsts(xs + ys) == Firsts(xs + Firsts(ys))
  {
    if ys != [] {
      var front, y := ys[..|ys| - 1], ys[|ys| - 1];
      FirstsJoin(xs, front);
      assert xs + ys == (xs + front) + [y];
      FirstsPush(xs + front, y);
      FirstsHas(front, y);
      if y in Firsts(front) {
        FirstsHas(xs + Firsts(front), y);
      } else {
        assert xs + Firsts(ys) == (xs + Firsts(front)) + [y];
        FirstsPush(xs + Firsts(front), y);
      }
    }
  }

  lemma SameFirsts<T(!new)>(xs: seq<T>, ys: seq<T>, vs: seq<T>, ws: seq<T>)
    requires Firsts(xs) == Firsts(ys) && Firsts(vs) == Firsts(ws)
    ensures Firsts(xs + vs) == Firsts(ys + ws)
  {
    FirstsJoin(xs, vs);
    FirstsJoin(ys, ws);
    FrontJoin(xs, Firsts(vs));
    FrontJoin(ys, Firsts(vs));
  }

  lemma {:induction false} FrontJoin<T(!new)>(xs: seq<T>, vs: seq<T>)
    ensures Firsts(xs + vs) == Firsts(Firsts(xs) + vs)
  {
    if vs == [] {
      assert xs + vs == xs && Firsts(xs) + vs == Firsts(xs);
      FirstsTwice(xs);
    } else {
      var front, v := vs[..|vs| - 1], vs[|vs| - 1];
      FrontJoin(xs, front);
      assert xs + vs == (xs + front) + [v] && Firsts(xs) + vs == (Firsts(xs) + front) + [v];
      FirstsPush(xs + front, v);
      FirstsPush(Firsts(xs) + front, v);
    }
  }

  lemma {:induction false} FirstsTwice<T(!new)>(xs: seq<T>)
    ensures Firsts(Firsts(xs)) == Firsts(xs)
  {
    FirstsJoin([], xs);
    assert [] + xs == xs && [] + Firsts(xs) == Firsts(xs);
  }

  /** Values there already change nothing. */
  lemma {:induction false} FirstsKnown<T(!new)>(xs: seq<T>, ys: seq<T>)
    requires forall y :: y in ys ==> y in xs
    ensures Firsts(xs + ys) == Firsts(xs)
  {
    if ys == [] {
      assert xs + ys == xs;
    } else {
      var front, y := ys[..|ys| - 1], ys[|ys| - 1];
      FirstsKnown(xs, front);
      assert xs + ys == (xs + front) + [y];
      FirstsPush(xs + front, y);
      FirstsHas(xs + front, y);
    }
  }

  lemma {:induction false} PresentJoin(a: seq<Row>, b: seq<Row>)
    ensures Present(a + b) == Present(a) + Present(b)
  {
    if b == [] {
      assert a + b == a;
    } else {
      var n := |b| - 1;
      PresentJoin(a, b[..n]);
      assert a + b == (a + b[..n]) + [b[n]] && b == b[..n] + [b[n]];
      hide Present;
      PresentPush(a + b[..n], b[n]);
      PresentPush(b[..n], b[n]);
    }
  }

  lemma {:induction false} OrderlyListed(chunks: seq<TextChunk>)
    requires ChunksOk(chunks) && AllOrderly(chunks)
    ensures Firsts(AllListed(chunks)) == Firsts(Present(AllRows(chunks)))
  {
    hide Listed, ChunkRows, ChunkOk;
    if chunks != [] {
      var front, c := chunks[..|chunks| - 1], chunks[|chunks| - 1];
      OrderlyListed(front);
      assert Orderly(c);
      SameFirsts(AllListed(front), Present(AllRows(front)), Listed(c), Present(ChunkRows(c)));
      PresentJoin(AllRows(front), ChunkRows(c));
    }
  }

  /** Rows that have been read are read again: nothing is new. */
  lemma ReadInside(all: seq<Row>, m: nat, at: nat, to: nat)
    requires at <= to <= m <= |all|
    ensures Firsts(Present(all[..m]) + Present(all[at..to])) == Firsts(Present(all[..m]))
  {
    hide Firsts, Present;
    var a, b, c := all[..at], all[at..to], all[to..m];
    assert all[..m] == a + b + c;
    PresentJoin(a + b, c);
    PresentJoin(a, b);
    forall y | y in Present(b)
      ensures y in Present(all[..m])
    {}
    FirstsKnown(Present(all[..m]), Present(b));
  }

  /** Rows read again from `at` add only those past `m`. */
  lemma ReadAgain(all: seq<Row>, m: nat, at: nat, to: nat)
    requires at <= m <= |all| && at <= to <= |all|
    ensures Firsts(Present(all[..m]) + Present(all[at..to])) == Firsts(Present(all[..if m < to then to else m]))
  {
    hide Firsts, Present;
    if m < to {
      ReadInside(all, m, at, m);
      var x, y, z := Present(all[..m]), Present(all[at..m]), Present(all[m..to]);
      PresentJoin(all[at..m], all[m..to]);
      PresentJoin(all[..m], all[m..to]);
      assert all[at..m] + all[m..to] == all[at..to] && all[..m] + all[m..to] == all[..to];
      SameFirsts(x + y, x, z, z);
      assert x + (y + z) == (x + y) + z;
    } else {
      ReadInside(all, m, at, to);
    }
  }

  /** How far the calls since the dictionary was begun have come, given or not. */
  ghost function Farthest(h: seq<Step>): nat
    requires HistoryOk(h)
  {
    if h == [] || h[|h| - 1].Anew? then 0 else
    var front := h[..|h| - 1];
    var to := Given(front) + |AllRows(h[|h| - 1].chunks)|;
    if Farthest(front) < to then to else Farthest(front)
  }

  lemma {:induction false} FarthestIs(h: seq<Step>, all: seq<Row>)
    requires HistoryOk(h) && Follows(h, all)
    ensures Given(h) <= Farthest(h) <= |all|
  {
    if h != [] {
      FarthestIs(h[..|h| - 1], all);
    }
  }

  /** From orderly chunks a dictionary has the values of the rows the calls have come to, as they first appear. */
  lemma {:induction false} OrderlyTaken(h: seq<Step>, all: seq<Row>)
    requires HistoryOk(h) && Follows(h, all) && OrderlyHistory(h)
    ensures Farthest(h) <= |all| && Firsts(Taken(h)) == Firsts(Present(all[..Farthest(h)]))
  {
    hide AllListed, AllRows, ChunkOk, AllOrderly, Present, Firsts;
    FarthestIs(h, all);
    NoRows(all);
    if h != [] && h[|h| - 1].Tried? {
      var front, chunks := h[..|h| - 1], h[|h| - 1].chunks;
      assert AllOrderly(h[|h| - 1].chunks);
      FarthestIs(front, all);
      OrderlyTaken(front, all);
      var at, m := Given(front), Farthest(front);
      var to := at + |AllRows(chunks)|;
      assert AllRows(chunks) == all[at..to];
      OrderlyListed(chunks);
      SameFirsts(Taken(front), Present(all[..m]), AllListed(chunks), Present(all[at..to]));
      ReadAgain(all, m, at, to);
    }
  }

  lemma NoRows(all: seq<Row>)
    ensures Firsts(Present(all[..0])) == Firsts<seq<byte>>([]) == []
  {}

  lemma {:induction false} ShownTo(h: seq<Step>, all: seq<Row>)
    requires HistoryOk(h) && Follows(h, all) && OrderlyHistory(h) && Given(h) > 0
    ensures exists m :: Given(h) <= m <= |all| && Firsts(Shown(h)) == Firsts(Present(all[..m]))
  {
    hide AllListed, AllRows, ChunkOk, AllOrderly, Present, Firsts, Taken, Farthest;
    if h[|h| - 1].Tried? && h[|h| - 1].gave {
      FarthestIs(h, all);
      OrderlyTaken(h, all);
    } else {
      ShownTo(h[..|h| - 1], all);
    }
  }

  /**
   When every chunk lists its values as its rows first have them, a read of all
   rows shows the rows' values, each once, as they first appear.
   */
  lemma OrderlyShown(h: seq<Step>, all: seq<Row>)
    requires HistoryOk(h) && Follows(h, all) && OrderlyHistory(h) && Given(h) == |all| > 0
    ensures Firsts(Shown(h)) == Firsts(Present(all))
  {
    hide Firsts, Present;
    ShownTo(h, all);
    var m :| Given(h) <= m <= |all| && Firsts(Shown(h)) == Firsts(Present(all[..m]));
    assert all[..m] == all;
  }

  /** A chunk without entries is orderly. */
  lemma PlainOrderly(c: TextChunk)
    requires ChunkOk(c) && c.codes == None
    ensures Orderly(c)
  {}

  /** A chunk whose entries stand in another order than its rows use them, and one with an entry that no row uses. */
  function Crossed(a: seq<byte>, b: seq<byte>): TextChunk
  {
    TextChunk(2, [b, a], Some([1, 0]), [])
  }

  function Unused(a: seq<byte>, b: seq<byte>): TextChunk
  {
    TextChunk(1, [a, b], Some([0]), [])
  }

  /** A read of one such chunk shows other values, or in another order, than its rows first have them. */
  lemma Disorderly(a: seq<byte>, b: seq<byte>)
    requires a != b
    ensures ShowsAs(Crossed(a, b), [Some(a), Some(b)], [b, a]) && Firsts(Present([Some(a), Some(b)])) == [a, b]
    ensures ShowsAs(Unused(a, b), [Some(a)], [a, b]) && Firsts(Present([Some(a)])) == [a]
  {
    hide Firsts, Present, ShowsAs;
    OneChunk(Crossed(a, b), [Some(a), Some(b)]);
    OneChunk(Unused(a, b), [Some(a)]);
    TwoFirsts(a, b);
    TwoFirsts(b, a);
    PresentTwo(a, b);
  }

  /** A read of `rows` by one call, of that chunk alone, comes to show `values`. */
  ghost predicate ShowsAs(c: TextChunk, rows: seq<Row>, values: seq<seq<byte>>)
  {
    var h := [Tried([c], true)];
    ChunkOk(c) && HistoryOk(h) && Follows(h, rows) && Given(h) == |rows| && Firsts(Shown(h)) == values
  }

  lemma PresentTwo(a: seq<byte>, b: seq<byte>)
    ensures Present([Some(a)]) == [a] && Present([Some(a), Some(b)]) == [a, b] && Firsts([a]) == [a]
  {
    PresentPush([], Some(a));
    PresentPush([Some(a)], Some(b));
    assert [] + [Some(a)] == [Some(a)] && [Some(a)] + [Some(b)] == [Some(a), Some(b)];
    FirstsPush([], a);
    assert [] + [a] == [a];
  }

  lemma TwoFirsts(a: seq<byte>, b: seq<byte>)
    requires a != b
    ensures Firsts([a, b]) == [a, b]
  {
    FirstsPush([], a);
    FirstsPush([a], b);
    assert [] + [a] == [a] && [a] + [b] == [a, b];
  }

  lemma OneChunk(c: TextChunk, rows: seq<Row>)
    requires ChunkOk(c) && ChunkRows(c) == rows && c.codes != None
    ensures ShowsAs(c, rows, Firsts(c.values))
  {
    hide ChunkOk, ChunkRows, AllRows, AllListed, Firsts;
    ChunkAlone(c);
    NoHistory(rows);
    TriedMore([], [c], true, rows);
    assert [] + [Tried([c], true)] == [Tried([c], true)];
    assert [] + c.values == c.values;
  }

  lemma NoHistory(all: seq<Row>)
    ensures HistoryOk([]) && Follows([], all) && Given([]) == 0 && all[0..] == all && Taken([]) == []
  {}

  lemma ChunkAlone(c: TextChunk)
    requires ChunkOk(c)
    ensures ChunksOk([c]) && AllRows([c]) == ChunkRows(c) && AllListed([c]) == Listed(c)
  {
    hide ChunkOk, ChunkRows, Listed;
    AllRowsPush([c], 0);
    AllListedPush([c], 0);
    assert [c][..1] == [c] && [c][..0] == [];
    assert [] + ChunkRows(c) == ChunkRows(c) && [] + Listed(c) == Listed(c);
  }

  // ---------------------------------------------------------------- orderly chunks

  /** Codes that are not of nulls. */
  function UsedCodes(codes: seq<nat>): (ks: seq<nat>)
  {
    if codes == [] then [] else
    UsedCodes(codes[..|codes| - 1]) + if codes[|codes| - 1] == NULL_CODE then [] else [codes[|codes| - 1]]
  }

  ghost predicate CodesBelow(ks: seq<nat>, n: nat)
  {
    forall i :: 0 <= i < |ks| ==> ks[i] < n
  }

  /** The values that codes stand for. */
  ghost function ValuesOf(ks: seq<nat>, values: seq<seq<byte>>): (vs: seq<seq<byte>>)
    requires CodesBelow(ks, |values|)
    ensures |vs| == |ks| && forall i :: 0 <= i < |ks| ==> vs[i] == values[ks[i]]
  {
    seq(|ks|, i requires 0 <= i < |ks| => values[ks[i]])
  }

  lemma {:induction false} PresentCodes(c: TextChunk, n: nat)
    requires ChunkOk(c) && c.codes != None && n <= c.rows
    ensures CodesBelow(UsedCodes(c.codes.value[..n]), |c.values|)
    ensures Present(ChunkRows(c)[..n]) == ValuesOf(UsedCodes(c.codes.value[..n]), c.values)
  {
    if n > 0 {
      PresentCodes(c, n - 1);
      assert c.codes.value[..n][..n - 1] == c.codes.value[..n - 1] && ChunkRows(c)[..n][..n - 1] == ChunkRows(c)[..n - 1];
    }
  }

  lemma {:induction false} FirstsBelow(ks: seq<nat>, n: nat)
    requires CodesBelow(ks, n)
    ensures CodesBelow(Firsts<nat>(ks), n)
  {
    var fs := Firsts<nat>(ks);
    forall i | 0 <= i < |fs|
      ensures fs[i] < n
    {
      FirstsHas<nat>(ks, fs[i]);
    }
  }

  /** Codes of one value are one. */
  ghost predicate OneEach(ks: seq<nat>, values: seq<seq<byte>>)
    requires CodesBelow(ks, |values|)
  {
    forall i, j :: 0 <= i < |ks| && 0 <= j < |ks| && values[ks[i]] == values[ks[j]] ==> ks[i] == ks[j]
  }

  /** Then the first values are those of the first codes. */
  lemma {:induction false} FirstsOfCodes(ks: seq<nat>, values: seq<seq<byte>>)
    requires CodesBelow(ks, |values|) && OneEach(ks, values)
    ensures CodesBelow(Firsts(ks), |values|) && Firsts(ValuesOf(ks, values)) == ValuesOf(Firsts(ks), values)
  {
    FirstsBelow(ks, |values|);
    if ks != [] {
      var front, k := ks[..|ks| - 1], ks[|ks| - 1];
      FirstsOfCodes(front, values);
      assert ValuesOf(ks, values)[..|ks| - 1] == ValuesOf(front, values);
      var fs := Firsts(front);
      if k in fs {
        var i :| 0 <= i < |fs| && fs[i] == k;
        assert ValuesOf(fs, values)[i] == values[k];
      }
      if values[k] in ValuesOf(fs, values) {
        var i :| 0 <= i < |fs| && ValuesOf(fs, values)[i] == values[k];
        FirstsHas(front, fs[i]);
        var j :| 0 <= j < |front| && front[j] == fs[i];
        assert ks[j] == ks[|ks| - 1];
      }
    }
  }

  lemma {:induction false} FirstsOfDistinct<T(!new)>(vs: seq<T>)
    requires Distinct(vs)
    ensures Firsts(vs) == vs
  {
    if vs != [] {
      var front := vs[..|vs| - 1];
      FirstsOfDistinct(front);
      assert vs == front + [vs[|vs| - 1]];
    }
  }

  function Upto(n: nat): (ks: seq<nat>)
    ensures |ks| == n && forall i :: 0 <= i < n ==> ks[i] == i
  {
    seq(n, i => i)
  }

  /** The first entry with the value of entry `k`, looked for from `j` on. */
  function LeadFrom(values: seq<seq<byte>>, k: nat, j: nat): (lead: nat)
    requires j <= k < |values| && forall i :: 0 <= i < j ==> values[i] != values[k]
    ensures lead <= k && values[lead] == values[k] && forall i :: 0 <= i < lead ==> values[i] != values[k]
    decreases k - j
  {
    if values[j] == values[k] then j else LeadFrom(values, k, j + 1)
  }

  /** Each code's first entry with its value. */
  ghost function Leads(ks: seq<nat>, values: seq<seq<byte>>): (r: seq<nat>)
    requires CodesBelow(ks, |values|)
    ensures |r| == |ks| && forall i :: 0 <= i < |ks| ==> r[i] == LeadFrom(values, ks[i], 0)
  {
    seq(|ks|, i requires 0 <= i < |ks| => LeadFrom(values, ks[i], 0))
  }

  lemma LeadsAre(ks: seq<nat>, values: seq<seq<byte>>)
    requires CodesBelow(ks, |values|)
    ensures var leads := Leads(ks, values);
            CodesBelow(leads, |values|) && OneEach(leads, values) && ValuesOf(leads, values) == ValuesOf(ks, values)
    ensures CodesBelow(Firsts(Leads(ks, values)), |values|)
    ensures Firsts(ValuesOf(ks, values)) == ValuesOf(Firsts(Leads(ks, values)), values)
  {
    FirstsOfCodes(Leads(ks, values), values);
  }

  /** Of two lists of leads, those with the same values are the same. */
  lemma SameLeads(a: seq<nat>, b: seq<nat>, values: seq<seq<byte>>)
    requires CodesBelow(a, |values|) && CodesBelow(b, |values|)
    requires var x, y := Firsts(Leads(a, values)), Firsts(Leads(b, values));
             CodesBelow(x, |values|) && CodesBelow(y, |values|) && ValuesOf(x, values) == ValuesOf(y, values)
    ensures Firsts(Leads(a, values)) == Firsts(Leads(b, values))
  {
    hide Firsts;
    var x, y := Firsts(Leads(a, values)), Firsts(Leads(b, values));
    assert |x| == |ValuesOf(x, values)| == |y|;
    forall i | 0 <= i < |x|
      ensures x[i] == y[i]
    {
      assert ValuesOf(x, values)[i] == ValuesOf(y, values)[i];
      FirstsHas(Leads(a, values), x[i]);
      FirstsHas(Leads(b, values), y[i]);
      var j :| 0 <= j < |a| && Leads(a, values)[j] == x[i];
      var k :| 0 <= k < |b| && Leads(b, values)[k] == y[i];
      assert values[x[i]] == values[y[i]];
    }
  }

  /**
   A chunk is orderly exactly when its rows' codes, each taken for the first
   entry with its value, first appear in the order of those entries, to the last.
   */
  lemma OrderlyByEntries(c: TextChunk)
    requires ChunkOk(c) && c.codes != None
    ensures CodesBelow(UsedCodes(c.codes.value), |c.values|)
    ensures Orderly(c) <==> Firsts(Leads(UsedCodes(c.codes.value), c.values)) == Firsts(Leads(Upto(|c.values|), c.values))
  {
    hide Present, ChunkRow, UsedCodes, Firsts, Leads;
    var used, all := UsedCodes(c.codes.value), Upto(|c.values|);
    PresentCodes(c, c.rows);
    assert c.codes.value[..c.rows] == c.codes.value && ChunkRows(c)[..c.rows] == ChunkRows(c);
    assert ValuesOf(all, c.values) == c.values;
    LeadsAre(used, c.values);
    LeadsAre(all, c.values);
    if Orderly(c) {
      SameLeads(all, used, c.values);
    }
  }

  /** When its entries are distinct, that is when its rows' codes first appear as 0, 1, 2 and so on, to its last entry. */
  lemma OrderlyByCodes(c: TextChunk)
    requires ChunkOk(c) && c.codes != None && Distinct(c.values)
    ensures Orderly(c) <==> Firsts(UsedCodes(c.codes.value)) == Upto(|c.values|)
  {
    hide Present, ChunkRow, UsedCodes, Firsts;
    OrderlyByEntries(c);
    var used, all := UsedCodes(c.codes.value), Upto(|c.values|);
    FirstsOfDistinct(all);
    assert Leads(used, c.values) == used && Leads(all, c.values) == all;
  }

  /** And exactly then a read of its rows alone shows their values as they first appear. */
  lemma OrderlyExactly(c: TextChunk)
    requires ChunkOk(c) && c.codes != None
    ensures ShowsAs(c, ChunkRows(c), Firsts(Present(ChunkRows(c)))) <==> Orderly(c)
  {
    OneChunk(c, ChunkRows(c));
  }
}
