/**
 `crates/dta-ffi/src/parquet_wasm.rs`, `js/src/parquet.ts`: a read of a table's
 text columns, with the work stack and both halves of every column: the
 module's dictionaries and budget, and the columns that JavaScript fills.
 */
module Reading {
  import opened Wrappers
  import opened Bits
  import opened Utf
  import opened Spans
  import opened Dictionary
  import opened TextAccumulator
  import opened Levels
  import opened TextColumn
  import Planner
  import Gather
  import Sorting

  type Call = Planner.Call

  // ---------------------------------------------------------------- the module

  /** A chunk of a call's text, and which of the call's text columns it is of. */
  datatype Delivery = Delivery(k: nat, chunk: TextChunk)

  /** The chunks of column `k`. */
  function Of(ds: seq<Delivery>, k: nat): seq<TextChunk>
  {
    if ds == [] then [] else
    var d := ds[|ds| - 1];
    Of(ds[..|ds| - 1], k) + if d.k == k then [d.chunk] else []
  }

  lemma OfPush(ds: seq<Delivery>, i: nat, k: nat)
    requires i < |ds|
    ensures Of(ds[..i + 1], k) == Of(ds[..i], k) + if ds[i].k == k then [ds[i].chunk] else []
  {
    assert ds[..i + 1][..i] == ds[..i];
  }

  /** The core hands over these rows of a call's columns, in any cut and the columns in any order. */
  ghost predicate Delivered(ds: seq<Delivery>, more: seq<seq<Row>>, binary: seq<bool>)
    requires |more| == |binary|
  {
    && (forall i :: 0 <= i < |ds| ==> ds[i].k < |more|)
    && forall k :: 0 <= k < |more| ==> Chunked(Of(ds, k), more[k], binary[k]) && TextRows(more[k], binary[k])
  }

  ghost predicate Apart<T>(xs: seq<T>)
  {
    forall i, j :: 0 <= i < j < |xs| ==> xs[i] != xs[j]
  }

  function Sum(s: seq<nat>): nat
  {
    if s == [] then 0 else Sum(s[..|s| - 1]) + s[|s| - 1]
  }

  lemma {:induction false} SumSet(s: seq<nat>, k: nat, x: nat)
    requires k < |s|
    ensures Sum(s[k := x]) + s[k] == Sum(s) + x
  {
    var n := |s| - 1;
    if k == n {
      assert s[k := x][..n] == s[..n];
    } else {
      assert s[k := x][..n] == s[..n][k := x];
      SumSet(s[..n], k, x);
    }
  }

  lemma {:induction false} SumMost(a: seq<nat>, b: seq<nat>)
    requires |a| == |b| && forall k :: 0 <= k < |a| ==> a[k] <= b[k]
    ensures Sum(a) <= Sum(b)
  {
    if a != [] {
      SumMost(a[..|a| - 1], b[..|b| - 1]);
    }
  }

  /** How much text there is in each column's rows. */
  function Sizes(more: seq<seq<Row>>): (s: seq<nat>)
    ensures |s| == |more|
  {
    seq(|more|, k requires 0 <= k < |more| => TextSize(more[k]))
  }

  /** The bytes each column of a call holds. */
  function Held(accs: seq<TextAcc>): (s: seq<nat>)
    reads accs
    ensures |s| == |accs| && forall k :: 0 <= k < |accs| ==> s[k] == |accs[k].bytes|
  {
    if accs == [] then [] else Held(accs[..|accs| - 1]) + [|accs[|accs| - 1].bytes|]
  }

  function BytesOf(outs: seq<Out>): (s: seq<nat>)
    ensures |s| == |outs|
  {
    seq(|outs|, k requires 0 <= k < |outs| => BytesIn(outs[k]))
  }

  ghost predicate AllValidDicts(dicts: seq<Dict>)
    reads dicts
  {
    forall k :: 0 <= k < |dicts| ==> dicts[k].Valid()
  }

  ghost function StatesOf(dicts: seq<Dict>): (was: seq<DictState>)
    requires AllValidDicts(dicts)
    reads dicts
    ensures |was| == |dicts| && forall k :: 0 <= k < |was| ==> was[k] == StateOf(dicts[k])
  {
    if dicts == [] then [] else
    assert forall k :: 0 <= k < |dicts| - 1 ==> dicts[..|dicts| - 1][k] == dicts[k];
    StatesOf(dicts[..|dicts| - 1]) + [StateOf(dicts[|dicts| - 1])]
  }

  /** A call so far has these rows of its columns, and has had their dictionaries take these values. */
  ghost predicate Begun(accs: seq<TextAcc>, dicts: seq<Dict>, binary: seq<bool>, was: seq<DictState>, got: seq<seq<Row>>,
      lists: seq<seq<seq<byte>>>)
    reads accs, dicts
  {
    && |accs| == |dicts| == |binary| == |was| == |got| == |lists|
    && forall k :: 0 <= k < |accs| ==> Gathering(accs[k], dicts[k], binary[k], was[k], got[k], lists[k])
  }

  function Nothing<T>(n: nat): (got: seq<seq<T>>)
    ensures |got| == n
  {
    seq(n, _ => [])
  }

  method NewAccs(dicts: seq<Dict>, binary: seq<bool>) returns (accs: seq<TextAcc>)
    requires |dicts| == |binary| && AllValidDicts(dicts)
    ensures Apart(accs) && (forall k :: 0 <= k < |accs| ==> fresh(accs[k]))
    ensures Begun(accs, dicts, binary, StatesOf(dicts), Nothing(|dicts|), Nothing(|dicts|)) && Sum(Held(accs)) == 0
  {
    hide Dict.Valid, TextAcc.Valid, Gathering;
    accs := [];
    while |accs| < |dicts|
      invariant |accs| <= |dicts| && Apart(accs) && forall k :: 0 <= k < |accs| ==> fresh(accs[k]) && accs[k].bytes == []
      invariant forall k :: 0 <= k < |accs| ==> Gathering(accs[k], dicts[k], binary[k], StateOf(dicts[k]), [], [])
    {
      var k := |accs|;
      var acc := new TextAcc(!binary[k] && !dicts[k].gaveUp);
      NothingGathered(acc, dicts[k], binary[k]);
      accs := accs + [acc];
    }
    NoBytes(Held(accs));
  }

  lemma NothingGathered(acc: TextAcc, dict: Dict, binary: bool)
    requires dict.Valid() && acc.coded == (!binary && !dict.gaveUp) && !acc.over && acc.got == [] && forall values :: acc.Valid(values)
    ensures Gathering(acc, dict, binary, StateOf(dict), [], [])
  {
    hide TextAcc.Valid, Firsts, Distinct, Pieces, Dict.Because;
  }

  lemma {:induction false} NoBytes(s: seq<nat>)
    requires forall k :: 0 <= k < |s| ==> s[k] == 0
    ensures Sum(s) == 0
  {
    if s != [] {
      NoBytes(s[..|s| - 1]);
    }
  }

  /** What the other columns of the call hold. */
  method Others(accs: seq<TextAcc>, k: nat) returns (n: nat)
    requires k < |accs|
    ensures n + |accs[k].bytes| == Sum(Held(accs))
  {
    n := 0;
    var j := 0;
    assert accs[..0] == [];
    while j < |accs|
      invariant j <= |accs| && n == Sum(Held(accs[..j])) - if k < j then |accs[k].bytes| else 0
    {
      assert accs[..j + 1][..j] == accs[..j];
      assert Held(accs[..j + 1])[..j] == Held(accs[..j]);
      if j != k {
        n := n + |accs[j].bytes|;
      }
      j := j + 1;
    }
    assert accs[..j] == accs;
  }

  lemma {:induction false} OfPrefix(ds: seq<Delivery>, i: nat, k: nat)
    requires i <= |ds|
    ensures Of(ds[..i], k) <= Of(ds, k)
    decreases |ds| - i
  {
    if i == |ds| {
      assert ds[..i] == ds;
    } else {
      OfPrefix(ds, i + 1, k);
      OfPush(ds, i, k);
    }
  }

  /** The rows of column `k` that have come in the first `i` deliveries, and the values listed with them. */
  ghost predicate ComeOf(rows: seq<Row>, listed: seq<seq<byte>>, ds: seq<Delivery>, i: nat, k: nat)
    requires i <= |ds|
  {
    var chunks := Of(ds[..i], k); ChunksOk(chunks) && AllRows(chunks) == rows && AllListed(chunks) == listed
  }

  ghost predicate Come(got: seq<seq<Row>>, lists: seq<seq<seq<byte>>>, ds: seq<Delivery>, i: nat)
    requires i <= |ds|
  {
    |got| == |lists| && forall k :: 0 <= k < |got| ==> ComeOf(got[k], lists[k], ds, i, k)
  }

  lemma ComeNone(n: nat, ds: seq<Delivery>)
    ensures Come(Nothing(n), Nothing(n), ds, 0)
  {}

  /** One delivery more, of the column it is of. */
  lemma ComeOne(got: seq<Row>, listed: seq<seq<byte>>, ds: seq<Delivery>, i: nat, rows: seq<Row>, binary: bool)
    requires i < |ds| && Chunked(Of(ds, ds[i].k), rows, binary) && ComeOf(got, listed, ds, i, ds[i].k)
    ensures ChunkOk(ds[i].chunk) && (!binary ==> AllValid(ds[i].chunk.values))
    ensures ComeOf(got + ChunkRows(ds[i].chunk), listed + Listed(ds[i].chunk), ds, i + 1, ds[i].k)
  {
    hide ChunkOk, AllValid, Of;
    var d := ds[i];
    OfPush(ds, i, d.k);
    OfPrefix(ds, i + 1, d.k);
    OneChunkMore(Of(ds[..i], d.k), d.chunk, Of(ds, d.k), binary);
  }

  lemma OneChunkMore(was: seq<TextChunk>, chunk: TextChunk, all: seq<TextChunk>, binary: bool)
    requires was + [chunk] <= all && ChunksOk(all) && (!binary ==> forall i :: 0 <= i < |all| ==> AllValid(all[i].values))
    ensures ChunkOk(chunk) && (!binary ==> AllValid(chunk.values))
    ensures ChunksOk(was) && ChunksOk(was + [chunk]) && AllRows(was + [chunk]) == AllRows(was) + ChunkRows(chunk)
    ensures AllListed(was + [chunk]) == AllListed(was) + Listed(chunk)
  {
    hide ChunkOk, AllValid;
    var now := was + [chunk];
    assert all[|was|] == chunk;
    assert forall j :: 0 <= j < |now| ==> now[j] == all[j];
    assert now[..|was|] == was;
    assert forall j :: 0 <= j < |was| ==> was[j] == now[j];
  }

  /** One delivery more. */
  lemma ComeStep(got: seq<seq<Row>>, lists: seq<seq<seq<byte>>>, ds: seq<Delivery>, i: nat, more: seq<seq<Row>>, binary: seq<bool>)
    requires |more| == |binary| == |got| && Delivered(ds, more, binary) && i < |ds| && Come(got, lists, ds, i)
    ensures var d := ds[i];
            && d.k < |more| && ChunkOk(d.chunk) && (!binary[d.k] ==> AllValid(d.chunk.values))
            && Come(got[d.k := got[d.k] + ChunkRows(d.chunk)], lists[d.k := lists[d.k] + Listed(d.chunk)], ds, i + 1)
  {
    hide ChunkOk, AllValid, Chunked, ComeOf, TextRows;
    var d := ds[i];
    ComeOne(got[d.k], lists[d.k], ds, i, more[d.k], binary[d.k]);
    forall k | 0 <= k < |got| && k != d.k
      ensures ComeOf(got[k], lists[k], ds, i + 1, k)
    {
      ComeOther(got[k], lists[k], ds, i, k);
    }
  }

  /** A delivery brings nothing of the other columns. */
  lemma ComeOther(rows: seq<Row>, listed: seq<seq<byte>>, ds: seq<Delivery>, i: nat, k: nat)
    requires i < |ds| && k != ds[i].k && ComeOf(rows, listed, ds, i, k)
    ensures ComeOf(rows, listed, ds, i + 1, k)
  {
    OfPush(ds, i, k);
    assert Of(ds[..i + 1], k) == Of(ds[..i], k);
  }

  /** What has come of a column is the start of its rows, and in the end all of them. */
  lemma ComeWithin(got: seq<seq<Row>>, lists: seq<seq<seq<byte>>>, ds: seq<Delivery>, i: nat, more: seq<seq<Row>>, binary: seq<bool>)
    requires |more| == |binary| == |got| && Delivered(ds, more, binary) && i <= |ds| && Come(got, lists, ds, i)
    ensures Sum(Sizes(got)) <= Sum(Sizes(more)) && (i == |ds| ==> got == more)
  {
    hide ChunkOk, TextSize;
    assert i == |ds| ==> ds[..i] == ds;
    forall k | 0 <= k < |got|
      ensures Sizes(got)[k] <= Sizes(more)[k]
    {
      OfPrefix(ds, i, k);
      var part, all := Of(ds[..i], k), Of(ds, k);
      assert all[..|part|] == part;
      AllRowsPrefix(all, |part|);
      assert got[k] == more[k][..|got[k]|];
      SizePrefix(more[k], |got[k]|);
    }
    SumMost(Sizes(got), Sizes(more));
  }

  /** A column's own bytes are at most its text. */
  lemma BytesWithin(acc: TextAcc, dict: Dict, binary: bool, was: DictState, rows: seq<Row>, listed: seq<seq<byte>>)
    requires Gathering(acc, dict, binary, was, rows, listed)
    ensures |acc.bytes| <= TextSize(rows)
  {}

  /** Every column's bytes are at most its text. */
  lemma AllWithin(accs: seq<TextAcc>, dicts: seq<Dict>, binary: seq<bool>, was: seq<DictState>, got: seq<seq<Row>>, lists: seq<seq<seq<byte>>>)
    requires Begun(accs, dicts, binary, was, got, lists)
    ensures forall k :: 0 <= k < |accs| ==> Held(accs)[k] <= Sizes(got)[k]
  {
    hide Gathering, TextSize;
    forall k | 0 <= k < |accs|
      ensures Held(accs)[k] <= Sizes(got)[k]
    {
      BytesWithin(accs[k], dicts[k], binary[k], was[k], got[k], lists[k]);
    }
  }

  /** The bytes of the other columns, and all the text of one, are at most all the text. */
  lemma OthersWithin(held: seq<nat>, got: seq<seq<Row>>, k: nat, rows: seq<Row>)
    requires |held| == |got| && k < |held| && forall j :: 0 <= j < |held| ==> held[j] <= Sizes(got)[j]
    ensures Sum(held) - held[k] + TextSize(rows) <= Sum(Sizes(got[k := rows]))
  {
    hide TextSize;
    SumSet(held, k, TextSize(rows));
    SumMost(held[k := TextSize(rows)], Sizes(got[k := rows]));
  }

  /** A chunk into one column. */
  method TakeInto(accs: seq<TextAcc>, dicts: seq<Dict>, binary: seq<bool>, d: Delivery, limit: nat, ghost was: seq<DictState>,
      ghost got: seq<seq<Row>>, ghost lists: seq<seq<seq<byte>>>)
    requires Begun(accs, dicts, binary, was, got, lists) && Apart(accs) && Apart(dicts)
    requires d.k < |accs| && ChunkOk(d.chunk) && (!binary[d.k] ==> AllValid(d.chunk.values))
    modifies accs[d.k], dicts[d.k]
    ensures forall k :: 0 <= k < |dicts| ==> Later(was[k], dicts[k])
    ensures if accs[d.k].over then TextSize(got[d.k] + ChunkRows(d.chunk)) > limit && (binary[d.k] || dicts[d.k].gaveUp)
            else Begun(accs, dicts, binary, was, got[d.k := got[d.k] + ChunkRows(d.chunk)], lists[d.k := lists[d.k] + Listed(d.chunk)])
    ensures forall k :: 0 <= k < |dicts| && k != d.k ==> Gathering(accs[k], dicts[k], binary[k], was[k], got[k], lists[k])
    ensures !accs[d.k].over ==> |accs[d.k].bytes| <= Most(limit, |old(accs[d.k].bytes)|)
  {
    hide ChunkOk, AllValid, TextSize, Gathering, Later, Listed;
    BegunLater(accs, dicts, binary, was, got, lists);
    TakeChunk(accs[d.k], dicts[d.k], binary[d.k], d.chunk, limit, was[d.k], got[d.k], lists[d.k]);
  }

  /** The dictionaries have coded the rows and taken the values that came, unless they are given up. */
  ghost predicate AllCoding(was: seq<DictState>, dicts: seq<Dict>, got: seq<seq<Row>>, lists: seq<seq<seq<byte>>>, binary: seq<bool>)
    reads dicts
  {
    && |was| == |dicts| == |got| == |lists| == |binary|
    && forall k :: 0 <= k < |dicts| ==> Later(was[k], dicts[k]) && Coding(was[k], StateOf(dicts[k]), |got[k]|, lists[k], binary[k])
  }

  /** One chunk: its column takes it within what the others leave of the budget; true when it passes that. */
  method Deliver(accs: seq<TextAcc>, dicts: seq<Dict>, binary: seq<bool>, d: Delivery, half: nat, ghost was: seq<DictState>, ghost got: seq<seq<Row>>,
      ghost lists: seq<seq<seq<byte>>>)
    returns (over: bool)
    requires Begun(accs, dicts, binary, was, got, lists) && Apart(accs) && Apart(dicts) && Sum(Held(accs)) <= half
    requires d.k < |accs| && ChunkOk(d.chunk) && (!binary[d.k] ==> AllValid(d.chunk.values))
    modifies accs, dicts
    ensures var now := got[d.k := got[d.k] + ChunkRows(d.chunk)]; var listed := lists[d.k := lists[d.k] + Listed(d.chunk)];
            && AllCoding(was, dicts, now, listed, binary)
            && if over then Sum(Sizes(now)) > half else Begun(accs, dicts, binary, was, now, listed) && Sum(Held(accs)) <= half
  {
    hide ChunkOk, AllValid, TextSize, Begun, Later, Sizes, Sum, Held, Listed, AllCoding;
    var k := d.k;
    BegunLater(accs, dicts, binary, was, got, lists);
    ghost var held := Held(accs);
    ghost var now, listed := got[k := got[k] + ChunkRows(d.chunk)], lists[k := lists[k] + Listed(d.chunk)];
    var others := Others(accs, k);
    AllWithin(accs, dicts, binary, was, got, lists);
    TakeInto(accs, dicts, binary, d, if others < half then half - others else 0, was, got, lists);
    over := accs[k].over;
    if over {
      OthersWithin(held, got, k, got[k] + ChunkRows(d.chunk));
      OverCoding(accs, dicts, binary, was, got, lists, now, listed, k);
    } else {
      assert Held(accs) == held[k := |accs[k].bytes|];
      SumSet(held, k, |accs[k].bytes|);
      BegunCoding(accs, dicts, binary, was, now, listed);
    }
  }

  lemma BegunCoding(accs: seq<TextAcc>, dicts: seq<Dict>, binary: seq<bool>, was: seq<DictState>, got: seq<seq<Row>>, lists: seq<seq<seq<byte>>>)
    requires Begun(accs, dicts, binary, was, got, lists)
    ensures AllCoding(was, dicts, got, lists, binary)
  {
    hide Coding, Later, TextAcc.Valid;
  }

  /** A column whose chunk passes the budget has no dictionary, or has given it up. */
  lemma OverCoding(accs: seq<TextAcc>, dicts: seq<Dict>, binary: seq<bool>, was: seq<DictState>, got: seq<seq<Row>>, lists: seq<seq<seq<byte>>>,
      now: seq<seq<Row>>, listed: seq<seq<seq<byte>>>, k: nat)
    requires |accs| == |dicts| == |binary| == |was| == |got| == |lists| == |now| == |listed| && k < |dicts|
    requires now == got[k := now[k]] && listed == lists[k := listed[k]]
    requires forall j :: 0 <= j < |dicts| && j != k ==> Gathering(accs[j], dicts[j], binary[j], was[j], got[j], lists[j])
    requires Later(was[k], dicts[k]) && (binary[k] || dicts[k].gaveUp)
    ensures AllCoding(was, dicts, now, listed, binary)
  {
    hide TextAcc.Valid;
  }

  /** The chunks that came of a call, when it was stopped or not. */
  function Before(ds: seq<Delivery>, came: nat): seq<Delivery>
  {
    if came <= |ds| then ds[..came] else ds
  }

  /** What the chunks of each of `n` columns have its dictionary take. */
  ghost predicate ListsAre(lists: seq<seq<seq<byte>>>, ds: seq<Delivery>)
  {
    forall k :: 0 <= k < |lists| ==> ChunksOk(Of(ds, k)) && lists[k] == AllListed(Of(ds, k))
  }

  /** What a call that gives its rows makes of every dictionary, and hands over. */
  ghost predicate AllHanded(was: seq<DictState>, dicts: seq<Dict>, outs: seq<Out>, more: seq<seq<Row>>, lists: seq<seq<seq<byte>>>, binary: seq<bool>)
    reads dicts
  {
    && |was| == |dicts| == |more| == |lists| == |binary| && |outs| <= |dicts|
    && forall k :: 0 <= k < |outs| ==> dicts[k].Valid() && HandedOver(was[k], StateOf(dicts[k]), outs[k], more[k], lists[k], binary[k])
  }

  /** The columns of a call handed over, each with the values its dictionary has new. */
  method HandAll(accs: seq<TextAcc>, dicts: seq<Dict>, binary: seq<bool>, ghost was: seq<DictState>, ghost more: seq<seq<Row>>,
      ghost lists: seq<seq<seq<byte>>>)
    returns (outs: seq<Out>)
    requires Begun(accs, dicts, binary, was, more, lists) && Apart(accs) && Apart(dicts)
    requires forall k :: 0 <= k < |more| ==> TextRows(more[k], binary[k])
    modifies dicts
    ensures |outs| == |dicts| && AllHanded(was, dicts, outs, more, lists, binary)
    ensures BytesOf(outs) == Held(accs)
  {
    hide Gathering, HandedOver, TextRows, Dict.Valid, StateOf, BytesIn, Held;
    outs := [];
    while |outs| < |dicts|
      invariant |outs| <= |dicts| && AllHanded(was, dicts, outs, more, lists, binary)
      invariant forall k :: |outs| <= k < |dicts| ==> Gathering(accs[k], dicts[k], binary[k], was[k], more[k], lists[k])
      invariant forall k :: 0 <= k < |outs| ==> BytesIn(outs[k]) == |accs[k].bytes|
    {
      var k := |outs|;
      var out := HandOver(accs[k], dicts[k], binary[k], was[k], more[k], lists[k]);
      outs := outs + [out];
    }
  }

  /** A call stopped after `came` of its chunks. */
  ghost predicate AllStopped(was: seq<DictState>, dicts: seq<Dict>, ds: seq<Delivery>, came: nat, binary: seq<bool>)
    reads dicts
  {
    && |was| == |dicts| == |binary| && came <= |ds|
    && forall k :: 0 <= k < |dicts| ==> Later(was[k], dicts[k]) && StoppedWith(was[k], StateOf(dicts[k]), Of(ds[..came], k), binary[k])
  }

  /**
   The text of one call: every column's rows, or None when the columns'
   text, together, passes half the budget, or the core says so after `core`
   of the chunks. Then no dictionary has handed over anything, and `came` of
   the chunks came.
   */
  method CallText(dicts: seq<Dict>, binary: seq<bool>, ds: seq<Delivery>, half: nat, core: nat, ghost more: seq<seq<Row>>)
    returns (outs: Option<seq<Out>>, ghost came: nat, ghost lists: seq<seq<seq<byte>>>)
    requires |dicts| == |binary| == |more| && Apart(dicts) && AllValidDicts(dicts) && Delivered(ds, more, binary)
    modifies dicts
    ensures if outs == None then AllStopped(old(StatesOf(dicts)), dicts, ds, came, binary) && came <= core
            else |outs.value| == |dicts| && AllHanded(old(StatesOf(dicts)), dicts, outs.value, more, lists, binary)
    ensures outs != None ==> ListsAre(lists, ds)
    ensures outs == None ==> core <= |ds| || Sum(Sizes(more)) > half
    ensures outs != None ==> core > |ds| && Sum(BytesOf(outs.value)) <= half
  {
    hide Begun, Later, Delivered, Sum, Sizes, Held, BytesOf, AllHanded, TextRows, AllValidDicts, AllStopped, ListsAre;
    ghost var was := StatesOf(dicts);
    var accs := NewAccs(dicts, binary);
    var over;
    over, came, lists := GatherAll(accs, dicts, binary, ds, half, core, was, more);
    if over {
      return None, came, lists;
    }
    AllTextRows(ds, more, binary);
    var all := HandAll(accs, dicts, binary, was, more, lists);
    return Some(all), came, lists;
  }

  /** A call's chunks, to the one that passes the budget. */
  method GatherAll(accs: seq<TextAcc>, dicts: seq<Dict>, binary: seq<bool>, ds: seq<Delivery>, half: nat, core: nat,
      ghost was: seq<DictState>, ghost more: seq<seq<Row>>)
    returns (over: bool, ghost came: nat, ghost lists: seq<seq<seq<byte>>>)
    requires |more| == |binary| && Delivered(ds, more, binary) && Apart(accs) && Apart(dicts)
    requires Begun(accs, dicts, binary, was, Nothing(|more|), Nothing(|more|)) && Sum(Held(accs)) == 0
    modifies accs, dicts
    ensures over ==> AllStopped(was, dicts, ds, came, binary) && came <= core
    ensures over ==> core <= |ds| || Sum(Sizes(more)) > half
    ensures !over ==> core > |ds| && Begun(accs, dicts, binary, was, more, lists) && Sum(Held(accs)) <= half && ListsAre(lists, ds)
  {
    hide Begun, Later, Come, Delivered, ChunkOk, AllValid, Sum, Sizes, Held, Listed, AllCoding, AllStopped, ListsAre;
    ghost var got := Nothing(|more|);
    lists := Nothing(|more|);
    ComeNone(|more|, ds);
    BegunLater(accs, dicts, binary, was, got, lists);
    BegunCoding(accs, dicts, binary, was, got, lists);
    came := 0;
    var i := 0;
    while i < |ds|
      invariant i <= |ds| && i <= core && |got| == |lists| == |more| && Come(got, lists, ds, i)
      invariant Begun(accs, dicts, binary, was, got, lists) && Sum(Held(accs)) <= half && AllCoding(was, dicts, got, lists, binary)
    {
      if i == core {
        CodingStopped(was, dicts, got, lists, binary, ds, i);
        return true, i, lists;
      }
      ComeStep(got, lists, ds, i, more, binary);
      over := Deliver(accs, dicts, binary, ds[i], half, was, got, lists);
      got, lists := got[ds[i].k := got[ds[i].k] + ChunkRows(ds[i].chunk)], lists[ds[i].k := lists[ds[i].k] + Listed(ds[i].chunk)];
      ComeWithin(got, lists, ds, i + 1, more, binary);
      if over {
        CodingStopped(was, dicts, got, lists, binary, ds, i + 1);
        return true, i + 1, lists;
      }
      i := i + 1;
    }
    ComeWithin(got, lists, ds, i, more, binary);
    over := i == core;
    came := i;
    CodingStopped(was, dicts, got, lists, binary, ds, i);
    ComeLists(got, lists, ds);
  }

  lemma ComeLists(got: seq<seq<Row>>, lists: seq<seq<seq<byte>>>, ds: seq<Delivery>)
    requires Come(got, lists, ds, |ds|)
    ensures ListsAre(lists, ds)
  {
    hide ChunkOk;
    assert ds[..|ds|] == ds;
    forall k | 0 <= k < |lists|
      ensures ChunksOk(Of(ds, k)) && lists[k] == AllListed(Of(ds, k))
    {
      assert ComeOf(got[k], lists[k], ds, |ds|, k);
    }
  }

  lemma CodingStopped(was: seq<DictState>, dicts: seq<Dict>, got: seq<seq<Row>>, lists: seq<seq<seq<byte>>>, binary: seq<bool>, ds: seq<Delivery>,
      i: nat)
    requires AllCoding(was, dicts, got, lists, binary) && i <= |ds| && Come(got, lists, ds, i)
    ensures AllStopped(was, dicts, ds, i, binary)
  {
    hide ChunkOk, Coding, Dict.Valid;
    forall k | 0 <= k < |dicts|
      ensures Later(was[k], dicts[k]) && StoppedWith(was[k], StateOf(dicts[k]), Of(ds[..i], k), binary[k])
    {
      assert ComeOf(got[k], lists[k], ds, i, k);
    }
  }

  lemma AllTextRows(ds: seq<Delivery>, more: seq<seq<Row>>, binary: seq<bool>)
    requires |more| == |binary| && Delivered(ds, more, binary)
    ensures forall k :: 0 <= k < |more| ==> TextRows(more[k], binary[k])
  {}

  lemma BegunLater(accs: seq<TextAcc>, dicts: seq<Dict>, binary: seq<bool>, was: seq<DictState>, got: seq<seq<Row>>, lists: seq<seq<seq<byte>>>)
    requires Begun(accs, dicts, binary, was, got, lists)
    ensures |accs| == |dicts| == |binary| == |was| == |got| == |lists|
    ensures forall k :: 0 <= k < |dicts| ==> Later(was[k], dicts[k])
  {}

  // ---------------------------------------------------------------- JavaScript

  /** A column whose rows `at` to `to` have been handed over, and are yet to be placed. */
  ghost predicate Waiting(col: Column, was: DictState, now: DictState, out: Out, all: seq<Row>, at: nat, to: nat, binary: bool)
    reads col, col.values, col.codes, col.missing
  {
    && at <= to <= |all| && HandedOut(was, now, out, all[at..to], binary) && TextRows(all[at..to], binary) && AllValid(now.values)
    && Reads(col, was, all, at, binary)
  }

  /** What a column shows its values as: its levels, for a dictionary column. */
  datatype Shot = Shot(levels: seq<JsString>, dictionary: bool)

  ghost function Shots(cols: seq<Column>): (shots: seq<Shot>)
    reads cols
    ensures |shots| == |cols| && forall k :: 0 <= k < |cols| ==> shots[k] == Shot(cols[k].levels, cols[k].dictionary)
  {
    if cols == [] then [] else
    Shots(cols[..|cols| - 1]) + [Shot(cols[|cols| - 1].levels, cols[|cols| - 1].dictionary)]
  }

  /** What placing a call's rows makes of that. */
  ghost predicate ShownAs(was: Shot, now: Shot, out: Out, state: DictState)
  {
    AllValid(state.values) && now.dictionary == (was.dictionary && out.Coded?) && (now.dictionary ==> now.levels == Texts(state.values))
  }

  /** The first `j` of a call's columns show what has been placed, and the others what they did. */
  ghost predicate AllShownAs(was: seq<Shot>, now: seq<Shot>, ks: seq<nat>, outs: seq<Out>, states: seq<DictState>, j: nat)
  {
    && |was| == |now| == |states| && |outs| == |ks| && (forall m :: 0 <= m < |ks| ==> ks[m] < |now|)
    && (forall m :: 0 <= m < |ks| ==> if m < j then ShownAs(was[ks[m]], now[ks[m]], outs[m], states[ks[m]]) else now[ks[m]] == was[ks[m]])
    && forall k :: 0 <= k < |now| && k !in ks ==> now[k] == was[k]
  }

  method PlaceOne(col: Column, out: Out, binary: bool, at: nat, to: nat, ghost was: DictState, ghost now: DictState, ghost all: seq<Row>)
    requires Waiting(col, was, now, out, all, at, to, binary)
    modifies col, col.values, col.codes, col.missing
    ensures Reads(col, now, all, to, binary) && fresh({col.values} - {old(col.values)})
    ensures AllValid(now.values) && ShownAs(Shot(old(col.levels), old(col.dictionary)), Shot(col.levels, col.dictionary), out, now)
  {
    hide Text, Valid, AllValid, Texts, Blanked, Faithful, Column.Holds, Distinct, Pieces, Cuts, SeenIs, TextRows;
    SeenGrows(col.seen, was.values, now.values, was.sent);
    col.Place(out, binary, at, all[..at], all[at..to], now.values, was.sent);
    assert all[..at] + all[at..to] == all[..to];
    AllSeen(now.values);
  }

  /** An attempt over budget leaves a column as it is. */
  lemma StillReads(col: Column, was: DictState, now: DictState, all: seq<Row>, to: nat, binary: bool)
    requires Reads(col, was, all, to, binary) && was.values <= now.values && was.sent == now.sent && AllValid(now.values)
    ensures Reads(col, now, all, to, binary)
  {
    hide Column.Holds;
    SeenGrows(col.seen, was.values, now.values, was.sent);
  }

  /** The columns' arrays. */
  ghost function Arrays(cols: seq<Column>): (arrays: set<object>)
    reads cols
    ensures forall o :: o in arrays ==> o is array<Cell> || o is array<nat>
  {
    (set k: nat | k < |cols| :: cols[k].values as object) + (set k: nat | k < |cols| :: cols[k].codes as object)
    + (set k: nat | k < |cols| :: cols[k].missing as object)
  }

  /** No two columns share an array. */
  ghost predicate ApartCols(cols: seq<Column>)
    reads cols
  {
    Apart(cols) && forall i, j :: 0 <= i < |cols| && 0 <= j < |cols| && i != j ==>
      cols[i].values != cols[j].values && cols[i].codes != cols[j].codes && cols[i].codes != cols[j].missing && cols[i].missing != cols[j].missing
  }

  /** Every text column's first rows, `done[k]` of column `k`'s, have been read. */
  ghost predicate AllRead(cols: seq<Column>, states: seq<DictState>, kinds: seq<Planner.Kind>, binary: seq<bool>, table: seq<seq<Row>>,
      done: seq<nat>)
    reads cols, Arrays(cols)
  {
    && |cols| == |states| == |kinds| == |binary| == |table| == |done|
    && forall k :: 0 <= k < |cols| && kinds[k].Text? ==> Reads(cols[k], states[k], table[k], done[k], binary[k])
  }

  /** A call's text columns. */
  function TextsOf(columns: seq<nat>, kinds: seq<Planner.Kind>): (ks: seq<nat>)
    requires forall i :: 0 <= i < |columns| ==> columns[i] < |kinds|
    ensures forall m :: 0 <= m < |ks| ==> ks[m] < |kinds|
  {
    if columns == [] then [] else
    var k := columns[|columns| - 1];
    TextsOf(columns[..|columns| - 1], kinds) + if kinds[k].Text? then [k] else []
  }

  lemma {:induction false} TextsAre(columns: seq<nat>, kinds: seq<Planner.Kind>)
    requires forall i :: 0 <= i < |columns| ==> columns[i] < |kinds|
    ensures forall k :: k in TextsOf(columns, kinds) <==> k in columns && kinds[k].Text?
    ensures Apart(columns) ==> Apart(TextsOf(columns, kinds))
  {
    if columns != [] {
      assert columns == columns[..|columns| - 1] + [columns[|columns| - 1]];
      TextsAre(columns[..|columns| - 1], kinds);
    }
  }

  /** How far columns have been read after a call. */
  function Advanced(done: seq<nat>, columns: seq<nat>, to: nat): (next: seq<nat>)
    ensures |next| == |done| && forall k :: 0 <= k < |done| ==> next[k] == if k in columns then to else done[k]
  {
    seq(|done|, k requires 0 <= k < |done| => if k in columns then to else done[k])
  }

  /** Of a call's columns the first `j` are placed, and the others wait; the other columns are as far as they were. */
  ghost predicate PlacedTo(cols: seq<Column>, ks: seq<nat>, was: seq<DictState>, now: seq<DictState>, outs: seq<Out>,
      kinds: seq<Planner.Kind>, binary: seq<bool>,
      table: seq<seq<Row>>, done: seq<nat>, at: nat, to: nat, j: nat)
    requires |cols| == |was| == |now| == |kinds| == |binary| == |table| == |done| && |outs| == |ks| && forall m :: 0 <= m < |ks| ==> ks[m] < |cols|
    reads cols, Arrays(cols)
  {
    && (forall m :: 0 <= m < j && m < |ks| ==> Reads(cols[ks[m]], now[ks[m]], table[ks[m]], to, binary[ks[m]]))
    && (forall m :: j <= m < |ks| ==> Waiting(cols[ks[m]], was[ks[m]], now[ks[m]], outs[m], table[ks[m]], at, to, binary[ks[m]]))
    && forall k :: 0 <= k < |cols| && kinds[k].Text? && k !in ks ==> Reads(cols[k], now[k], table[k], done[k], binary[k])
  }

  method PlaceNext(cols: seq<Column>, ks: seq<nat>, outs: seq<Out>, binary: seq<bool>, at: nat, to: nat, j: nat,
      ghost was: seq<DictState>, ghost now: seq<DictState>, ghost kinds: seq<Planner.Kind>, ghost table: seq<seq<Row>>, ghost done: seq<nat>,
      ghost shots: seq<Shot>)
    requires |cols| == |was| == |now| == |kinds| == |binary| == |table| == |done| && |outs| == |ks| && ApartCols(cols) && Apart(ks) && j < |ks|
    requires AllShownAs(shots, Shots(cols), ks, outs, now, j)
    requires (forall m :: 0 <= m < |ks| ==> ks[m] < |cols|) && PlacedTo(cols, ks, was, now, outs, kinds, binary, table, done, at, to, j)
    modifies cols, Arrays(cols)
    ensures PlacedTo(cols, ks, was, now, outs, kinds, binary, table, done, at, to, j + 1)
    ensures AllShownAs(shots, Shots(cols), ks, outs, now, j + 1)
    ensures ApartCols(cols) && forall o <- Arrays(cols) :: o in old(Arrays(cols)) || fresh(o)
  {
    hide Waiting, Reads, ShownAs, Shots, AllShownAs;
    var k := ks[j];
    ghost var before := Shots(cols);
    PlaceOne(cols[k], outs[j], binary[k], at, to, was[k], now[k], table[k]);
    ShownNext(shots, before, Shots(cols), ks, outs, now, j);
  }

  /** The rows handed over, placed a column at a time. */
  method PlaceAll(cols: seq<Column>, ks: seq<nat>, outs: seq<Out>, binary: seq<bool>, at: nat, to: nat,
      ghost was: seq<DictState>, ghost now: seq<DictState>, ghost kinds: seq<Planner.Kind>, ghost table: seq<seq<Row>>, ghost done: seq<nat>)
    requires |cols| == |was| == |now| == |kinds| == |binary| == |table| == |done| && |outs| == |ks| && ApartCols(cols) && Apart(ks)
    requires (forall m :: 0 <= m < |ks| ==> ks[m] < |cols|) && PlacedTo(cols, ks, was, now, outs, kinds, binary, table, done, at, to, 0)
    modifies cols, Arrays(cols)
    ensures AllRead(cols, now, kinds, binary, table, Advanced(done, ks, to))
    ensures AllShownAs(old(Shots(cols)), Shots(cols), ks, outs, now, |ks|)
    ensures ApartCols(cols) && forall o <- Arrays(cols) :: o in old(Arrays(cols)) || fresh(o)
  {
    hide *;
    var j := 0;
    ghost var shots := Shots(cols);
    NoneShown(shots, ks, outs, now);
    while j < |ks|
      invariant AllShownAs(shots, Shots(cols), ks, outs, now, j)
      invariant j <= |ks| && ApartCols(cols) && forall o <- Arrays(cols) :: o in old(Arrays(cols)) || fresh(o)
      invariant PlacedTo(cols, ks, was, now, outs, kinds, binary, table, done, at, to, j)
    {
      PlaceNext(cols, ks, outs, binary, at, to, j, was, now, kinds, table, done, shots);
      j := j + 1;
    }
    AllPlaced(cols, ks, was, now, outs, kinds, binary, table, done, at, to);
  }

  lemma ShownNext(was: seq<Shot>, mid: seq<Shot>, now: seq<Shot>, ks: seq<nat>, outs: seq<Out>, states: seq<DictState>, j: nat)
    requires AllShownAs(was, mid, ks, outs, states, j) && Apart(ks) && j < |ks| && |now| == |mid|
    requires ShownAs(mid[ks[j]], now[ks[j]], outs[j], states[ks[j]]) && forall k :: 0 <= k < |now| && k != ks[j] ==> now[k] == mid[k]
    ensures AllShownAs(was, now, ks, outs, states, j + 1)
  {
    hide ShownAs;
    assert mid[ks[j]] == was[ks[j]];
    forall m | 0 <= m < |ks|
      ensures if m < j + 1 then ShownAs(was[ks[m]], now[ks[m]], outs[m], states[ks[m]]) else now[ks[m]] == was[ks[m]]
    {
      assert m != j ==> ks[m] != ks[j];
    }
  }

  lemma NoneShown(shots: seq<Shot>, ks: seq<nat>, outs: seq<Out>, states: seq<DictState>)
    requires |shots| == |states| && |outs| == |ks| && forall m :: 0 <= m < |ks| ==> ks[m] < |shots|
    ensures AllShownAs(shots, shots, ks, outs, states, 0)
  {}

  lemma AllPlaced(cols: seq<Column>, ks: seq<nat>, was: seq<DictState>, now: seq<DictState>, outs: seq<Out>, kinds: seq<Planner.Kind>,
      binary: seq<bool>,
      table: seq<seq<Row>>, done: seq<nat>, at: nat, to: nat)
    requires |cols| == |was| == |now| == |kinds| == |binary| == |table| == |done| && |outs| == |ks| && forall m :: 0 <= m < |ks| ==> ks[m] < |cols|
    requires PlacedTo(cols, ks, was, now, outs, kinds, binary, table, done, at, to, |ks|)
    ensures AllRead(cols, now, kinds, binary, table, Advanced(done, ks, to))
  {
    hide Reads;
    forall k | 0 <= k < |cols| && kinds[k].Text?
      ensures Reads(cols[k], now[k], table[k], Advanced(done, ks, to)[k], binary[k])
    {
      if k in ks {
        var m :| 0 <= m < |ks| && ks[m] == k;
        assert Reads(cols[ks[m]], now[ks[m]], table[ks[m]], to, binary[ks[m]]);
      }
    }
  }

  /** What the core does in a call, all of it free: its chunks, and how many come before it says the text passes its budget. */
  datatype Core = Core(deliver: (nat, Call) -> seq<Delivery>, stops: nat -> nat)

  /** Rows `at` to `to` of some columns. */
  function Window(table: seq<seq<Row>>, ks: seq<nat>, at: nat, to: nat): (more: seq<seq<Row>>)
    requires forall m :: 0 <= m < |ks| ==> ks[m] < |table| && at <= to <= |table[ks[m]]|
    ensures |more| == |ks| && forall m :: 0 <= m < |ks| ==> more[m] == table[ks[m]][at..to]
  {
    seq(|ks|, m requires 0 <= m < |ks| => table[ks[m]][at..to])
  }

  /** A call on columns of the table, within its rows. */
  ghost predicate Fits(c: Call, kinds: seq<Planner.Kind>, table: seq<seq<Row>>, start: nat)
  {
    && |kinds| == |table| && Planner.CallOk(c, |kinds|) && start <= c.start
    && forall k :: 0 <= k < |table| ==> c.start + c.count - start <= |table[k]|
  }

  /** The text a call asks for. */
  ghost function Asked(c: Call, kinds: seq<Planner.Kind>, table: seq<seq<Row>>, start: nat): seq<seq<Row>>
    requires Fits(c, kinds, table, start)
  {
    Window(table, TextsOf(c.cols, kinds), c.start - start, c.start + c.count - start)
  }

  /** The core answers every call with its rows. */
  ghost predicate Serves(core: Core, kinds: seq<Planner.Kind>, binary: seq<bool>, table: seq<seq<Row>>, start: nat)
    requires |binary| == |kinds|
  {
    forall a: nat, c: Call :: Fits(c, kinds, table, start) ==>
      Delivered(core.deliver(a, c), Asked(c, kinds, table, start), Sorting.Picked(binary, TextsOf(c.cols, kinds)))
  }

  /** Why a call is over budget: the core says so, or the text it asks for is more than half of what it may hold. */
  ghost predicate TooMuch(core: Core, a: nat, c: Call, kinds: seq<Planner.Kind>, table: seq<seq<Row>>, start: nat, half: nat)
  {
    && Fits(c, kinds, table, start) && c.count > 0
    && (core.stops(a) <= |core.deliver(a, c)| || Sum(Sizes(Asked(c, kinds, table, start))) > half)
  }

  /** Nothing has stopped a call. */
  predicate Unstopped(core: Core, a: nat, c: Call) {
    c.count == 0 || core.stops(a) > |core.deliver(a, c)|
  }

  lemma NoText(more: seq<seq<Row>>)
    requires forall k :: 0 <= k < |more| ==> more[k] == []
    ensures Sum(Sizes(more)) == 0
  {
    NoBytes(Sizes(more));
  }

  /** What a call did with the dictionary of its column `m`, whose chunks `came`. */
  ghost predicate CalledOf(outs: Option<seq<Out>>, m: nat, was: DictState, now: DictState, more: seq<Row>, came: seq<TextChunk>, binary: bool)
  {
    && AllValid(now.values) && ChunksOk(came)
    && if outs == None then was.values <= now.values && now.sent == was.sent && (was.gaveUp ==> now.gaveUp) && StoppedWith(was, now, came, binary)
       else m < |outs.value| && HandedOver(was, now, outs.value[m], more, AllListed(came), binary)
  }

  /** What a call did with the dictionaries: those of other columns are as they were. */
  ghost predicate Called(outs: Option<seq<Out>>, ks: seq<nat>, was: seq<DictState>, now: seq<DictState>, more: seq<seq<Row>>, came: seq<Delivery>,
      binary: seq<bool>)
  {
    && |was| == |now| == |binary| && |more| == |ks| && (outs != None ==> |outs.value| == |ks|)
    && (forall k :: 0 <= k < |now| && k !in ks ==> now[k] == was[k])
    && forall m :: 0 <= m < |ks| ==> ks[m] < |now| && CalledOf(outs, m, was[ks[m]], now[ks[m]], more[m], Of(came, m), binary[ks[m]])
  }

  /** The module's part of a call, and the chunks that came of it. */
  method CallOn(dicts: seq<Dict>, ks: seq<nat>, binary: seq<bool>, ds: seq<Delivery>, half: nat, core: nat, ghost more: seq<seq<Row>>)
    returns (outs: Option<seq<Out>>, ghost came: nat)
    requires |dicts| == |binary| && Apart(dicts) && AllValidDicts(dicts) && Apart(ks) && |more| == |ks|
    requires (forall m :: 0 <= m < |ks| ==> ks[m] < |dicts|) && Delivered(ds, more, Sorting.Picked(binary, ks))
    modifies dicts
    ensures AllValidDicts(dicts) && Called(outs, ks, old(StatesOf(dicts)), StatesOf(dicts), more, if outs == None then Before(ds, came) else ds, binary)
    ensures outs == None ==> core <= |ds| || Sum(Sizes(more)) > half
    ensures outs != None ==> core > |ds| && Sum(BytesOf(outs.value)) <= half
    ensures outs == None ==> came <= core && came <= |ds|
  {
    hide Delivered, Sum, Sizes, BytesOf, Dict.Valid, HandedOver, Later, Called, AllHanded, AllStopped, ListsAre, Before;
    var sub := Sorting.Picked(dicts, ks);
    ghost var was := StatesOf(dicts);
    assert StatesOf(sub) == Sorting.Picked(was, ks);
    forall k | 0 <= k < |dicts| && k !in ks
      ensures dicts[k] !in sub
    {
      assert forall m :: 0 <= m < |ks| ==> dicts[ks[m]] != dicts[k];
    }
    ghost var lists;
    outs, came, lists := CallText(sub, Sorting.Picked(binary, ks), ds, half, core, more);
    CallMeans(outs, dicts, sub, ks, was, more, ds, came, lists, binary);
  }

  lemma CallMeans(outs: Option<seq<Out>>, dicts: seq<Dict>, sub: seq<Dict>, ks: seq<nat>, was: seq<DictState>, more: seq<seq<Row>>, ds: seq<Delivery>,
      came: nat, lists: seq<seq<seq<byte>>>, binary: seq<bool>)
    requires |was| == |dicts| == |binary| && |more| == |ks| && (forall m :: 0 <= m < |ks| ==> ks[m] < |dicts|) && sub == Sorting.Picked(dicts, ks)
    requires forall k :: 0 <= k < |dicts| && k !in ks ==> dicts[k].Valid() && StateOf(dicts[k]) == was[k]
    requires if outs == None then AllStopped(Sorting.Picked(was, ks), sub, ds, came, Sorting.Picked(binary, ks))
             else |outs.value| == |ks| && AllHanded(Sorting.Picked(was, ks), sub, outs.value, more, lists, Sorting.Picked(binary, ks)) && ListsAre(lists, ds)
    ensures AllValidDicts(dicts) && Called(outs, ks, was, StatesOf(dicts), more, if outs == None then Before(ds, came) else ds, binary)
    ensures outs == None ==> came <= |ds|
  {
    hide Later, Dict.Valid, StateOf, AllHanded, AllStopped, CalledOf, Called, AllValidDicts, Sorting.Picked, Before;
    var cs := if outs == None then Before(ds, came) else ds;
    forall m | 0 <= m < |ks|
      ensures dicts[ks[m]].Valid() && CalledOf(outs, m, was[ks[m]], StateOf(dicts[ks[m]]), more[m], Of(cs, m), binary[ks[m]])
    {
      if outs == None {
        StoppedOne(Sorting.Picked(was, ks), sub, ds, came, Sorting.Picked(binary, ks), m);
      } else {
        HandedAt(Sorting.Picked(was, ks), sub, outs.value, more, lists, ds, Sorting.Picked(binary, ks), m);
      }
      Sorting.PickedAt(dicts, ks, m);
      Sorting.PickedAt(was, ks, m);
      Sorting.PickedAt(binary, ks, m);
      CallOfMeans(outs, m, dicts[ks[m]], was[ks[m]], more[m], Of(cs, m), binary[ks[m]]);
    }
    if outs == None {
      CameWithin(Sorting.Picked(was, ks), sub, ds, came, Sorting.Picked(binary, ks));
    }
    AllIn(dicts, ks);
    CalledAll(outs, ks, was, StatesOf(dicts), more, cs, binary);
  }

  lemma CameWithin(was: seq<DictState>, dicts: seq<Dict>, ds: seq<Delivery>, came: nat, binary: seq<bool>)
    requires AllStopped(was, dicts, ds, came, binary)
    ensures came <= |ds|
  {}

  lemma AllIn(dicts: seq<Dict>, ks: seq<nat>)
    requires forall k :: 0 <= k < |dicts| && k !in ks ==> dicts[k].Valid()
    requires forall m :: 0 <= m < |ks| ==> ks[m] < |dicts| && dicts[ks[m]].Valid()
    ensures AllValidDicts(dicts)
  {
    hide Dict.Valid;
    forall k | 0 <= k < |dicts|
      ensures dicts[k].Valid()
    {
      if k in ks {
        var m :| 0 <= m < |ks| && ks[m] == k;
        assert dicts[ks[m]].Valid();
      }
    }
  }

  lemma CalledAll(outs: Option<seq<Out>>, ks: seq<nat>, was: seq<DictState>, now: seq<DictState>, more: seq<seq<Row>>, came: seq<Delivery>,
      binary: seq<bool>)
    requires |was| == |now| == |binary| && |more| == |ks| && (outs != None ==> |outs.value| == |ks|)
    requires forall k :: 0 <= k < |now| && k !in ks ==> now[k] == was[k]
    requires forall m :: 0 <= m < |ks| ==> ks[m] < |now| && CalledOf(outs, m, was[ks[m]], now[ks[m]], more[m], Of(came, m), binary[ks[m]])
    ensures Called(outs, ks, was, now, more, came, binary)
  {
    hide CalledOf;
  }

  lemma CallOfMeans(outs: Option<seq<Out>>, m: nat, dict: Dict, was: DictState, more: seq<Row>, came: seq<TextChunk>, binary: bool)
    requires ChunksOk(came)
    requires if outs == None then Later(was, dict) && StoppedWith(was, StateOf(dict), came, binary)
             else dict.Valid() && m < |outs.value| && HandedOver(was, StateOf(dict), outs.value[m], more, AllListed(came), binary)
    ensures dict.Valid() && CalledOf(outs, m, was, StateOf(dict), more, came, binary)
  {
    hide HandedOver, StoppedWith;
  }

  lemma HandedAt(was: seq<DictState>, dicts: seq<Dict>, outs: seq<Out>, more: seq<seq<Row>>, lists: seq<seq<seq<byte>>>, ds: seq<Delivery>,
      binary: seq<bool>, m: nat)
    requires AllHanded(was, dicts, outs, more, lists, binary) && ListsAre(lists, ds) && m < |outs|
    ensures |was| == |dicts| == |more| == |binary| >= |outs| && ChunksOk(Of(ds, m))
    ensures dicts[m].Valid() && HandedOver(was[m], StateOf(dicts[m]), outs[m], more[m], AllListed(Of(ds, m)), binary[m])
  {
    hide HandedOver, ChunksOk;
  }

  lemma StoppedOne(was: seq<DictState>, dicts: seq<Dict>, ds: seq<Delivery>, came: nat, binary: seq<bool>, m: nat)
    requires AllStopped(was, dicts, ds, came, binary) && m < |dicts|
    ensures |was| == |dicts| == |binary| && ChunksOk(Of(Before(ds, came), m))
    ensures Later(was[m], dicts[m]) && StoppedWith(was[m], StateOf(dicts[m]), Of(Before(ds, came), m), binary[m])
  {
    hide Later, Coding, ChunksOk;
  }

  // ---------------------------------------------------------------- the columns' histories

  /** Every text column's history goes with its dictionary and with what the column shows. */
  ghost predicate AllTracked(shots: seq<Shot>, states: seq<DictState>, hs: seq<seq<Step>>, kinds: seq<Planner.Kind>, binary: seq<bool>,
      table: seq<seq<Row>>, done: seq<nat>)
  {
    && |shots| == |states| == |hs| == |kinds| == |binary| == |table| == |done|
    && forall k :: 0 <= k < |shots| && kinds[k].Text? ==>
         Tracks(shots[k].levels, shots[k].dictionary, states[k], hs[k], table[k], done[k], binary[k])
  }

  /** The place of `k` in `ks`. */
  function IndexIn(ks: seq<nat>, k: nat): nat
  {
    if ks == [] then 0 else if ks[|ks| - 1] == k then |ks| - 1 else IndexIn(ks[..|ks| - 1], k)
  }

  lemma {:induction false} IndexIs(ks: seq<nat>, m: nat)
    requires Apart(ks) && m < |ks|
    ensures IndexIn(ks, ks[m]) == m
  {
    if m < |ks| - 1 {
      IndexIs(ks[..|ks| - 1], m);
    }
  }

  /** A column's history after a call, whose text columns are `ks` and of which these chunks came. */
  function HistoryAfter(h: seq<Step>, k: nat, ks: seq<nat>, came: seq<Delivery>, gave: bool): seq<Step>
  {
    if k in ks then h + [Tried(Of(came, IndexIn(ks, k)), gave)] else h
  }

  function HistoriesAfter(hs: seq<seq<Step>>, ks: seq<nat>, came: seq<Delivery>, gave: bool): (next: seq<seq<Step>>)
    ensures |next| == |hs| && forall k :: 0 <= k < |hs| ==> next[k] == HistoryAfter(hs[k], k, ks, came, gave)
  {
    seq(|hs|, k requires 0 <= k < |hs| => HistoryAfter(hs[k], k, ks, came, gave))
  }

  /** The columns that a call handed over plain. */
  ghost function PlainOnes(outs: Option<seq<Out>>, ks: seq<nat>, n: nat): (plain: seq<bool>)
    requires outs != None ==> |outs.value| == |ks|
    ensures |plain| == n
  {
    seq(n, k => outs != None && exists m :: 0 <= m < |ks| && ks[m] == k && outs.value[m].Plain?)
  }

  /** What came of a call's column is the start of its rows, and all of them when the call gave its rows. */
  lemma CameRows(ds: seq<Delivery>, came: nat, gave: bool, more: seq<seq<Row>>, binary: seq<bool>, m: nat)
    requires |more| == |binary| && Delivered(ds, more, binary) && m < |more| && (!gave ==> came <= |ds|)
    ensures var cs := Of(if gave then ds else Before(ds, came), m);
            ChunksOk(cs) && AllRows(cs) <= more[m] && (gave ==> AllRows(cs) == more[m])
  {
    hide ChunkOk, TextRows, AllRows;
    assert Chunked(Of(ds, m), more[m], binary[m]);
    if !gave {
      OfPrefix(ds, came, m);
      var all, part := Of(ds, m), Of(ds[..came], m);
      AllRowsPrefix(all, |part|);
      assert all[..|part|] == part;
    }
  }

  /** A dictionary given up stays so. */
  lemma CalledKeeps(outs: Option<seq<Out>>, ks: seq<nat>, was: seq<DictState>, now: seq<DictState>, more: seq<seq<Row>>, came: seq<Delivery>,
      binary: seq<bool>)
    requires Called(outs, ks, was, now, more, came, binary)
    ensures |was| == |now| && forall k :: 0 <= k < |now| && was[k].gaveUp ==> now[k].gaveUp
  {
    hide AllValid, ChunksOk, StoppedWith, HandedOut, Coding;
    forall k | 0 <= k < |now| && was[k].gaveUp
      ensures now[k].gaveUp
    {
      if k in ks {
        var m :| 0 <= m < |ks| && ks[m] == k;
        assert CalledOf(outs, m, was[ks[m]], now[ks[m]], more[m], Of(came, m), binary[ks[m]]);
      }
    }
  }

  /** One column of a call. */
  lemma TrackedOne(outs: Option<seq<Out>>, m: nat, was: DictState, now: DictState, shot: Shot, next: Shot, cs: seq<TextChunk>, h: seq<Step>,
      all: seq<Row>, at: nat, to: nat, binary: bool)
    requires Tracks(shot.levels, shot.dictionary, was, h, all, at, binary) && at <= to <= |all|
    requires CalledOf(outs, m, was, now, all[at..to], cs, binary) && AllRows(cs) <= all[at..to]
    requires if outs == None then next == shot else AllRows(cs) == all[at..to] && ShownAs(shot, next, outs.value[m], now)
    ensures Tracks(next.levels, next.dictionary, now, h + [Tried(cs, outs != None)], all, if outs == None then at else to, binary)
    ensures outs != None ==> (next.dictionary <==> shot.dictionary && !outs.value[m].Plain?) && (outs.value[m].Plain? ==> binary || now.gaveUp)
  {
    hide AllRows, AllListed, ChunksOk, Tracks, Firsts, AllValid, Texts, Coding, Faithful;
    assert AllRows(cs) <= all[at..];
    if outs == None {
      TracksStopped(shot.levels, shot.dictionary, was, now, cs, h, all, at, binary);
    } else {
      TracksGiven(shot.levels, shot.dictionary, was, now, cs, outs.value[m], h, all, at, binary, next.levels);
    }
  }

  /** Column `m` of a call. */
  lemma TrackedAt(outs: Option<seq<Out>>, ks: seq<nat>, m: nat, ds: seq<Delivery>, came: nat, was: seq<DictState>, now: seq<DictState>,
      more: seq<seq<Row>>, shot: Shot, next: Shot, h: seq<Step>, binary: seq<bool>, all: seq<Row>, at: nat, to: nat)
    requires Apart(ks) && m < |ks| == |more| && (forall i :: 0 <= i < |ks| ==> ks[i] < |binary|) && |was| == |now| == |binary|
    requires at <= to <= |all| && more[m] == all[at..to]
    requires Delivered(ds, more, Sorting.Picked(binary, ks)) && (outs == None ==> came <= |ds|)
    requires Called(outs, ks, was, now, more, if outs == None then Before(ds, came) else ds, binary)
    requires Tracks(shot.levels, shot.dictionary, was[ks[m]], h, all, at, binary[ks[m]])
    requires if outs == None then next == shot else ShownAs(shot, next, outs.value[m], now[ks[m]])
    ensures Tracks(next.levels, next.dictionary, now[ks[m]], HistoryAfter(h, ks[m], ks, if outs == None then Before(ds, came) else ds, outs != None), all,
              if outs == None then at else to, binary[ks[m]])
    ensures outs != None ==> |outs.value| == |ks| && (next.dictionary <==> shot.dictionary && !outs.value[m].Plain?)
    ensures outs != None ==> outs.value[m].Plain? ==> binary[ks[m]] || now[ks[m]].gaveUp
  {
    hide Tracks, CalledOf, ShownAs, Delivered, Before, ChunksOk, AllRows, Of;
    var cs := if outs == None then Before(ds, came) else ds;
    IndexIs(ks, m);
    CameRows(ds, came, outs != None, more, Sorting.Picked(binary, ks), m);
    assert CalledOf(outs, m, was[ks[m]], now[ks[m]], more[m], Of(cs, m), binary[ks[m]]);
    TrackedOne(outs, m, was[ks[m]], now[ks[m]], shot, next, Of(cs, m), h, all, at, to, binary[ks[m]]);
  }

  lemma PlainAt(outs: Option<seq<Out>>, ks: seq<nat>, n: nat, m: nat)
    requires Apart(ks) && m < |ks| && ks[m] < n && (outs != None ==> |outs.value| == |ks|)
    ensures PlainOnes(outs, ks, n)[ks[m]] <==> outs != None && outs.value[m].Plain?
  {
    assert forall i :: 0 <= i < |ks| && ks[i] == ks[m] ==> i == m;
  }

  /** A call, of all its columns. */
  lemma TrackedCall(outs: Option<seq<Out>>, c: Call, ks: seq<nat>, ds: seq<Delivery>, came: nat, was: seq<DictState>, now: seq<DictState>,
      shots: seq<Shot>, next: seq<Shot>, hs: seq<seq<Step>>, kinds: seq<Planner.Kind>, binary: seq<bool>, table: seq<seq<Row>>, done: seq<nat>, start: nat)
    requires AllTracked(shots, was, hs, kinds, binary, table, done) && Fits(c, kinds, table, start) && ks == TextsOf(c.cols, kinds) && Apart(ks)
    requires forall i :: 0 <= i < |c.cols| ==> done[c.cols[i]] == c.start - start
    requires (forall m :: 0 <= m < |ks| ==> ks[m] < |binary|)
    requires var more := Asked(c, kinds, table, start);
             && |more| == |ks| && Delivered(ds, more, Sorting.Picked(binary, ks)) && (outs == None ==> came <= |ds|)
             && Called(outs, ks, was, now, more, if outs == None then Before(ds, came) else ds, binary)
    requires |next| == |shots| && if outs == None then next == shots else AllShownAs(shots, next, ks, outs.value, now, |ks|)
    ensures AllTracked(next, now, HistoriesAfter(hs, ks, if outs == None then Before(ds, came) else ds, outs != None), kinds, binary, table,
              if outs == None then done else Advanced(done, c.cols, c.start + c.count - start))
    ensures |now| == |binary| == |shots|
    ensures forall k :: 0 <= k < |shots| && kinds[k].Text? ==>
              && (next[k].dictionary <==> shots[k].dictionary && !PlainOnes(outs, ks, |shots|)[k])
              && (PlainOnes(outs, ks, |shots|)[k] ==> outs != None && (binary[k] || now[k].gaveUp))
  {
    hide Tracks, Called, ShownAs, Delivered, Before, PlainOnes, Asked, TextsOf, Of, IndexIn;
    CalledLengths(outs, ks, was, now, Asked(c, kinds, table, start), if outs == None then Before(ds, came) else ds, binary);
    var cs, more := if outs == None then Before(ds, came) else ds, Asked(c, kinds, table, start);
    TextsAre(c.cols, kinds);
    var at, to := c.start - start, c.start + c.count - start;
    forall k | 0 <= k < |shots| && kinds[k].Text?
      ensures Tracks(next[k].levels, next[k].dictionary, now[k], HistoryAfter(hs[k], k, ks, cs, outs != None), table[k],
                if k in c.cols && outs != None then to else done[k], binary[k])
      ensures next[k].dictionary <==> shots[k].dictionary && !PlainOnes(outs, ks, |shots|)[k]
      ensures PlainOnes(outs, ks, |shots|)[k] ==> outs != None && (binary[k] || now[k].gaveUp)
    {
      if k in ks {
        var m :| 0 <= m < |ks| && ks[m] == k;
        AskedAt(c, kinds, table, start, m);
        var i :| 0 <= i < |c.cols| && c.cols[i] == k;
        TrackedAt(outs, ks, m, ds, came, was, now, more, shots[k], next[k], hs[k], binary, table[k], at, to);
        PlainAt(outs, ks, |shots|, m);
      } else {
        PlainNot(outs, ks, |shots|, k);
      }
    }
  }

  lemma CalledLengths(outs: Option<seq<Out>>, ks: seq<nat>, was: seq<DictState>, now: seq<DictState>, more: seq<seq<Row>>, came: seq<Delivery>,
      binary: seq<bool>)
    requires Called(outs, ks, was, now, more, came, binary)
    ensures |was| == |now| == |binary| && |more| == |ks| && (outs != None ==> |outs.value| == |ks|)
    ensures forall k :: 0 <= k < |now| && k !in ks ==> now[k] == was[k]
  {}

  lemma AskedAt(c: Call, kinds: seq<Planner.Kind>, table: seq<seq<Row>>, start: nat, m: nat)
    requires Fits(c, kinds, table, start) && m < |TextsOf(c.cols, kinds)|
    ensures var ks := TextsOf(c.cols, kinds); var at, to := c.start - start, c.start + c.count - start;
            && |Asked(c, kinds, table, start)| == |ks| && ks[m] < |table| && 0 <= at <= to <= |table[ks[m]]|
            && Asked(c, kinds, table, start)[m] == table[ks[m]][at..to]
  {}

  lemma PlainNot(outs: Option<seq<Out>>, ks: seq<nat>, n: nat, k: nat)
    requires k < n && k !in ks && (outs != None ==> |outs.value| == |ks|)
    ensures !PlainOnes(outs, ks, n)[k]
  {}

  /** One call: its columns' rows are placed, or it is over budget and every column is as it was. */
  method OneCall(dicts: seq<Dict>, cols: seq<Column>, kinds: seq<Planner.Kind>, binary: seq<bool>, core: Core, a: nat, c: Call, half: nat, start: nat,
      ghost table: seq<seq<Row>>, ghost done: seq<nat>, ghost hs: seq<seq<Step>>)
    returns (over: bool, ghost came: nat, ghost plain: seq<bool>)
    requires Apart(dicts) && AllValidDicts(dicts) && ApartCols(cols) && AllRead(cols, StatesOf(dicts), kinds, binary, table, done)
    requires AllTracked(Shots(cols), StatesOf(dicts), hs, kinds, binary, table, done)
    requires Fits(c, kinds, table, start) && Serves(core, kinds, binary, table, start)
    requires forall i :: 0 <= i < |c.cols| ==> done[c.cols[i]] == c.start - start
    modifies dicts, cols, Arrays(cols)
    ensures AllValidDicts(dicts) && ApartCols(cols) && forall o <- Arrays(cols) :: o in old(Arrays(cols)) || fresh(o)
    ensures AllRead(cols, StatesOf(dicts), kinds, binary, table, if over then done else Advanced(done, c.cols, c.start + c.count - start))
    ensures if over then TooMuch(core, a, c, kinds, table, start, half) else Unstopped(core, a, c)
    ensures over ==> forall k :: 0 <= k < |cols| ==> cols[k].seen == old(cols[k].seen) && dicts[k].sent == old(dicts[k].sent)
    ensures over ==> came <= core.stops(a) && came <= |core.deliver(a, c)|
    ensures forall k :: 0 <= k < |dicts| && old(dicts[k].gaveUp) ==> dicts[k].gaveUp
    ensures AllTracked(Shots(cols), StatesOf(dicts), HistoriesAfter(hs, TextsOf(c.cols, kinds), CameOf(core, a, c, came, over), !over), kinds, binary,
              table, if over then done else Advanced(done, c.cols, c.start + c.count - start))
    ensures PlainHanded(old(Shots(cols)), Shots(cols), StatesOf(dicts), plain, kinds, binary, over)
  {
    hide *;
    ReadLengths(cols, StatesOf(dicts), kinds, binary, table, done);
    CallColumns(c, kinds, table, start);
    var ks := TextsOf(c.cols, kinds);
    TextsAre(c.cols, kinds);
    var ds := core.deliver(a, c);
    ghost var was, more, shots := StatesOf(dicts), Asked(c, kinds, table, start), Shots(cols);
    SentOf(dicts);
    Served(core, a, c, kinds, binary, table, start);
    var outs;
    outs, came := CallBeside(dicts, cols, ks, binary, ds, half, if c.count == 0 then |ds| + 1 else core.stops(a), more, kinds, table, done);
    over := outs == None;
    if over {
      IsTooMuch(core, a, c, kinds, table, start, half);
    } else {
      IsUnstopped(core, a, c);
    }
    ghost var now := StatesOf(dicts);
    SentOf(dicts);
    Settle(cols, ks, outs, c, binary, start, ds, came, was, now, kinds, table, done);
    CalledKeeps(outs, ks, was, now, more, if over then Before(ds, came) else ds, binary);
    TrackedCall(outs, c, ks, ds, came, was, now, shots, Shots(cols), hs, kinds, binary, table, done, start);
    plain := PlainOnes(outs, ks, |cols|);
    PlainIs(shots, Shots(cols), now, plain, kinds, binary, over);
    CameIs(core, a, c, came, over);
  }

  /** The chunks that came of call `a`. */
  function CameOf(core: Core, a: nat, c: Call, came: nat, over: bool): seq<Delivery>
  {
    if over then Before(core.deliver(a, c), came) else core.deliver(a, c)
  }

  lemma CameIs(core: Core, a: nat, c: Call, came: nat, over: bool)
    ensures CameOf(core, a, c, came, over) == if over then Before(core.deliver(a, c), came) else core.deliver(a, c)
  {}

  /** A column is no dictionary column after it has been handed over plain, and stays one otherwise; a text column is handed over plain only once its dictionary is given up. */
  ghost predicate PlainHanded(was: seq<Shot>, now: seq<Shot>, states: seq<DictState>, plain: seq<bool>, kinds: seq<Planner.Kind>, binary: seq<bool>,
      over: bool)
  {
    && |was| == |now| == |states| == |plain| == |kinds| == |binary|
    && forall k :: 0 <= k < |now| && kinds[k].Text? ==>
         (now[k].dictionary <==> was[k].dictionary && !plain[k]) && (plain[k] ==> !over && (binary[k] || states[k].gaveUp))
  }

  lemma PlainIs(was: seq<Shot>, now: seq<Shot>, states: seq<DictState>, plain: seq<bool>, kinds: seq<Planner.Kind>, binary: seq<bool>, over: bool)
    requires |was| == |now| == |states| == |plain| == |kinds| == |binary|
    requires forall k :: 0 <= k < |now| && kinds[k].Text? ==>
               (now[k].dictionary <==> was[k].dictionary && !plain[k]) && (plain[k] ==> !over && (binary[k] || states[k].gaveUp))
    ensures PlainHanded(was, now, states, plain, kinds, binary, over)
  {}

  lemma IsUnstopped(core: Core, a: nat, c: Call)
    requires (if c.count == 0 then |core.deliver(a, c)| + 1 else core.stops(a)) > |core.deliver(a, c)|
    ensures Unstopped(core, a, c)
  {}

  /** The module's part of a call changes nothing of the columns. */
  method CallBeside(dicts: seq<Dict>, ghost cols: seq<Column>, ks: seq<nat>, binary: seq<bool>, ds: seq<Delivery>, half: nat, core: nat,
      ghost more: seq<seq<Row>>, ghost kinds: seq<Planner.Kind>, ghost table: seq<seq<Row>>, ghost done: seq<nat>)
    returns (outs: Option<seq<Out>>, ghost came: nat)
    requires |dicts| == |binary| && Apart(dicts) && AllValidDicts(dicts) && Apart(ks) && |more| == |ks|
    requires (forall m :: 0 <= m < |ks| ==> ks[m] < |dicts|) && Delivered(ds, more, Sorting.Picked(binary, ks))
    requires ApartCols(cols) && AllRead(cols, StatesOf(dicts), kinds, binary, table, done)
    modifies dicts
    ensures AllValidDicts(dicts) && Called(outs, ks, old(StatesOf(dicts)), StatesOf(dicts), more, if outs == None then Before(ds, came) else ds, binary)
    ensures (outs == None ==> came <= core && came <= |ds|) && Shots(cols) == old(Shots(cols))
    ensures outs == None ==> core <= |ds| || Sum(Sizes(more)) > half
    ensures outs != None ==> core > |ds| && Sum(BytesOf(outs.value)) <= half
    ensures ApartCols(cols) && AllRead(cols, old(StatesOf(dicts)), kinds, binary, table, done) && Arrays(cols) == old(Arrays(cols))
    ensures forall k :: 0 <= k < |cols| ==> cols[k].seen == old(cols[k].seen)
  {
    hide Delivered, Sum, Sizes, BytesOf, Dict.Valid, Called, Reads, AllRead, ApartCols, Before, Shots;
    ghost var was, arrays, shots := StatesOf(dicts), Arrays(cols), Shots(cols);
    outs, came := CallOn(dicts, ks, binary, ds, half, core, more);
    assert Arrays(cols) == arrays && Shots(cols) == shots;
    assert AllRead(cols, was, kinds, binary, table, done);
  }

  lemma CallColumns(c: Call, kinds: seq<Planner.Kind>, table: seq<seq<Row>>, start: nat)
    requires Fits(c, kinds, table, start)
    ensures |kinds| == |table| && Apart(c.cols) && c.start >= start && forall i :: 0 <= i < |c.cols| ==> c.cols[i] < |kinds|
  {}

  lemma SentOf(dicts: seq<Dict>)
    requires AllValidDicts(dicts)
    ensures |StatesOf(dicts)| == |dicts|
    ensures forall k :: 0 <= k < |dicts| ==> StatesOf(dicts)[k].sent == dicts[k].sent && StatesOf(dicts)[k].gaveUp == dicts[k].gaveUp
  {
    hide Dict.Valid;
  }

  lemma IsTooMuch(core: Core, a: nat, c: Call, kinds: seq<Planner.Kind>, table: seq<seq<Row>>, start: nat, half: nat)
    requires Fits(c, kinds, table, start)
    requires var ds := core.deliver(a, c);
             (if c.count == 0 then |ds| + 1 else core.stops(a)) <= |ds| || Sum(Sizes(Asked(c, kinds, table, start))) > half
    ensures TooMuch(core, a, c, kinds, table, start, half) && c.count > 0
  {
    hide Sum, Sizes;
    NothingAsked(c, kinds, table, start);
  }

  lemma ReadLengths(cols: seq<Column>, states: seq<DictState>, kinds: seq<Planner.Kind>, binary: seq<bool>, table: seq<seq<Row>>, done: seq<nat>)
    requires AllRead(cols, states, kinds, binary, table, done)
    ensures |cols| == |states| == |kinds| == |binary| == |table| == |done|
  {}

  /** JavaScript's part of a call. */
  method Settle(cols: seq<Column>, ks: seq<nat>, outs: Option<seq<Out>>, c: Call, binary: seq<bool>, start: nat,
      ghost ds: seq<Delivery>, ghost came: nat, ghost was: seq<DictState>, ghost now: seq<DictState>, ghost kinds: seq<Planner.Kind>,
      ghost table: seq<seq<Row>>, ghost done: seq<nat>)
    requires ApartCols(cols) && AllRead(cols, was, kinds, binary, table, done) && |binary| == |kinds| == |done| && Fits(c, kinds, table, start)
    requires forall i :: 0 <= i < |c.cols| ==> done[c.cols[i]] == c.start - start
    requires ks == TextsOf(c.cols, kinds) && Apart(ks) && Called(outs, ks, was, now, Asked(c, kinds, table, start), if outs == None then Before(ds, came) else ds, binary)
    requires |Asked(c, kinds, table, start)| == |ks| && Delivered(ds, Asked(c, kinds, table, start), Sorting.Picked(binary, ks))
    modifies cols, Arrays(cols)
    ensures ApartCols(cols) && forall o <- Arrays(cols) :: o in old(Arrays(cols)) || fresh(o)
    ensures AllRead(cols, now, kinds, binary, table, if outs == None then done else Advanced(done, c.cols, c.start + c.count - start))
    ensures outs == None ==> |now| == |was| && forall k :: 0 <= k < |now| ==> now[k].sent == was[k].sent
    ensures outs == None ==> forall k :: 0 <= k < |cols| ==> cols[k].seen == old(cols[k].seen)
    ensures if outs == None then Shots(cols) == old(Shots(cols)) else |outs.value| == |ks| && AllShownAs(old(Shots(cols)), Shots(cols), ks, outs.value, now, |ks|)
  {
    hide Reads, Delivered, Asked, Called, AllRead, PlacedTo, ApartCols, Before, AllShownAs, Shots;
    ReadLengths(cols, was, kinds, binary, table, done);
    if outs == None {
      AllStill(cols, ks, was, now, kinds, binary, table, done, Asked(c, kinds, table, start), Before(ds, came));
    } else {
      AllWaiting(c, cols, ds, outs.value, was, now, kinds, binary, table, done, start);
      PlaceAll(cols, ks, outs.value, binary, c.start - start, c.start + c.count - start, was, now, kinds, table, done);
      TextAdvanced(c.cols, cols, now, kinds, binary, table, done, c.start + c.count - start);
    }
  }

  lemma Served(core: Core, a: nat, c: Call, kinds: seq<Planner.Kind>, binary: seq<bool>, table: seq<seq<Row>>, start: nat)
    requires |binary| == |kinds| && Serves(core, kinds, binary, table, start) && Fits(c, kinds, table, start)
    ensures |Asked(c, kinds, table, start)| == |TextsOf(c.cols, kinds)|
    ensures Delivered(core.deliver(a, c), Asked(c, kinds, table, start), Sorting.Picked(binary, TextsOf(c.cols, kinds)))
  {}

  /** A call of no rows asks for no text. */
  lemma NothingAsked(c: Call, kinds: seq<Planner.Kind>, table: seq<seq<Row>>, start: nat)
    requires Fits(c, kinds, table, start)
    ensures c.count == 0 ==> Sum(Sizes(Asked(c, kinds, table, start))) == 0
  {
    if c.count == 0 {
      NoText(Asked(c, kinds, table, start));
    }
  }

  lemma AllStill(cols: seq<Column>, ks: seq<nat>, was: seq<DictState>, now: seq<DictState>, kinds: seq<Planner.Kind>, binary: seq<bool>,
      table: seq<seq<Row>>,
      done: seq<nat>, more: seq<seq<Row>>, came: seq<Delivery>)
    requires AllRead(cols, was, kinds, binary, table, done) && Called(None, ks, was, now, more, came, binary)
    ensures AllRead(cols, now, kinds, binary, table, done) && |now| == |was| && forall k :: 0 <= k < |now| ==> now[k].sent == was[k].sent
  {
    hide Reads, AllValid, StoppedWith, ChunksOk;
    forall k | 0 <= k < |cols|
      ensures now[k].sent == was[k].sent && (kinds[k].Text? ==> Reads(cols[k], now[k], table[k], done[k], binary[k]))
    {
      if k in ks {
        var m :| 0 <= m < |ks| && ks[m] == k;
        assert CalledOf(None, m, was[ks[m]], now[ks[m]], more[m], Of(came, m), binary[ks[m]]);
      }
      if k in ks && kinds[k].Text? {
        StillReads(cols[k], was[k], now[k], table[k], done[k], binary[k]);
      }
    }
  }

  /** A call's column is read to where the call begins, and waits for what the call handed over. */
  lemma OneWaiting(c: Call, cols: seq<Column>, ds: seq<Delivery>, outs: seq<Out>, was: seq<DictState>, now: seq<DictState>, kinds: seq<Planner.Kind>,
      binary: seq<bool>, table: seq<seq<Row>>, done: seq<nat>, start: nat, m: nat)
    requires AllRead(cols, was, kinds, binary, table, done) && Fits(c, kinds, table, start)
    requires var ks, more := TextsOf(c.cols, kinds), Asked(c, kinds, table, start);
             && m < |more| == |ks| && Called(Some(outs), ks, was, now, more, ds, binary)
             && done[ks[m]] == c.start - start && kinds[ks[m]].Text? && TextRows(more[m], binary[ks[m]])
    ensures var ks := TextsOf(c.cols, kinds);
            && |outs| == |ks| && |cols| == |was| == |now| == |kinds| == |binary| == |table| == |done|
            && Waiting(cols[ks[m]], was[ks[m]], now[ks[m]], outs[m], table[ks[m]], c.start - start, c.start + c.count - start, binary[ks[m]])
  {
    hide Reads, AllValid, HandedOut, Coding, ChunksOk, Of, TextsOf, TextRows;
    var k := TextsOf(c.cols, kinds)[m];
    assert CalledOf(Some(outs), m, was[k], now[k], Asked(c, kinds, table, start)[m], Of(ds, m), binary[k]);
    assert Reads(cols[k], was[k], table[k], done[k], binary[k]);
  }

  lemma AllWaiting(c: Call, cols: seq<Column>, ds: seq<Delivery>, outs: seq<Out>, was: seq<DictState>, now: seq<DictState>, kinds: seq<Planner.Kind>,
      binary: seq<bool>, table: seq<seq<Row>>, done: seq<nat>, start: nat)
    requires AllRead(cols, was, kinds, binary, table, done) && Fits(c, kinds, table, start)
    requires forall i :: 0 <= i < |c.cols| ==> done[c.cols[i]] == c.start - start
    requires var ks := TextsOf(c.cols, kinds); var more := Asked(c, kinds, table, start);
             |more| == |ks| && Delivered(ds, more, Sorting.Picked(binary, ks)) && Called(Some(outs), ks, was, now, more, ds, binary)
    ensures var ks := TextsOf(c.cols, kinds);
            && |outs| == |ks| && |cols| == |was| == |now| == |kinds| == |binary| == |table| == |done|
            && PlacedTo(cols, ks, was, now, outs, kinds, binary, table, done, c.start - start, c.start + c.count - start, 0)
  {
    hide Reads, AllValid, HandedOut, Delivered, Coding, ChunksOk, TextRows, CalledOf, Waiting, Of, TextsOf, Asked;
    var ks, more := TextsOf(c.cols, kinds), Asked(c, kinds, table, start);
    AllTextRows(ds, more, Sorting.Picked(binary, ks));
    TextsAre(c.cols, kinds);
    forall m | 0 <= m < |ks|
      ensures Waiting(cols[ks[m]], was[ks[m]], now[ks[m]], outs[m], table[ks[m]], c.start - start, c.start + c.count - start, binary[ks[m]])
    {
      OneWaiting(c, cols, ds, outs, was, now, kinds, binary, table, done, start, m);
    }
  }

  lemma TextAdvanced(columns: seq<nat>, cols: seq<Column>, states: seq<DictState>, kinds: seq<Planner.Kind>, binary: seq<bool>, table: seq<seq<Row>>,
      done: seq<nat>, to: nat)
    requires |kinds| == |done| && forall i :: 0 <= i < |columns| ==> columns[i] < |kinds|
    requires AllRead(cols, states, kinds, binary, table, Advanced(done, TextsOf(columns, kinds), to))
    ensures AllRead(cols, states, kinds, binary, table, Advanced(done, columns, to))
  {
    hide Reads;
    TextsAre(columns, kinds);
  }

  // ---------------------------------------------------------------- the whole read

  lemma {:induction false} LeftGrows(work: seq<Call>, k: nat, from: nat, to: nat)
    requires Gather.Left(work, k, from, to)
    ensures from <= to
    decreases |work|
  {
    if work != [] {
      var c := work[|work| - 1];
      LeftGrows(work[..|work| - 1], k, if k in c.cols then from + c.count else from, to);
    }
  }

  /** A column the call on top names: the call starts where it has been read to, and ends within it. */
  lemma TopOf(work: seq<Call>, trace: seq<Gather.Event>, n: nat, start: nat, end: nat, k: nat)
    requires work != [] && Gather.State(work, trace, n, start, end) && k < n && k in work[|work| - 1].cols
    ensures work[|work| - 1].start == Gather.Front(trace, k, start) && work[|work| - 1].start + work[|work| - 1].count <= end
  {
    var c := work[|work| - 1];
    assert Gather.Left(work, k, Gather.Front(trace, k, start), end);
    LeftGrows(work[..|work| - 1], k, c.start + c.count, end);
  }

  /** The call on top is within the table, and starts where its columns have been read to. */
  lemma TopFits(work: seq<Call>, trace: seq<Gather.Event>, kinds: seq<Planner.Kind>, table: seq<seq<Row>>, start: nat, count: nat, done: seq<nat>)
    requires work != [] && Gather.State(work, trace, |kinds|, start, start + count)
    requires |table| == |kinds| && forall k :: 0 <= k < |table| ==> |table[k]| == count
    requires |done| == |kinds| && forall k :: 0 <= k < |done| ==> start + done[k] == Gather.Front(trace, k, start)
    ensures var c := work[|work| - 1];
            && Fits(c, kinds, table, start) && start <= c.start && forall i :: 0 <= i < |c.cols| ==> c.cols[i] < |done| && done[c.cols[i]] == c.start - start
  {
    hide Gather.Left, Gather.InOrder, Gather.Front;
    var c := work[|work| - 1];
    assert Planner.CallOk(c, |kinds|) && c.cols[0] in c.cols;
    forall i | 0 <= i < |c.cols|
      ensures c.start == start + done[c.cols[i]] && c.start + c.count <= start + count
    {
      TopOf(work, trace, |kinds|, start, start + count, c.cols[i]);
    }
    assert c.start == start + done[c.cols[0]] && c.start + c.count <= start + count;
  }

  /** The bytes a call of these columns takes but for its text. */
  function Fixed(columns: seq<nat>, kinds: seq<Planner.Kind>): nat
    requires forall i :: 0 <= i < |columns| ==> columns[i] < |kinds|
  {
    if columns == [] then 0
    else Fixed(columns[..|columns| - 1], kinds) + if kinds[columns[|columns| - 1]].Levels? then 4 else 9
  }

  /** Which of the columns are of levels. */
  ghost function LevelsAt(columns: seq<nat>, kinds: seq<Planner.Kind>): set<int>
    requires forall i :: 0 <= i < |columns| ==> columns[i] < |kinds|
  {
    set i | 0 <= i < |columns| && kinds[columns[i]].Levels?
  }

  lemma LevelsPush(columns: seq<nat>, kinds: seq<Planner.Kind>)
    requires columns != [] && forall i :: 0 <= i < |columns| ==> columns[i] < |kinds|
    ensures var n := |columns| - 1; var levels := LevelsAt(columns[..n], kinds);
            n !in levels && LevelsAt(columns, kinds) == if kinds[columns[n]].Levels? then levels + {n} else levels
  {}

  /** Nine bytes for each column, but four for one of levels. */
  lemma {:induction false} FixedIs(columns: seq<nat>, kinds: seq<Planner.Kind>)
    requires forall i :: 0 <= i < |columns| ==> columns[i] < |kinds|
    ensures Fixed(columns, kinds) == 9 * |columns| - 5 * |LevelsAt(columns, kinds)|
  {
    if columns != [] {
      hide LevelsAt;
      FixedIs(columns[..|columns| - 1], kinds);
      LevelsPush(columns, kinds);
    }
  }

  /** The text a call may hold: half of what its other buffers leave of the budget, for the module holds it twice. */
  function HalfOf(c: Call, kinds: seq<Planner.Kind>, budget: nat): (half: nat)
    requires forall i :: 0 <= i < |c.cols| ==> c.cols[i] < |kinds|
    ensures var left := budget - c.count * Fixed(c.cols, kinds); if left <= 1 then half == 0 else left - 1 <= 2 * half <= left
  {
    var fixed := c.count * Fixed(c.cols, kinds);
    (if fixed + 1 < budget then budget - fixed else 1) / 2
  }

  /** Every call over budget had a reason to be, and no other was stopped. */
  ghost predicate Excused(trace: seq<Gather.Event>, core: Core, kinds: seq<Planner.Kind>, table: seq<seq<Row>>, start: nat, budget: nat)
  {
    forall i :: 0 <= i < |trace| ==> Reasoned(core, i, trace[i].call, trace[i].over, kinds, table, start, budget)
  }

  ghost predicate Reasoned(core: Core, a: nat, c: Call, over: bool, kinds: seq<Planner.Kind>, table: seq<seq<Row>>, start: nat, budget: nat)
  {
    && (forall j :: 0 <= j < |c.cols| ==> c.cols[j] < |kinds|)
    && if over then TooMuch(core, a, c, kinds, table, start, HalfOf(c, kinds, budget)) else Unstopped(core, a, c)
  }

  method NewColumns(n: nat, count: nat, asDictionary: bool, binary: seq<bool>) returns (cols: seq<Column>)
    requires |binary| == n
    ensures |cols| == n && ApartCols(cols) && forall k :: 0 <= k < n ==> fresh(cols[k]) && cols[k].Holds([], binary[k]) && cols[k].seen == []
    ensures (forall o <- Arrays(cols) :: fresh(o)) && forall k :: 0 <= k < n ==> cols[k].count == count
    ensures forall k :: 0 <= k < n ==> cols[k].levels == [] && cols[k].dictionary == (asDictionary && !binary[k])
  {
    hide Column.Holds;
    cols := [];
    while |cols| < n
      invariant |cols| <= n && ApartCols(cols)
      invariant forall k :: 0 <= k < |cols| ==>
                  && fresh(cols[k]) && fresh(cols[k].values) && fresh(cols[k].codes) && fresh(cols[k].missing)
                  && cols[k].Holds([], binary[k]) && cols[k].seen == [] && cols[k].count == count
                  && cols[k].levels == [] && cols[k].dictionary == (asDictionary && !binary[k])
    {
      var col := new Column(count, asDictionary && !binary[|cols|]);
      NothingHeld(col, binary[|cols|]);
      cols := cols + [col];
    }
  }

  method NewDicts(n: nat, hash: seq<byte> -> nat, roomy: bool) returns (dicts: seq<Dict>)
    ensures |dicts| == n && Apart(dicts) && AllValidDicts(dicts) && forall k :: 0 <= k < n ==> fresh(dicts[k]) && dicts[k].roomy == roomy
    ensures StatesOf(dicts) == NewStates(n)
  {
    hide Dict.Valid;
    dicts := [];
    while |dicts| < n
      invariant |dicts| <= n && Apart(dicts)
      invariant forall k :: 0 <= k < |dicts| ==> fresh(dicts[k]) && dicts[k].roomy == roomy && dicts[k].Valid() && StateOf(dicts[k]) == NewState()
    {
      var dict := NewDict(hash, roomy);
      dicts := dicts + [dict];
    }
  }

  method NewDictsBeside(cols: seq<Column>, ghost states: seq<DictState>, hash: seq<byte> -> nat, roomy: bool, ghost kinds: seq<Planner.Kind>,
      ghost binary: seq<bool>, ghost table: seq<seq<Row>>, ghost done: seq<nat>)
    returns (dicts: seq<Dict>)
    requires AllRead(cols, states, kinds, binary, table, done) && forall k :: 0 <= k < |cols| ==> cols[k].seen == []
    ensures |dicts| == |cols| && Apart(dicts) && AllValidDicts(dicts) && forall k :: 0 <= k < |dicts| ==> fresh(dicts[k]) && dicts[k].roomy == roomy
    ensures AllRead(cols, StatesOf(dicts), kinds, binary, table, done) && Arrays(cols) == old(Arrays(cols)) && Shots(cols) == old(Shots(cols))
    ensures StatesOf(dicts) == NewStates(|cols|)
  {
    hide Dict.Valid, Reads, AllRead, Shots;
    NewRead(cols, states, kinds, binary, table, done);
    ghost var arrays, shots := Arrays(cols), Shots(cols);
    dicts := NewDicts(|cols|, hash, roomy);
    assert Arrays(cols) == arrays && Shots(cols) == shots;
    assert AllRead(cols, NewStates(|cols|), kinds, binary, table, done);
  }

  function NewStates(n: nat): (states: seq<DictState>)
    ensures |states| == n
  {
    seq(n, _ => NewState())
  }

  /** Columns that have seen no values go with dictionaries that have none. */
  lemma NewRead(cols: seq<Column>, states: seq<DictState>, kinds: seq<Planner.Kind>, binary: seq<bool>, table: seq<seq<Row>>, done: seq<nat>)
    requires AllRead(cols, states, kinds, binary, table, done) && forall k :: 0 <= k < |cols| ==> cols[k].seen == []
    ensures AllRead(cols, NewStates(|cols|), kinds, binary, table, done)
  {
    hide Column.Holds;
    NothingSeen();
  }

  lemma NoneRead(cols: seq<Column>, kinds: seq<Planner.Kind>, binary: seq<bool>, table: seq<seq<Row>>, done: seq<nat>)
    requires |cols| == |kinds| == |binary| == |table| == |done|
    requires forall k :: 0 <= k < |cols| ==> cols[k].seen == [] && cols[k].Holds([], binary[k]) && done[k] == 0 && cols[k].count == |table[k]|
    ensures AllRead(cols, NewStates(|cols|), kinds, binary, table, done)
  {
    hide Column.Holds;
    NothingSeen();
    assert forall k :: 0 <= k < |cols| ==> table[k][..0] == [];
  }

  lemma ExcusedStep(trace: seq<Gather.Event>, c: Call, over: bool, core: Core, kinds: seq<Planner.Kind>, table: seq<seq<Row>>, start: nat,
      budget: nat)
    requires Excused(trace, core, kinds, table, start, budget) && Reasoned(core, |trace|, c, over, kinds, table, start, budget)
    ensures Excused(trace + [Gather.Event(c, over)], core, kinds, table, start, budget)
  {
    hide Reasoned;
  }

  lemma PlanFits(kinds: seq<Planner.Kind>, calls: seq<Call>, start: nat, count: nat)
    requires Planner.Tiles(calls, |kinds|, start, start + count)
    ensures Gather.State(Gather.Reverse(calls), [], |kinds|, start, start + count)
    ensures forall k :: 0 <= k < |kinds| ==> Gather.Front([], k, start) == start
  {
    Gather.Begin(calls, |kinds|, start, start + count);
  }

  /** With nothing left on the stack every text column holds all its rows. */
  lemma AllDone(trace: seq<Gather.Event>, cols: seq<Column>, states: seq<DictState>, kinds: seq<Planner.Kind>, binary: seq<bool>,
      table: seq<seq<Row>>,
      start: nat, count: nat, done: seq<nat>)
    requires Gather.State([], trace, |kinds|, start, start + count) && AllRead(cols, states, kinds, binary, table, done)
    requires forall k :: 0 <= k < |table| ==> |table[k]| == count
    requires forall k :: 0 <= k < |done| ==> start + done[k] == Gather.Front(trace, k, start)
    ensures forall k :: 0 <= k < |kinds| && kinds[k].Text? ==> done[k] == count && cols[k].Holds(table[k], binary[k])
  {
    hide Column.Holds;
    forall k | 0 <= k < |kinds| && kinds[k].Text?
      ensures done[k] == count && cols[k].Holds(table[k], binary[k])
    {
      assert Gather.Left([], k, Gather.Front(trace, k, start), start + count);
      assert Reads(cols[k], states[k], table[k], done[k], binary[k]);
      assert table[k][..done[k]] == table[k];
    }
  }

  predicate NoneGiven(trace: seq<Gather.Event>) {
    forall i :: 0 <= i < |trace| ==> trace[i].over
  }

  /** Every column's history when a call begins: while none has given rows, each begins the dictionaries again. */
  function HistoriesBegun(hs: seq<seq<Step>>, first: bool): (next: seq<seq<Step>>)
    ensures |next| == |hs| && forall k :: 0 <= k < |hs| ==> next[k] == if first then hs[k] + [Anew] else hs[k]
  {
    seq(|hs|, k requires 0 <= k < |hs| => if first then hs[k] + [Anew] else hs[k])
  }

  /** A call's text columns, as the table has them. */
  function TextsIn(c: Call, kinds: seq<Planner.Kind>): seq<nat>
  {
    if forall i :: 0 <= i < |c.cols| ==> c.cols[i] < |kinds| then TextsOf(c.cols, kinds) else []
  }

  /** Column `k`'s history, by the calls made and the chunks that came of each. */
  function HistoryOf(trace: seq<Gather.Event>, came: seq<nat>, core: Core, kinds: seq<Planner.Kind>, k: nat): seq<Step>
    requires |came| == |trace|
  {
    if trace == [] then [] else
    var n := |trace| - 1;
    var c, over := trace[n].call, trace[n].over;
    var h := HistoryOf(trace[..n], came[..n], core, kinds, k);
    HistoryAfter(if NoneGiven(trace[..n]) then h + [Anew] else h, k, TextsIn(c, kinds), CameOf(core, n, c, came[n], over), !over)
  }

  lemma HistoryMore(trace: seq<Gather.Event>, came: seq<nat>, e: Gather.Event, m: nat, core: Core, kinds: seq<Planner.Kind>, k: nat)
    requires |came| == |trace|
    ensures var h := HistoryOf(trace, came, core, kinds, k);
            HistoryOf(trace + [e], came + [m], core, kinds, k)
            == HistoryAfter(if NoneGiven(trace) then h + [Anew] else h, k, TextsIn(e.call, kinds), CameOf(core, |trace|, e.call, m, e.over), !e.over)
  {
    hide HistoryAfter, TextsIn, CameOf;
    assert (trace + [e])[..|trace|] == trace && (came + [m])[..|came|] == came;
  }

  lemma AnewTracked(shots: seq<Shot>, states: seq<DictState>, hs: seq<seq<Step>>, kinds: seq<Planner.Kind>, binary: seq<bool>,
      table: seq<seq<Row>>, done: seq<nat>)
    requires AllTracked(shots, states, hs, kinds, binary, table, done) && forall k :: 0 <= k < |done| ==> done[k] == 0
    ensures AllTracked(shots, NewStates(|shots|), HistoriesBegun(hs, true), kinds, binary, table, done)
  {
    hide Tracks;
    forall k | 0 <= k < |shots| && kinds[k].Text?
      ensures Tracks(shots[k].levels, shots[k].dictionary, NewState(), hs[k] + [Anew], table[k], done[k], binary[k])
    {
      TracksAnew(shots[k].levels, shots[k].dictionary, states[k], hs[k], table[k], binary[k]);
    }
  }

  /** A call, the first to give its rows of which starts the read: dictionaries then begin again. */
  method TableCall(dicts: seq<Dict>, cols: seq<Column>, first: bool, hash: seq<byte> -> nat, roomy: bool, kinds: seq<Planner.Kind>, binary: seq<bool>,
      core: Core, a: nat, c: Call, half: nat, start: nat, ghost table: seq<seq<Row>>, ghost done: seq<nat>, ghost hs: seq<seq<Step>>)
    returns (over: bool, now: seq<Dict>, ghost came: nat, ghost plain: seq<bool>)
    requires Apart(dicts) && AllValidDicts(dicts) && ApartCols(cols) && AllRead(cols, StatesOf(dicts), kinds, binary, table, done)
    requires AllTracked(Shots(cols), StatesOf(dicts), hs, kinds, binary, table, done)
    requires Fits(c, kinds, table, start) && Serves(core, kinds, binary, table, start)
    requires forall i :: 0 <= i < |c.cols| ==> done[c.cols[i]] == c.start - start
    requires first ==> (forall k :: 0 <= k < |cols| ==> cols[k].seen == []) && forall k :: 0 <= k < |done| ==> done[k] == 0
    requires forall k :: 0 <= k < |dicts| ==> dicts[k].roomy == roomy
    modifies dicts, cols, Arrays(cols)
    ensures Apart(now) && AllValidDicts(now) && ApartCols(cols) && forall o <- Arrays(cols) :: o in old(Arrays(cols)) || fresh(o)
    ensures (now == dicts || forall k :: 0 <= k < |now| ==> fresh(now[k])) && (!first ==> now == dicts)
    ensures forall k :: 0 <= k < |now| ==> now[k].roomy == roomy
    ensures AllRead(cols, StatesOf(now), kinds, binary, table, if over then done else Advanced(done, c.cols, c.start + c.count - start))
    ensures if over then TooMuch(core, a, c, kinds, table, start, half) else Unstopped(core, a, c)
    ensures first && over ==> forall k :: 0 <= k < |cols| ==> cols[k].seen == []
    ensures over ==> came <= core.stops(a) && came <= |core.deliver(a, c)|
    ensures AllTracked(Shots(cols), StatesOf(now), HistoriesAfter(HistoriesBegun(hs, first), TextsOf(c.cols, kinds), CameOf(core, a, c, came, over), !over),
              kinds, binary, table, if over then done else Advanced(done, c.cols, c.start + c.count - start))
    ensures PlainHanded(old(Shots(cols)), Shots(cols), StatesOf(now), plain, kinds, binary, over)
    ensures !first ==> forall k :: 0 <= k < |dicts| && old(dicts[k].gaveUp) ==> dicts[k].gaveUp
  {
    hide *;
    now := dicts;
    ghost var h := HistoriesBegun(hs, first);
    ReadLengths(cols, StatesOf(dicts), kinds, binary, table, done);
    if first {
      AnewTracked(Shots(cols), StatesOf(dicts), hs, kinds, binary, table, done);
      now := NewDictsBeside(cols, StatesOf(dicts), hash, roomy, kinds, binary, table, done);
    } else {
      assert h == hs;
    }
    over, came, plain := OneCall(now, cols, kinds, binary, core, a, c, half, start, table, done, h);
  }

  /** A read between two calls: each column has been read as far as the trace says, and what is left on the stack goes on from there. */
  ghost predicate Going(work: seq<Call>, trace: seq<Gather.Event>, dicts: seq<Dict>, cols: seq<Column>, first: bool,
      kinds: seq<Planner.Kind>, binary: seq<bool>,
      core: Core, table: seq<seq<Row>>, start: nat, count: nat, budget: nat, done: seq<nat>)
    reads dicts, cols, Arrays(cols)
  {
    && Gather.State(work, trace, |kinds|, start, start + count) && |done| == |cols| == |kinds| == |table| == |binary|
    && (forall k :: 0 <= k < |done| ==> start + done[k] == Gather.Front(trace, k, start))
    && Apart(dicts) && AllValidDicts(dicts) && ApartCols(cols) && AllRead(cols, StatesOf(dicts), kinds, binary, table, done)
    && Excused(trace, core, kinds, table, start, budget)
    && (first ==> (forall k :: 0 <= k < |cols| ==> cols[k].seen == []) && forall k :: 0 <= k < |done| ==> done[k] == 0)
  }

  /** Each column's history is that of the calls made, which came to `came`; what it shows, and whether it is a dictionary column, go with that. */
  ghost predicate Tracked(trace: seq<Gather.Event>, came: seq<nat>, shots: seq<Shot>, states: seq<DictState>, hs: seq<seq<Step>>, plain: seq<bool>,
      asDictionary: bool, first: bool, kinds: seq<Planner.Kind>, binary: seq<bool>, core: Core, table: seq<seq<Row>>, done: seq<nat>)
  {
    && AllTracked(shots, states, hs, kinds, binary, table, done) && |came| == |trace| && |plain| == |kinds| && (first <==> NoneGiven(trace))
    && (forall k :: 0 <= k < |hs| ==> hs[k] == HistoryOf(trace, came, core, kinds, k))
    && (forall k :: 0 <= k < |shots| && kinds[k].Text? ==>
          && (shots[k].dictionary <==> asDictionary && !binary[k] && !plain[k]) && (plain[k] && !binary[k] ==> states[k].gaveUp && !first))
    && forall i :: 0 <= i < |trace| && trace[i].over ==> came[i] <= core.stops(i) && came[i] <= |core.deliver(i, trace[i].call)|
  }

  lemma GoingIs(work: seq<Call>, trace: seq<Gather.Event>, dicts: seq<Dict>, cols: seq<Column>, first: bool, kinds: seq<Planner.Kind>, binary: seq<bool>,
      core: Core, table: seq<seq<Row>>, start: nat, count: nat, budget: nat, done: seq<nat>)
    requires Going(work, trace, dicts, cols, first, kinds, binary, core, table, start, count, budget, done)
    ensures Gather.State(work, trace, |kinds|, start, start + count) && |done| == |cols| == |kinds| == |table| == |binary|
    ensures forall k :: 0 <= k < |done| ==> start + done[k] == Gather.Front(trace, k, start)
    ensures Apart(dicts) && AllValidDicts(dicts) && ApartCols(cols) && AllRead(cols, StatesOf(dicts), kinds, binary, table, done)
    ensures Excused(trace, core, kinds, table, start, budget)
    ensures first ==> (forall k :: 0 <= k < |cols| ==> cols[k].seen == []) && forall k :: 0 <= k < |done| ==> done[k] == 0
  {
    hide Gather.State, Gather.Front, AllRead, Excused, ApartCols, AllValidDicts, StatesOf;
  }

  lemma GoesOn(work: seq<Call>, trace: seq<Gather.Event>, dicts: seq<Dict>, cols: seq<Column>, first: bool, kinds: seq<Planner.Kind>, binary: seq<bool>,
      core: Core, table: seq<seq<Row>>, start: nat, count: nat, budget: nat, done: seq<nat>)
    requires Gather.State(work, trace, |kinds|, start, start + count) && |done| == |cols| == |kinds| == |table| == |binary|
    requires forall k :: 0 <= k < |done| ==> start + done[k] == Gather.Front(trace, k, start)
    requires Apart(dicts) && AllValidDicts(dicts) && ApartCols(cols) && AllRead(cols, StatesOf(dicts), kinds, binary, table, done)
    requires Excused(trace, core, kinds, table, start, budget)
    requires first ==> (forall k :: 0 <= k < |cols| ==> cols[k].seen == []) && forall k :: 0 <= k < |done| ==> done[k] == 0
    ensures Going(work, trace, dicts, cols, first, kinds, binary, core, table, start, count, budget, done)
  {
    hide Gather.State, Gather.Front, AllRead, Excused, ApartCols, AllValidDicts, StatesOf;
  }

  /** One call more. */
  lemma TrackedMore(trace: seq<Gather.Event>, came: seq<nat>, shots: seq<Shot>, next: seq<Shot>, was: seq<DictState>, states: seq<DictState>,
      hs: seq<seq<Step>>, plain: seq<bool>, given: seq<bool>, asDictionary: bool, first: bool, kinds: seq<Planner.Kind>, binary: seq<bool>, core: Core,
      table: seq<seq<Row>>, done: seq<nat>, now: seq<nat>, c: Call, over: bool, m: nat)
    requires Tracked(trace, came, shots, was, hs, plain, asDictionary, first, kinds, binary, core, table, done)
    requires AllTracked(next, states, HistoriesAfter(HistoriesBegun(hs, first), TextsIn(c, kinds), CameOf(core, |trace|, c, m, over), !over), kinds, binary,
               table, now)
    requires PlainHanded(shots, next, states, given, kinds, binary, over) && (over ==> m <= core.stops(|trace|) && m <= |core.deliver(|trace|, c)|)
    requires !first ==> |was| == |states| && forall k :: 0 <= k < |was| && was[k].gaveUp ==> states[k].gaveUp
    ensures var h := HistoriesAfter(HistoriesBegun(hs, first), TextsIn(c, kinds), CameOf(core, |trace|, c, m, over), !over);
            Tracked(trace + [Gather.Event(c, over)], came + [m], next, states, h, Either(plain, given), asDictionary, first && over, kinds, binary, core,
              table, now)
  {
    hide Tracks, HistoryAfter, HistoryOf, TextsIn, CameOf;
    var e := Gather.Event(c, over);
    var h := HistoriesAfter(HistoriesBegun(hs, first), TextsIn(c, kinds), CameOf(core, |trace|, c, m, over), !over);
    NoneGivenMore(trace, e);
    forall k | 0 <= k < |h|
      ensures h[k] == HistoryOf(trace + [e], came + [m], core, kinds, k)
    {
      HistoryMore(trace, came, e, m, core, kinds, k);
    }
  }

  lemma NoneGivenMore(trace: seq<Gather.Event>, e: Gather.Event)
    ensures NoneGiven(trace + [e]) <==> NoneGiven(trace) && e.over
  {
    assert (trace + [e])[|trace|] == e;
    assert forall i :: 0 <= i < |trace| ==> (trace + [e])[i] == trace[i];
  }

  function Either(a: seq<bool>, b: seq<bool>): (c: seq<bool>)
    ensures |c| == |a| && forall k :: 0 <= k < |a| ==> c[k] == (a[k] || (k < |b| && b[k]))
  {
    seq(|a|, k requires 0 <= k < |a| => a[k] || (k < |b| && b[k]))
  }

  /** The call on top of the stack, made and answered. */
  method Turn(work: seq<Call>, trace: seq<Gather.Event>, dicts: seq<Dict>, cols: seq<Column>, first: bool, hash: seq<byte> -> nat, roomy: bool,
      kinds: seq<Planner.Kind>, binary: seq<bool>, core: Core, start: nat, count: nat, budget: nat, ghost table: seq<seq<Row>>, ghost done: seq<nat>,
      ghost came: seq<nat>, ghost hs: seq<seq<Step>>, ghost plain: seq<bool>, ghost asDictionary: bool)
    returns (over: bool, now: seq<Dict>, ghost next: seq<nat>, ghost m: nat, ghost h: seq<seq<Step>>, ghost p: seq<bool>)
    requires work != [] && Going(work, trace, dicts, cols, first, kinds, binary, core, table, start, count, budget, done)
    requires Tracked(trace, came, Shots(cols), StatesOf(dicts), hs, plain, asDictionary, first, kinds, binary, core, table, done)
    requires (forall k :: 0 <= k < |table| ==> |table[k]| == count) && Serves(core, kinds, binary, table, start)
    requires forall k :: 0 <= k < |dicts| ==> dicts[k].roomy == roomy
    modifies dicts, cols, Arrays(cols)
    ensures now == dicts || forall k :: 0 <= k < |now| ==> fresh(now[k])
    ensures forall k :: 0 <= k < |now| ==> now[k].roomy == roomy
    ensures forall o <- Arrays(cols) :: o in old(Arrays(cols)) || fresh(o)
    ensures AllValidDicts(now)
    ensures var c := work[|work| - 1]; var (left, failed) := Gather.Next(work, over); var t := trace + [Gather.Event(c, over)];
            && (failed <==> over && Gather.Cells(c) == 1) && Excused(t, core, kinds, table, start, budget)
            && Tracked(t, came + [m], Shots(cols), StatesOf(now), h, p, asDictionary, first && over, kinds, binary, core, table, next)
            && (failed || (Gather.Weight(left) < Gather.Weight(work)
                           && Going(left, t, now, cols, first && over, kinds, binary, core, table, start, count, budget, next)))
  {
    hide *;
    var c := work[|work| - 1];
    GoingIs(work, trace, dicts, cols, first, kinds, binary, core, table, start, count, budget, done);
    TopFits(work, trace, kinds, table, start, count, done);
    ghost var was, shots := StatesOf(dicts), Shots(cols);
    TrackedAll(trace, came, shots, was, hs, plain, asDictionary, first, kinds, binary, core, table, done);
    SentOf(dicts);
    ghost var given;
    over, now, m, given := TableCall(dicts, cols, first, hash, roomy, kinds, binary, core, |trace|, c, HalfOf(c, kinds, budget), start, table, done, hs);
    SentOf(now);
    CallStep(work, trace, c, over, core, kinds, table, start, count, budget, done);
    Gather.NextStep(work, trace, over, |kinds|, start, start + count);
    next := if over then done else Advanced(done, c.cols, c.start + c.count - start);
    TextsInIs(c, kinds, table, start);
    h := HistoriesAfter(HistoriesBegun(hs, first), TextsOf(c.cols, kinds), CameOf(core, |trace|, c, m, over), !over);
    p := Either(plain, given);
    if !Gather.Next(work, over).1 {
      GoesOn(Gather.Next(work, over).0, trace + [Gather.Event(c, over)], now, cols, first && over, kinds, binary, core, table, start, count, budget, next);
    }
    TrackedMore(trace, came, shots, Shots(cols), was, StatesOf(now), hs, plain, given, asDictionary, first, kinds, binary, core, table, done, next, c, over, m);
  }

  lemma TrackedAll(trace: seq<Gather.Event>, came: seq<nat>, shots: seq<Shot>, states: seq<DictState>, hs: seq<seq<Step>>, plain: seq<bool>,
      asDictionary: bool, first: bool, kinds: seq<Planner.Kind>, binary: seq<bool>, core: Core, table: seq<seq<Row>>, done: seq<nat>)
    requires Tracked(trace, came, shots, states, hs, plain, asDictionary, first, kinds, binary, core, table, done)
    ensures AllTracked(shots, states, hs, kinds, binary, table, done)
  {}

  lemma TextsInIs(c: Call, kinds: seq<Planner.Kind>, table: seq<seq<Row>>, start: nat)
    requires Fits(c, kinds, table, start)
    ensures (forall i :: 0 <= i < |c.cols| ==> c.cols[i] < |kinds|) && TextsIn(c, kinds) == TextsOf(c.cols, kinds)
  {}

  /**
   A read of a table: calls are taken off the stack until none is left, each
   read by every column's dictionary and placed in every column, or over
   budget and so split. Every text column then holds its rows; or a single
   cell is over budget. A call is over budget only when the core says so or
   the text it asks for is more than half of what it may hold.

   A text column is a dictionary column exactly when that was asked for and no
   call handed its rows over plain, as calls do once its dictionary is given
   up; it then shows the values its history of calls had the dictionary take.
   */
  method ReadTable(hash: seq<byte> -> nat, roomy: bool, kinds: seq<Planner.Kind>, groups: seq<Planner.Group>, binary: seq<bool>, asDictionary: bool,
      start: nat, count: nat, budget: nat, core: Core, ghost table: seq<seq<Row>>)
    returns (cols: seq<Column>, dicts: seq<Dict>, trace: seq<Gather.Event>, ok: bool, ghost came: seq<nat>, ghost plain: seq<bool>)
    requires kinds != [] && budget > 0 && Planner.Contiguous(groups) && |kinds| == |binary| == |table|
    requires count > 0 ==> groups != [] && groups[0].firstRow <= start && start + count <= groups[|groups| - 1].End()
    requires (forall k :: 0 <= k < |table| ==> |table[k]| == count) && Serves(core, kinds, binary, table, start)
    ensures |cols| == |kinds| == |dicts| == |plain| && |came| == |trace|
    ensures ok ==> forall k :: 0 <= k < |kinds| && kinds[k].Text? ==> cols[k].Holds(table[k], binary[k])
    ensures ok ==> Planner.Tiles(Gather.Placed(trace), |kinds|, start, start + count)
    ensures !ok ==> trace != [] && trace[|trace| - 1].over && Gather.Cells(trace[|trace| - 1].call) == 1
    ensures Excused(trace, core, kinds, table, start, budget)
    ensures forall k :: 0 <= k < |kinds| && kinds[k].Text? ==> (cols[k].dictionary <==> asDictionary && !binary[k] && !plain[k])
    ensures forall k :: 0 <= k < |kinds| ==> dicts[k].Valid() && dicts[k].roomy == roomy
    ensures forall k :: 0 <= k < |kinds| && kinds[k].Text? && plain[k] && !binary[k] ==> dicts[k].gaveUp
    ensures ok ==> forall k :: 0 <= k < |kinds| && kinds[k].Text? ==>
              Tracks(cols[k].levels, cols[k].dictionary, StateOf(dicts[k]), HistoryOf(trace, came, core, kinds, k), table[k], count, binary[k])
    ensures forall i :: 0 <= i < |trace| && trace[i].over ==> came[i] <= core.stops(i) && came[i] <= |core.deliver(i, trace[i].call)|
  {
    hide *;
    var calls := Planner.Plan(kinds, groups, start, count, budget as real);
    var work := Gather.Reverse(calls);
    cols := NewColumns(|kinds|, count, asDictionary, binary);
    dicts := NewDicts(|kinds|, hash, roomy);
    trace := [];
    ghost var done := seq(|kinds|, _ => 0);
    ghost var hs: seq<seq<Step>> := seq(|kinds|, _ => []);
    came, plain := [], seq(|kinds|, _ => false);
    Started(calls, dicts, cols, kinds, binary, core, table, start, count, budget, done);
    NoneTracked(Shots(cols), hs, plain, asDictionary, kinds, binary, core, table, done);
    var first := true;
    while work != []
      invariant Going(work, trace, dicts, cols, first, kinds, binary, core, table, start, count, budget, done)
      invariant AllValidDicts(dicts) && Tracked(trace, came, Shots(cols), StatesOf(dicts), hs, plain, asDictionary, first, kinds, binary, core, table, done)
      invariant |cols| == |kinds| && forall k :: 0 <= k < |cols| ==> fresh(cols[k])
      invariant (forall o <- Arrays(cols) :: fresh(o)) && forall k :: 0 <= k < |dicts| ==> fresh(dicts[k]) && dicts[k].roomy == roomy
      decreases Gather.Weight(work)
    {
      var over, now;
      ghost var next, m, h, p;
      over, now, next, m, h, p := Turn(work, trace, dicts, cols, first, hash, roomy, kinds, binary, core, start, count, budget, table, done, came, hs, plain,
        asDictionary);
      var (left, failed) := Gather.Next(work, over);
      trace := trace + [Gather.Event(work[|work| - 1], over)];
      came, plain, hs, dicts, done := came + [m], p, h, now, next;
      first := first && over;
      if failed {
        TrackedMeans(trace, came, cols, dicts, hs, plain, asDictionary, first, kinds, binary, core, table, done);
        return cols, dicts, trace, false, came, plain;
      }
      work := left;
    }
    Ended(trace, dicts, cols, first, kinds, binary, core, table, start, count, budget, done);
    TrackedMeans(trace, came, cols, dicts, hs, plain, asDictionary, first, kinds, binary, core, table, done);
    ok := true;
  }

  lemma NoneTracked(shots: seq<Shot>, hs: seq<seq<Step>>, plain: seq<bool>, asDictionary: bool, kinds: seq<Planner.Kind>, binary: seq<bool>, core: Core,
      table: seq<seq<Row>>, done: seq<nat>)
    requires |shots| == |hs| == |plain| == |kinds| == |binary| == |table| == |done|
    requires forall k :: 0 <= k < |shots| ==> shots[k] == Shot([], asDictionary && !binary[k]) && hs[k] == [] && !plain[k] && done[k] == 0
    ensures Tracked([], [], shots, NewStates(|kinds|), hs, plain, asDictionary, true, kinds, binary, core, table, done)
  {
    hide Tracks, HistoryAfter, TextsIn, CameOf, NewState;
    forall k | 0 <= k < |shots|
      ensures Tracks([], shots[k].dictionary, NewState(), [], table[k], 0, binary[k])
    {
      TracksNothing(shots[k].dictionary, table[k], binary[k]);
    }
  }

  lemma TrackedMeans(trace: seq<Gather.Event>, came: seq<nat>, cols: seq<Column>, dicts: seq<Dict>, hs: seq<seq<Step>>, plain: seq<bool>,
      asDictionary: bool, first: bool, kinds: seq<Planner.Kind>, binary: seq<bool>, core: Core, table: seq<seq<Row>>, done: seq<nat>)
    requires AllValidDicts(dicts)
    requires Tracked(trace, came, Shots(cols), StatesOf(dicts), hs, plain, asDictionary, first, kinds, binary, core, table, done)
    ensures |cols| == |kinds| == |dicts| == |plain| == |done| && |came| == |trace|
    ensures forall k :: 0 <= k < |kinds| && kinds[k].Text? ==> (cols[k].dictionary <==> asDictionary && !binary[k] && !plain[k])
    ensures forall k :: 0 <= k < |kinds| ==> dicts[k].Valid()
    ensures forall k :: 0 <= k < |kinds| && kinds[k].Text? && plain[k] && !binary[k] ==> dicts[k].gaveUp
    ensures forall k :: 0 <= k < |kinds| && kinds[k].Text? ==>
              Tracks(cols[k].levels, cols[k].dictionary, StateOf(dicts[k]), HistoryOf(trace, came, core, kinds, k), table[k], done[k], binary[k])
    ensures forall i :: 0 <= i < |trace| && trace[i].over ==> came[i] <= core.stops(i) && came[i] <= |core.deliver(i, trace[i].call)|
  {
    hide Tracks, HistoryOf;
  }

  lemma Started(calls: seq<Call>, dicts: seq<Dict>, cols: seq<Column>, kinds: seq<Planner.Kind>, binary: seq<bool>, core: Core, table: seq<seq<Row>>,
      start: nat, count: nat, budget: nat, done: seq<nat>)
    requires Planner.Tiles(calls, |kinds|, start, start + count) && |cols| == |dicts| == |kinds| == |binary| == |table| == |done|
    requires Apart(dicts) && AllValidDicts(dicts) && ApartCols(cols) && StatesOf(dicts) == NewStates(|kinds|)
    requires forall k :: 0 <= k < |cols| ==> cols[k].seen == [] && cols[k].Holds([], binary[k]) && done[k] == 0 && cols[k].count == |table[k]|
    ensures Going(Gather.Reverse(calls), [], dicts, cols, true, kinds, binary, core, table, start, count, budget, done)
  {
    hide Column.Holds, AllRead, ApartCols, AllValidDicts, Gather.State;
    PlanFits(kinds, calls, start, count);
    NoneRead(cols, kinds, binary, table, done);
  }

  lemma Ended(trace: seq<Gather.Event>, dicts: seq<Dict>, cols: seq<Column>, first: bool, kinds: seq<Planner.Kind>, binary: seq<bool>, core: Core,
      table: seq<seq<Row>>, start: nat, count: nat, budget: nat, done: seq<nat>)
    requires Going([], trace, dicts, cols, first, kinds, binary, core, table, start, count, budget, done)
    requires forall k :: 0 <= k < |table| ==> |table[k]| == count
    ensures |cols| == |kinds| == |done| && forall k :: 0 <= k < |kinds| && kinds[k].Text? ==> done[k] == count && cols[k].Holds(table[k], binary[k])
    ensures Planner.Tiles(Gather.Placed(trace), |kinds|, start, start + count) && Excused(trace, core, kinds, table, start, budget)
  {
    hide AllRead, ApartCols, AllValidDicts, Gather.State, Excused;
    AllDone(trace, cols, StatesOf(dicts), kinds, binary, table, start, count, done);
    Gather.Finish(trace, |kinds|, start, start + count);
  }

  /** One call more in the trace. */
  lemma CallStep(work: seq<Call>, trace: seq<Gather.Event>, c: Call, over: bool, core: Core, kinds: seq<Planner.Kind>,
      table: seq<seq<Row>>, start: nat, count: nat,
      budget: nat, done: seq<nat>)
    requires Excused(trace, core, kinds, table, start, budget) && Fits(c, kinds, table, start) && |done| == |kinds|
    requires if over then TooMuch(core, |trace|, c, kinds, table, start, HalfOf(c, kinds, budget)) else Unstopped(core, |trace|, c)
    requires forall k :: 0 <= k < |done| ==> start + done[k] == Gather.Front(trace, k, start)
    requires forall i :: 0 <= i < |c.cols| ==> done[c.cols[i]] == c.start - start
    ensures Excused(trace + [Gather.Event(c, over)], core, kinds, table, start, budget) && (over ==> c.count > 0)
    ensures var next := if over then done else Advanced(done, c.cols, c.start + c.count - start);
            forall k :: 0 <= k < |done| ==> start + next[k] == Gather.Front(trace + [Gather.Event(c, over)], k, start)
  {
    hide Excused, HalfOf, Sum, Sizes, Asked, Unstopped;
    ExcusedStep(trace, c, over, core, kinds, table, start, budget);
    assert (trace + [Gather.Event(c, over)])[..|trace|] == trace;
  }

  // ---------------------------------------------------------------- a core there can be

  /** Each column's rows as one chunk. */
  function OneEach(more: seq<seq<Row>>): (ds: seq<Delivery>)
    ensures |ds| == |more| && forall k :: 0 <= k < |ds| ==> ds[k] == Delivery(k, Whole(more[k]))
  {
    seq(|more|, k requires 0 <= k < |more| => Delivery(k, Whole(more[k])))
  }

  lemma {:induction false} OfOneEach(more: seq<seq<Row>>, i: nat, k: nat)
    requires i <= |more| && k < |more|
    ensures Of(OneEach(more)[..i], k) == if k < i then [Whole(more[k])] else []
  {
    if i > 0 {
      OfPush(OneEach(more), i - 1, k);
      OfOneEach(more, i - 1, k);
    }
  }

  lemma OneEachDelivered(more: seq<seq<Row>>, binary: seq<bool>)
    requires |more| == |binary| && forall k :: 0 <= k < |more| ==> TextRows(more[k], binary[k])
    ensures Delivered(OneEach(more), more, binary)
  {
    hide TextRows, Chunked;
    forall k | 0 <= k < |more|
      ensures Chunked(Of(OneEach(more), k), more[k], binary[k])
    {
      assert OneEach(more)[..|more|] == OneEach(more);
      OfOneEach(more, |more|, k);
      WholeChunked(more[k], binary[k]);
    }
  }

  /** What `ReadTable` asks of the core can be met, wherever it stops. */
  lemma CanBeServed(kinds: seq<Planner.Kind>, binary: seq<bool>, table: seq<seq<Row>>, start: nat, stops: nat -> nat) returns (core: Core)
    requires |kinds| == |binary| == |table| && forall k :: 0 <= k < |table| ==> TextRows(table[k], binary[k])
    ensures core.stops == stops && Serves(core, kinds, binary, table, start)
  {
    hide TextRows, Delivered;
    core := Core((a: nat, c: Call) => if Fits(c, kinds, table, start) then OneEach(Asked(c, kinds, table, start)) else [], stops);
    forall a: nat, c: Call | Fits(c, kinds, table, start)
      ensures Delivered(core.deliver(a, c), Asked(c, kinds, table, start), Sorting.Picked(binary, TextsOf(c.cols, kinds)))
    {
      var ks, more := TextsOf(c.cols, kinds), Asked(c, kinds, table, start);
      forall m | 0 <= m < |ks|
        ensures TextRows(more[m], Sorting.Picked(binary, ks)[m])
      {
        TextRowsSlice(table[ks[m]], binary[ks[m]], c.start - start, c.start + c.count - start);
      }
      OneEachDelivered(more, Sorting.Picked(binary, ks));
    }
  }
}
