/**
 `crates/dta-ffi/src/parquet_wasm.rs`: the rows of a text column that one call
 gathers, as codes while its dictionary lasts and as they are from then on,
 within what the other columns of the call leave of the budget.
 */
module TextAccumulator {
  import opened Wrappers
  import opened Bits
  import opened Utf
  import opened Spans
  import opened Dictionary

  /** A row that may be null. */
  type Row = Option<seq<byte>>

  const NULL_CODE: nat := 0xFFFF_FFFF

  /** A stretch of rows: with codes, each the place of its row's value; without, a value for every row. */
  datatype TextChunk = TextChunk(rows: nat, values: seq<seq<byte>>, codes: Option<seq<nat>>, missing: seq<bool>)

  ghost predicate ChunkOk(c: TextChunk)
  {
    if c.codes == None then |c.values| == |c.missing| == c.rows
    else |c.codes.value| == c.rows && forall r :: 0 <= r < c.rows ==> c.codes.value[r] == NULL_CODE || c.codes.value[r] < |c.values|
  }

  function ChunkRow(c: TextChunk, r: nat): Row
    requires ChunkOk(c) && r < c.rows
  {
    if c.codes == None then
      if c.missing[r] then None else Some(c.values[r])
    else if c.codes.value[r] == NULL_CODE then None else Some(c.values[c.codes.value[r]])
  }

  ghost function ChunkRows(c: TextChunk): (rows: seq<Row>)
    requires ChunkOk(c)
    ensures |rows| == c.rows
  {
    seq(c.rows, r requires 0 <= r < c.rows => ChunkRow(c, r))
  }

  /** The values of rows that have one. */
  function Present(rows: seq<Row>): seq<seq<byte>>
  {
    if rows == [] then [] else Present(rows[..|rows| - 1]) + if rows[|rows| - 1] == None then [] else [rows[|rows| - 1].value]
  }

  lemma PresentPush(rows: seq<Row>, row: Row)
    ensures Present(rows + [row]) == Present(rows) + if row == None then [] else [row.value]
  {
    assert (rows + [row])[..|rows|] == rows;
  }

  /** The values a chunk has a dictionary take: its own entries, or its rows' values. */
  ghost function Listed(c: TextChunk): seq<seq<byte>>
    requires ChunkOk(c)
  {
    if c.codes != None then c.values else Present(ChunkRows(c))
  }

  function RowBytes(row: Row): seq<byte>
  {
    if row == None then [] else row.value
  }

  /** Each row's bytes, none for a null. */
  function Blanked(rows: seq<Row>): (ps: seq<seq<byte>>)
    ensures |ps| == |rows|
  {
    seq(|rows|, i requires 0 <= i < |rows| => RowBytes(rows[i]))
  }

  /** The bytes of rows' text. */
  function TextSize(rows: seq<Row>): nat
  {
    if rows == [] then 0 else TextSize(rows[..|rows| - 1]) + |RowBytes(rows[|rows| - 1])|
  }

  lemma SizePush(rows: seq<Row>, row: Row)
    ensures TextSize(rows + [row]) == TextSize(rows) + |RowBytes(row)|
  {
    assert (rows + [row])[..|rows|] == rows;
  }

  lemma {:induction false} SizeJoin(a: seq<Row>, b: seq<Row>)
    ensures TextSize(a + b) == TextSize(a) + TextSize(b)
  {
    if b == [] {
      assert a + b == a;
    } else {
      var n := |b| - 1;
      assert (a + b)[..|a + b| - 1] == a + b[..n];
      SizeJoin(a, b[..n]);
    }
  }

  /** Fewer rows have no more text. */
  lemma SizePrefix(rows: seq<Row>, k: nat)
    requires k <= |rows|
    ensures TextSize(rows[..k]) <= TextSize(rows)
  {
    assert rows == rows[..k] + rows[k..];
    SizeJoin(rows[..k], rows[k..]);
  }

  lemma SizeStep(rows: seq<Row>, k: nat)
    requires k < |rows|
    ensures TextSize(rows[..k]) + |RowBytes(rows[k])| <= TextSize(rows)
  {
    SizePush(rows[..k], rows[k]);
    assert rows[..k] + [rows[k]] == rows[..k + 1];
    SizePrefix(rows, k + 1);
  }

  lemma CodesLength(codes: seq<nat>, values: seq<seq<byte>>, rows: seq<Row>)
    requires RowCodes(codes, values, rows)
    ensures |codes| == |rows|
  {}

  lemma CodeMeans(codes: seq<nat>, values: seq<seq<byte>>, rows: seq<Row>, i: nat)
    requires RowCodes(codes, values, rows) && i < |rows|
    ensures |codes| == |rows|
    ensures if codes[i] == NULL_CODE then rows[i] == None else codes[i] < |values| && rows[i] == Some(values[codes[i]])
  {}

  lemma NoSize()
    ensures TextSize([]) == 0
  {}

  lemma RowSize(row: Row)
    ensures row != None ==> |RowBytes(row)| == |row.value|
  {}

  function Most(a: nat, b: nat): nat {
    if a < b then b else a
  }

  /** 1 for a null. */
  function Flags(rows: seq<Row>): (fs: seq<nat>)
    ensures |fs| == |rows|
  {
    seq(|rows|, i requires 0 <= i < |rows| => if rows[i] == None then 1 else 0)
  }

  /** Each code is that of its row's value, or says it is null. */
  ghost predicate RowCodes(codes: seq<nat>, values: seq<seq<byte>>, rows: seq<Row>)
  {
    && |codes| == |rows|
    && forall i :: 0 <= i < |codes| ==>
         if rows[i] == None then codes[i] == 0xFFFF_FFFF
         else codes[i] < |values| && codes[i] < 0xFFFF_FFFF && values[codes[i]] == rows[i].value
  }

  lemma RowCodesGrow(codes: seq<nat>, was: seq<seq<byte>>, values: seq<seq<byte>>, rows: seq<Row>)
    requires RowCodes(codes, was, rows) && was <= values
    ensures RowCodes(codes, values, rows)
  {}

  lemma RowCodesPush(codes: seq<nat>, values: seq<seq<byte>>, rows: seq<Row>, code: nat, row: Row)
    requires RowCodes(codes, values, rows)
    requires if row == None then code == NULL_CODE else code < |values| && code < NULL_CODE && values[code] == row.value
    ensures RowCodes(codes + [code], values, rows + [row])
  {}

  lemma ChunkRowValid(c: TextChunk, r: nat)
    requires ChunkOk(c) && r < c.rows && AllValid(c.values)
    ensures ChunkRow(c, r) != None ==> Utf.Valid(ChunkRow(c, r).value)
  {}

  /** Rows as they are, with one row more. */
  lemma PlainPush(bytes: seq<byte>, ends: seq<nat>, missing: seq<nat>, got: seq<Row>, value: Row)
    requires Cuts(ends, |bytes|) && Pieces(bytes, ends) == Blanked(got) && missing == Flags(got) && |bytes| == TextSize(got)
    ensures var now, cut := bytes + RowBytes(value), ends + [|bytes| + |RowBytes(value)|];
            Cuts(cut, |now|) && Pieces(now, cut) == Blanked(got + [value]) && |now| == TextSize(got + [value])
    ensures missing + [if value == None then 1 else 0] == Flags(got + [value])
  {
    hide Cuts, Pieces;
    PiecesPush(bytes, ends, RowBytes(value));
    SizePush(got, value);
    assert Blanked(got + [value]) == Blanked(got) + [RowBytes(value)];
  }

  class TextAcc {
    var coded: bool
    var codes: seq<nat>
    var bytes: seq<byte>
    var ends: seq<nat>
    var missing: seq<nat>
    var limit: nat
    var over: bool
    /** The rows added. */
    ghost var got: seq<Row>

    constructor (coded: bool)
      ensures this.coded == coded && limit == 0 && !over && got == [] && bytes == [] && forall values :: Valid(values)
    {
      this.coded := coded;
      codes, bytes, ends, missing, got := [], [], [], [], [];
      limit, over := 0, false;
    }

    /** Unless the budget is passed, the rows added are held, as codes of `values` or as they are. */
    ghost predicate Valid(values: seq<seq<byte>>)
      reads this
    {
      if over then !coded
      else if coded then bytes == [] && ends == [] && missing == [] && RowCodes(codes, values, got)
      else Cuts(ends, |bytes|) && Pieces(bytes, ends) == Blanked(got) && missing == Flags(got) && |bytes| == TextSize(got)
    }

    /** Add a row as it is, counting its text. */
    method PushPlain(value: Row)
      requires !coded && Valid([])
      modifies this`bytes, this`ends, this`missing, this`over, this`got
      ensures Valid([]) && (!over ==> got == old(got) + [value])
      ensures over <==> old(over) || (value != None && |old(bytes)| + |value.value| > limit)
      ensures !over ==> |bytes| == |old(bytes)| + |RowBytes(value)| && |bytes| <= Most(limit, |old(bytes)|)
    {
      if over {
        return;
      }
      hide Cuts, Pieces, Blanked, Flags, TextSize;
      PlainPush(bytes, ends, missing, got, value);
      match value {
        case Some(v) =>
          if |bytes| + |v| > limit {
            over := true;
            return;
          }
          bytes := bytes + v;
          missing := missing + [0];
        case None =>
          assert bytes + [] == bytes;
          missing := missing + [1];
      }
      ends := ends + [|bytes|];
      got := got + [value];
    }

    /** Stop coding: the rows gathered are written out, value by value. */
    method GiveUp(dict: Dict)
      requires dict.Valid() && dict.gaveUp && coded && !over && Valid(dict.Values())
      modifies this, dict`gaveUp
      ensures dict.Valid() && dict.Values() == old(dict.Values()) && dict.gaveUp
      ensures !coded && limit == old(limit) && Valid([]) && (!over ==> got == old(got))
      ensures if over then TextSize(old(got)) > limit else |bytes| <= limit
    {
      hide RowCodes, Distinct;
      ghost var rows := got;
      var was := codes;
      coded, codes, got := false, [], [];
      assert Pieces(bytes, ends) == Blanked(got);
      PushCoded(was, dict, rows);
      dict.gaveUp := true;
    }

    method PushCoded(was: seq<nat>, dict: Dict, ghost rows: seq<Row>)
      requires dict.Valid() && RowCodes(was, dict.Values(), rows)
      requires !coded && !over && Valid([]) && got == []
      modifies this`bytes, this`ends, this`missing, this`over, this`got
      ensures Valid([]) && (!over ==> got == rows)
      ensures if over then TextSize(rows) > limit else |bytes| <= limit
    {
      hide Cuts, Pieces, Blanked, Flags, Distinct, TextSize, RowBytes, RowCodes;
      NoSize();
      CodesLength(was, dict.Values(), rows);
      var i := 0;
      while i < |was|
        invariant i <= |was| && Valid([]) && (!over ==> got == rows[..i])
        invariant if over then TextSize(rows) > limit else |bytes| <= limit
      {
        SizeStep(rows, i);
        RowSize(rows[i]);
        CodeMeans(was, dict.Values(), rows, i);
        if was[i] == NULL_CODE {
          PushPlain(None);
        } else {
          var v := dict.Value(was[i]);
          PushPlain(Some(v));
        }
        assert rows[..i] + [rows[i]] == rows[..i + 1];
        i := i + 1;
      }
    }

    /** The codes of a chunk's own dictionary, as far as ours takes its values. */
    method MapEntries(chunk: TextChunk, dict: Dict) returns (map': seq<nat>)
      requires dict.Valid() && !dict.gaveUp && AllValid(chunk.values)
      modifies dict
      ensures dict.Valid() && old(dict.Values()) <= dict.Values() && dict.sent == old(dict.sent)
      ensures |map'| <= |chunk.values| && CodesAre(map', dict.Values(), chunk.values[..|map'|])
      ensures dict.listed == old(dict.listed) + chunk.values[..|map'|] && dict.rows == old(dict.rows)
      ensures (dict.gaveUp <==> |map'| < |chunk.values|) && (dict.gaveUp ==> NoPlaceFor(dict, chunk.values[|map'|]))
    {
      hide Cuts, Pieces, Distinct, Utf.Valid, Firsts;
      map' := [];
      while |map'| < |chunk.values|
        invariant dict.Valid() && old(dict.Values()) <= dict.Values() && dict.sent == old(dict.sent) && !dict.gaveUp
        invariant |map'| <= |chunk.values| && CodesAre(map', dict.Values(), chunk.values[..|map'|])
        invariant dict.listed == old(dict.listed) + chunk.values[..|map'|] && dict.rows == old(dict.rows)
      {
        ghost var was := dict.Values();
        var c := dict.Add(chunk.values[|map'|]);
        if c == None {
          return;
        }
        CodesGrow(map', was, dict.Values(), chunk.values, |map'|, c.value);
        assert chunk.values[..|map'|] + [chunk.values[|map'|]] == chunk.values[..|map'| + 1];
        map' := map' + [c.value];
      }
    }

    /** Code one row; false, and no row added, when the dictionary has no place for its value. */
    method CodeOne(row: Row, dict: Dict) returns (ok: bool)
      requires dict.Valid() && !dict.gaveUp && coded && !over && Valid(dict.Values()) && (row != None ==> Utf.Valid(row.value))
      modifies this`codes, this`got, dict
      ensures dict.Valid() && old(dict.Values()) <= dict.Values() && dict.sent == old(dict.sent) && dict.rows == old(dict.rows)
      ensures Valid(dict.Values()) && got == (if ok then old(got) + [row] else old(got)) && ok == !dict.gaveUp
      ensures ok ==> dict.listed == old(dict.listed) + if row == None then [] else [row.value]
      ensures !ok ==> dict.listed == old(dict.listed) && row != None && NoPlaceFor(dict, row.value)
    {
      hide Cuts, Pieces, Distinct, Utf.Valid, RowCodes, AllValid, Blanked, Flags, Firsts;
      var code := NULL_CODE;
      ghost var was := dict.Values();
      if row != None {
        var c := dict.Add(row.value);
        RowCodesGrow(codes, was, dict.Values(), got);
        if c == None {
          return false;
        }
        code := c.value;
      }
      RowCodesPush(codes, dict.Values(), got, code, row);
      codes := codes + [code];
      got := got + [row];
      return true;
    }

    /** Code a chunk's rows one by one, as far as the dictionary takes their values. */
    method CodeRows(chunk: TextChunk, dict: Dict) returns (r: nat)
      requires ChunkOk(chunk) && AllValid(chunk.values) && dict.Valid() && !dict.gaveUp && coded && !over && Valid(dict.Values())
      modifies this`codes, this`got, dict
      ensures dict.Valid() && old(dict.Values()) <= dict.Values() && dict.sent == old(dict.sent)
      ensures Valid(dict.Values()) && r <= chunk.rows && got == old(got) + ChunkRows(chunk)[..r]
      ensures dict.listed == old(dict.listed) + Present(ChunkRows(chunk)[..r]) && dict.rows == old(dict.rows)
      ensures dict.gaveUp <==> r < chunk.rows
      ensures dict.gaveUp ==> ChunkRow(chunk, r) != None && NoPlaceFor(dict, ChunkRow(chunk, r).value)
    {
      hide Cuts, Pieces, Utf.Valid, RowCodes, ChunkRow, AllValid, ChunkOk, Present, TextAcc.Valid, Distinct, Firsts, Dict.Because, NoPlaceFor;
      r := 0;
      NonePresent();
      while r < chunk.rows
        invariant dict.Valid() && old(dict.Values()) <= dict.Values() && dict.sent == old(dict.sent) && !dict.gaveUp
        invariant r <= chunk.rows && Valid(dict.Values()) && got == old(got) + ChunkRows(chunk)[..r]
        invariant dict.listed == old(dict.listed) + Present(ChunkRows(chunk)[..r]) && dict.rows == old(dict.rows)
      {
        var row := ChunkRow(chunk, r);
        PresentPush(ChunkRows(chunk)[..r], row);
        assert ChunkRows(chunk)[..r] + [row] == ChunkRows(chunk)[..r + 1];
        ChunkRowValid(chunk, r);
        var ok := CodeOne(row, dict);
        if !ok {
          return;
        }
        r := r + 1;
      }
    }

    /** Add a chunk's rows from `from` on as they are. */
    method PushRows(chunk: TextChunk, from: nat)
      requires ChunkOk(chunk) && from <= chunk.rows && !coded && Valid([])
      modifies this`bytes, this`ends, this`missing, this`over, this`got
      ensures Valid([]) && (old(over) ==> over) && (!over ==> got == old(got) + ChunkRows(chunk)[from..])
      ensures over && !old(over) ==> TextSize(old(got) + ChunkRows(chunk)[from..]) > limit
      ensures !over ==> |bytes| <= Most(limit, |old(bytes)|)
    {
      hide Cuts, Pieces, Blanked, Flags, ChunkRow, TextSize, RowBytes;
      ghost var all, n := old(got) + ChunkRows(chunk)[from..], |old(got)|;
      var r := from;
      while r < chunk.rows
        invariant from <= r <= chunk.rows && Valid([]) && (old(over) ==> over)
        invariant !over ==> got == all[..n + r - from] && |bytes| <= Most(limit, |old(bytes)|)
        invariant over && !old(over) ==> TextSize(all) > limit
      {
        SizeStep(all, n + r - from);
        RowSize(ChunkRow(chunk, r));
        PushPlain(ChunkRow(chunk, r));
        assert all[..n + r - from] + [ChunkRow(chunk, r)] == all[..n + r + 1 - from];
        r := r + 1;
      }
      assert all[..n + r - from] == all;
    }

    /** The codes of all a chunk's entries; None when the dictionary is given up. */
    method MapAll(chunk: TextChunk, dict: Dict) returns (m: Option<seq<nat>>)
      requires dict.Valid() && !dict.gaveUp && AllValid(chunk.values)
      modifies dict
      ensures dict.Valid() && old(dict.Values()) <= dict.Values() && dict.sent == old(dict.sent)
      ensures m == None <==> dict.gaveUp
      ensures m != None ==> CodesAre(m.value, dict.Values(), chunk.values)
      ensures m != None ==> dict.listed == old(dict.listed) + chunk.values && dict.rows == old(dict.rows) + chunk.rows
      ensures m == None ==> dict.why == MostlyDistinct(old(dict.rows) + chunk.rows) || exists v :: v in chunk.values && NoPlaceFor(dict, v)
    {
      hide Cuts, Pieces, Distinct, CodesAre, AllValid, Firsts;
      var map' := MapEntries(chunk, dict);
      if |map'| < |chunk.values| {
        return None;
      }
      assert chunk.values[..|map'|] == chunk.values;
      var kept := dict.NoteRows(chunk.rows);
      return if kept then Some(map') else None;
    }

    /** Add a chunk coded whole, through its own dictionary; false when the dictionary is given up. */
    method AddEntries(chunk: TextChunk, dict: Dict) returns (kept: bool)
      requires ChunkOk(chunk) && AllValid(chunk.values) && chunk.codes != None && dict.Valid() && !dict.gaveUp && coded && !over && Valid(dict.Values())
      modifies this`codes, this`got, dict
      ensures dict.Valid() && old(dict.Values()) <= dict.Values() && dict.sent == old(dict.sent) && kept == !dict.gaveUp
      ensures Valid(dict.Values()) && got == old(got) + if kept then ChunkRows(chunk) else []
      ensures kept ==> dict.listed == old(dict.listed) + chunk.values && dict.rows == old(dict.rows) + chunk.rows
      ensures !kept ==> dict.why == MostlyDistinct(old(dict.rows) + chunk.rows) || exists v :: v in chunk.values && NoPlaceFor(dict, v)
    {
      hide Cuts, Pieces, Distinct, RowCodes, ChunkRow, CodesAre, Blanked, Flags, AllValid, ChunkOk, Recode, Firsts;
      var m := MapAll(chunk, dict);
      RowCodesGrow(codes, old(dict.Values()), dict.Values(), got);
      if m == None {
        return false;
      }
      RecodedRows(chunk, m.value, dict.Values());
      RowCodesJoin(codes, Recode(chunk.codes.value, m.value), dict.Values(), got, ChunkRows(chunk));
      codes := codes + Recode(chunk.codes.value, m.value);
      got := got + ChunkRows(chunk);
      return true;
    }

    /** Code a chunk's rows, and count them: how many of them were coded, and whether the dictionary lasts. */
    method CodeAll(chunk: TextChunk, dict: Dict) returns (r: nat)
      requires ChunkOk(chunk) && AllValid(chunk.values) && dict.Valid() && !dict.gaveUp && coded && !over && Valid(dict.Values())
      modifies this`codes, this`got, dict
      ensures dict.Valid() && old(dict.Values()) <= dict.Values() && dict.sent == old(dict.sent)
      ensures Valid(dict.Values()) && r <= chunk.rows && got == old(got) + ChunkRows(chunk)[..r]
      ensures !dict.gaveUp ==> r == chunk.rows && dict.listed == old(dict.listed) + Present(ChunkRows(chunk)) && dict.rows == old(dict.rows) + chunk.rows
      ensures dict.gaveUp ==> dict.why == MostlyDistinct(old(dict.rows) + chunk.rows) || exists v :: v in chunk.values && NoPlaceFor(dict, v)
    {
      hide Cuts, Pieces, RowCodes, ChunkRow, AllValid, Present, Distinct, Firsts, Dict.Because, TextAcc.Valid;
      r := CodeRows(chunk, dict);
      RowIn(chunk, r);
      assert r == chunk.rows ==> ChunkRows(chunk)[..r] == ChunkRows(chunk);
      if r == chunk.rows {
        var _ := dict.NoteRows(chunk.rows);
      }
    }

    /** Stop coding in the middle of a chunk: what is coded is written out, and the rows from `r` on follow. */
    method Unpack(chunk: TextChunk, dict: Dict, r: nat, ghost was: seq<Row>)
      requires ChunkOk(chunk) && r <= chunk.rows && got == was + ChunkRows(chunk)[..r]
      requires dict.Valid() && dict.gaveUp && coded && !over && Valid(dict.Values())
      modifies this, dict`gaveUp
      ensures dict.Valid() && dict.Values() == old(dict.Values()) && dict.gaveUp && !coded && limit == old(limit) && Valid([])
      ensures if over then TextSize(was + ChunkRows(chunk)) > limit else got == was + ChunkRows(chunk) && |bytes| <= limit
    {
      hide Cuts, Pieces, Distinct, RowCodes, AllValid, TextSize, ChunkRow, ChunkOk, Firsts, Dict.Because, TextAcc.Valid;
      ghost var all := was + ChunkRows(chunk);
      SizePrefix(all, |was| + r);
      assert all[..|was| + r] == was + ChunkRows(chunk)[..r];
      assert was + ChunkRows(chunk)[..r] + ChunkRows(chunk)[r..] == all;
      GiveUp(dict);
      if over {
        assert TextSize(all) > limit;
      }
      PushRows(chunk, r);
    }

    /** Add a chunk without entries: its rows coded one by one, while the dictionary lasts. */
    method AddRows(chunk: TextChunk, dict: Dict)
      requires ChunkOk(chunk) && AllValid(chunk.values) && chunk.codes == None && coded && !over
      requires dict.Valid() && !dict.gaveUp && Valid(dict.Values())
      modifies this, dict
      ensures dict.Valid() && old(dict.Values()) <= dict.Values() && dict.sent == old(dict.sent)
      ensures Valid(dict.Values()) && coded == !dict.gaveUp
      ensures coded ==> dict.listed == old(dict.listed) + Present(ChunkRows(chunk)) && dict.rows == old(dict.rows) + chunk.rows
      ensures !coded ==> dict.why == MostlyDistinct(old(dict.rows) + chunk.rows) || exists v :: v in chunk.values && NoPlaceFor(dict, v)
      ensures !over ==> got == old(got) + ChunkRows(chunk)
      ensures limit == old(limit) && (over ==> TextSize(old(got) + ChunkRows(chunk)) > limit)
      ensures !over && !coded ==> |bytes| <= Most(limit, |old(bytes)|)
    {
      hide Cuts, Pieces, Distinct, Blanked, Flags, RowCodes, AllValid, TextSize, ChunkRow, ChunkOk, Firsts, Present, Dict.Because;
      var r := CodeAll(chunk, dict);
      assert r == chunk.rows ==> ChunkRows(chunk)[..r] == ChunkRows(chunk);
      if dict.gaveUp {
        Unpack(chunk, dict, r, old(got));
      }
    }

    /** Add a chunk, coded while the dictionary lasts. */
    method Add(chunk: TextChunk, dict: Dict)
      requires ChunkOk(chunk) && (coded ==> AllValid(chunk.values) && !dict.gaveUp) && dict.Valid() && !over && Valid(dict.Values())
      modifies this, dict
      ensures dict.Valid() && old(dict.Values()) <= dict.Values() && dict.sent == old(dict.sent)
      ensures Valid(dict.Values()) && (coded <==> old(coded) && !dict.gaveUp)
      ensures !old(coded) ==> dict.listed == old(dict.listed) && dict.rows == old(dict.rows) && dict.gaveUp == old(dict.gaveUp)
      ensures coded ==> dict.listed == old(dict.listed) + Listed(chunk) && dict.rows == old(dict.rows) + chunk.rows
      ensures old(coded) && !coded ==> dict.why == MostlyDistinct(old(dict.rows) + chunk.rows) || exists v :: v in chunk.values && NoPlaceFor(dict, v)
      ensures !over ==> got == old(got) + ChunkRows(chunk)
      ensures limit == old(limit) && (over ==> TextSize(old(got) + ChunkRows(chunk)) > limit)
      ensures !over && !coded ==> |bytes| <= Most(limit, |old(bytes)|)
    {
      hide Cuts, Pieces, Distinct, Blanked, Flags, RowCodes, AllValid, TextSize, ChunkRow, Firsts, Present, Dict.Because;
      ghost var all := old(got) + ChunkRows(chunk);
      assert ChunkRows(chunk)[0..] == ChunkRows(chunk) && ChunkRows(chunk)[..0] == [] && old(got) + [] == old(got);
      if coded {
        if chunk.codes == None {
          AddRows(chunk, dict);
          return;
        }
        var kept := AddEntries(chunk, dict);
        if kept {
          return;
        }
        Unpack(chunk, dict, 0, old(got));
        return;
      }
      PushRows(chunk, 0);
    }
  }

  /** The dictionary was given up because it had no place for `v`, or no memory. */
  ghost predicate NoPlaceFor(dict: Dict, v: seq<byte>)
    reads dict
  {
    dict.why == if dict.roomy then NoPlace(v) else OutOfMemory
  }

  lemma NonePresent()
    ensures Present([]) == []
  {}

  lemma RowIn(c: TextChunk, r: nat)
    requires ChunkOk(c)
    ensures r < c.rows && ChunkRow(c, r) != None ==> ChunkRow(c, r).value in c.values
  {}

  lemma RowCodesJoin(a: seq<nat>, b: seq<nat>, values: seq<seq<byte>>, rows: seq<Row>, more: seq<Row>)
    requires RowCodes(a, values, rows) && RowCodes(b, values, more)
    ensures RowCodes(a + b, values, rows + more)
  {}

  /** A chunk's codes, through the codes of its entries, are those of its rows. */
  lemma RecodedRows(chunk: TextChunk, map': seq<nat>, values: seq<seq<byte>>)
    requires ChunkOk(chunk) && chunk.codes != None && CodesAre(map', values, chunk.values) && |values| <= I32_MAX
    ensures forall i :: 0 <= i < chunk.rows ==> chunk.codes.value[i] == NULL_CODE || chunk.codes.value[i] < |map'|
    ensures RowCodes(Recode(chunk.codes.value, map'), values, ChunkRows(chunk))
  {
    var cs := chunk.codes.value;
    forall i | 0 <= i < |cs|
      ensures var code := Recode(cs, map')[i];
              if ChunkRows(chunk)[i] == None then code == NULL_CODE
              else code < |values| && code < NULL_CODE && values[code] == ChunkRows(chunk)[i].value
    {
      if cs[i] != NULL_CODE {
        assert map'[cs[i]] < |values|;
      }
    }
  }


  /** A chunk's codes turned into ours. */
  function Recode(cs: seq<nat>, map': seq<nat>): (codes: seq<nat>)
    requires forall i :: 0 <= i < |cs| ==> cs[i] == NULL_CODE || cs[i] < |map'|
    ensures |codes| == |cs|
  {
    seq(|cs|, i requires 0 <= i < |cs| => if cs[i] == NULL_CODE then NULL_CODE else map'[cs[i]])
  }
}
