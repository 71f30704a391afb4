/** `crates/dta-ffi/src/parquet_wasm.rs`, `js/src/parquet.ts`: a text column over one read of a Parquet file, both halves. */
module TextColumn {
  import opened Wrappers
  import opened Bits
  import opened Utf
  import opened Spans
  import opened Dictionary
  import opened TextAccumulator
  import opened Levels

  // ---------------------------------------------------------------- the module

  /** A call's text column as handed over. */
  datatype Out =
    | Coded(codes: seq<nat>, newBytes: seq<byte>, newUtf16: seq<nat>)
    | Plain(bytes: seq<byte>, ends: seq<nat>, missing: seq<nat>, utf16: Option<seq<nat>>)

  /** Where values end, in UTF-16 units; None for ASCII, whose byte ends serve. */
  method Utf16EndsOf(bytes: seq<byte>, ends: seq<nat>) returns (u: Option<seq<nat>>)
    requires Cuts(ends, |bytes|) && AllValid(Pieces(bytes, ends))
    ensures u == None <==> Ascii(bytes)
    ensures u != None ==> u.value == Utf16Ends(Pieces(bytes, ends))
  {
    if Ascii(bytes) {
      return None;
    }
    var us := CountUnits(bytes, ends);
    return Some(us);
  }

  method CountUnits(bytes: seq<byte>, ends: seq<nat>) returns (us: seq<nat>)
    requires Cuts(ends, |bytes|) && AllValid(Pieces(bytes, ends))
    ensures us == Utf16Ends(Pieces(bytes, ends))
  {
    hide Cuts, Pieces, Ascii, Valid, Utf16Len;
    ghost var ps := Pieces(bytes, ends);
    us := [];
    var units, i := 0, 0;
    while i < |ends|
      invariant i <= |ends| && us == Utf16Ends(ps[..i]) && units == Start(us, i)
    {
      var v := Slice(bytes, ends, i);
      LenByAscii(v);
      Utf16EndsPush(ps[..i], v);
      units := units + if Ascii(v) then |v| else Utf16Len(v);
      us := us + [units];
      assert ps[..i] + [v] == ps[..i + 1];
      i := i + 1;
    }
    assert ps[..i] == ps;
  }

  /** What a call may hand over for `rows`, by a dictionary whose first `sent` values were handed over before. */
  ghost predicate Faithful(out: Out, rows: seq<Row>, values: seq<seq<byte>>, sent: nat, binary: bool)
  {
    match out
    case Coded(codes, newBytes, newUtf16) =>
      && !binary && RowCodes(codes, values, rows) && sent <= |values|
      && newBytes == Join(values[sent..]) && newUtf16 == Utf16Ends(values[sent..])
    case Plain(bytes, ends, missing, utf16) =>
      && Cuts(ends, |bytes|) && Pieces(bytes, ends) == Blanked(rows) && missing == Flags(rows)
      && (if utf16 == None then binary || Ascii(bytes) else !binary && utf16.value == Utf16Ends(Blanked(rows)))
  }

  /** A row of a text column is UTF-8. */
  ghost predicate TextRows(rows: seq<Row>, binary: bool)
  {
    !binary ==> AllValid(Blanked(rows))
  }

  /** The text of the rows so far passes what a chunk leaves of the budget. */
  ghost predicate Passed(chunks: seq<TextChunk>, limits: seq<nat>)
    requires ChunksOk(chunks) && |limits| == |chunks|
  {
    exists i :: 0 <= i < |chunks| && TextSize(AllRows(chunks[..i + 1])) > limits[i]
  }

  /** The bytes handed over are within what some chunk left of the budget. */
  ghost predicate Kept(bytes: seq<byte>, limits: seq<nat>)
  {
    bytes == [] || exists i :: 0 <= i < |limits| && |bytes| <= limits[i]
  }

  lemma PassedAt(chunks: seq<TextChunk>, limits: seq<nat>, i: nat)
    requires ChunksOk(chunks) && |limits| == |chunks| && i < |chunks| && TextSize(AllRows(chunks[..i + 1])) > limits[i]
    ensures Passed(chunks, limits)
  {}

  lemma KeptSame(bytes: seq<byte>, was: seq<byte>, limits: seq<nat>)
    requires Kept(was, limits) && |bytes| == |was|
    ensures Kept(bytes, limits)
  {}

  lemma KeptAt(bytes: seq<byte>, was: seq<byte>, limits: seq<nat>, i: nat)
    requires Kept(was, limits) && i < |limits| && |bytes| <= Most(limits[i], |was|)
    ensures Kept(bytes, limits)
  {}

  /** A dictionary's values, how many of them have been handed over, whether it is given up, and what it has coded. */
  datatype DictState = DictState(values: seq<seq<byte>>, sent: nat, gaveUp: bool, listed: seq<seq<byte>>, rows: nat)

  /** A new dictionary. */
  function NewState(): DictState
  {
    DictState([], 0, false, [], 0)
  }

  ghost function StateOf(dict: Dict): DictState
    requires dict.Valid()
    reads dict
  {
    DictState(dict.Values(), dict.sent, dict.gaveUp, dict.listed, dict.rows)
  }

  /** A dictionary while a call is read: values are only added, and none handed over. */
  ghost predicate Later(was: DictState, dict: Dict)
    reads dict
  {
    dict.Valid() && was.values <= dict.Values() && dict.sent == was.sent && (was.gaveUp ==> dict.gaveUp)
  }

  /** Unless the dictionary is given up, it has coded `rows` rows more, and taken `listed`. */
  ghost predicate Coding(was: DictState, now: DictState, rows: nat, listed: seq<seq<byte>>, binary: bool)
  {
    && now.values == Firsts(now.listed)
    && (!binary && !now.gaveUp ==> !was.gaveUp && now.listed == was.listed + listed && now.rows == was.rows + rows)
  }

  /** A call so far has these rows of the column. */
  ghost predicate Gathering(acc: TextAcc, dict: Dict, binary: bool, was: DictState, rows: seq<Row>, listed: seq<seq<byte>>)
    reads acc, dict
  {
    && Later(was, dict) && acc.Valid(dict.Values()) && !acc.over && acc.got == rows && (acc.coded <==> !binary && !dict.gaveUp)
    && Coding(was, StateOf(dict), |rows|, listed, binary)
  }

  /** What a call hands over stands for its rows, and the values with it have not been handed over before. */
  ghost predicate HandedOut(was: DictState, now: DictState, out: Out, rows: seq<Row>, binary: bool)
  {
    && was.values <= now.values && Faithful(out, rows, now.values, was.sent, binary)
    && now.sent == (if out.Coded? then |now.values| else was.sent)
  }

  /** What a call that gives its rows makes of the dictionary, and hands over. */
  ghost predicate HandedOver(was: DictState, now: DictState, out: Out, rows: seq<Row>, listed: seq<seq<byte>>, binary: bool)
  {
    && HandedOut(was, now, out, rows, binary) && (was.gaveUp ==> now.gaveUp)
    && (out.Coded? <==> !binary && !now.gaveUp) && Coding(was, now, |rows|, listed, binary)
  }

  /** What a call makes of the dictionary when it is stopped after the chunks that `came`. */
  ghost predicate StoppedWith(was: DictState, now: DictState, came: seq<TextChunk>, binary: bool)
  {
    ChunksOk(came) && Coding(was, now, |AllRows(came)|, AllListed(came), binary)
  }

  /** The chunks that come before a call is stopped. */
  function FirstChunks(chunks: seq<TextChunk>, core: nat): seq<TextChunk>
  {
    if core <= |chunks| then chunks[..core] else chunks
  }

  /** A chunk more, against `limit`. */
  method TakeChunk(acc: TextAcc, dict: Dict, binary: bool, chunk: TextChunk, limit: nat, ghost was: DictState, ghost rows: seq<Row>,
      ghost listed: seq<seq<byte>>)
    requires Gathering(acc, dict, binary, was, rows, listed) && ChunkOk(chunk) && (!binary ==> AllValid(chunk.values))
    modifies acc, dict
    ensures Later(was, dict) && (acc.over ==> binary || dict.gaveUp)
    ensures if acc.over then TextSize(rows + ChunkRows(chunk)) > limit
            else Gathering(acc, dict, binary, was, rows + ChunkRows(chunk), listed + Listed(chunk))
    ensures !acc.over ==> |acc.bytes| <= Most(limit, |old(acc.bytes)|)
  {
    hide Cuts, Pieces, Blanked, Flags, RowCodes, Distinct, ChunkOk, AllValid, TextSize, Firsts, Listed;
    acc.limit := limit;
    acc.Add(chunk, dict);
  }

  /** The rows of a call, when all have come. */
  method HandOver(acc: TextAcc, dict: Dict, binary: bool, ghost was: DictState, ghost rows: seq<Row>, ghost listed: seq<seq<byte>>)
    returns (out: Out)
    requires Gathering(acc, dict, binary, was, rows, listed) && TextRows(rows, binary)
    modifies dict`sent
    ensures dict.Valid() && HandedOver(was, StateOf(dict), out, rows, listed, binary)
    ensures BytesIn(out) == |acc.bytes|
  {
    hide Cuts, Pieces, Blanked, Flags, RowCodes, Distinct, Valid, AllValid, Utf16Ends, Join, TextSize, Firsts;
    if acc.coded {
      var newBytes, newUtf16 := dict.TakeNew();
      return Coded(acc.codes, newBytes, newUtf16);
    }
    var utf16 := None;
    if !binary {
      utf16 := Utf16EndsOf(acc.bytes, acc.ends);
    }
    return Plain(acc.bytes, acc.ends, acc.missing, utf16);
  }

  /** How many bytes of rows' own text a call hands over. */
  function BytesIn(out: Out): nat {
    if out.Plain? then |out.bytes| else 0
  }

  lemma NoneGathered(acc: TextAcc, dict: Dict, binary: bool, chunks: seq<TextChunk>)
    requires dict.Valid() && acc.Valid(dict.Values()) && !acc.over && acc.got == [] && (acc.coded <==> !binary && !dict.gaveUp) && ChunksOk(chunks)
    ensures Gathering(acc, dict, binary, StateOf(dict), AllRows(chunks[..0]), AllListed(chunks[..0]))
  {
    hide Firsts, TextAcc.Valid;
  }

  lemma StoppedAt(acc: TextAcc, dict: Dict, binary: bool, was: DictState, chunks: seq<TextChunk>, i: nat)
    requires ChunksOk(chunks) && i <= |chunks| && Gathering(acc, dict, binary, was, AllRows(chunks[..i]), AllListed(chunks[..i]))
    ensures Later(was, dict) && StoppedWith(was, StateOf(dict), chunks[..i], binary)
  {
    hide Coding, Dict.Valid, TextAcc.Valid, ChunkOk, AllListed, AllRows;
  }

  /** A dictionary given up has nothing to have coded. */
  lemma StoppedOver(dict: Dict, binary: bool, was: DictState, chunks: seq<TextChunk>)
    requires Later(was, dict) && ChunksOk(chunks) && (binary || dict.gaveUp)
    ensures StoppedWith(was, StateOf(dict), chunks, binary)
  {
    hide Firsts, ChunkOk, AllListed, AllRows;
  }

  /**
   The text half of one call: its rows, or None when its text passes the budget.
   `limits` is what the other columns leave of it as each chunk comes, and the
   core, or another column, may stop the call after `core` of this one's chunks.
   */
  method ReadCall(dict: Dict, binary: bool, chunks: seq<TextChunk>, limits: seq<nat>, core: nat) returns (out: Option<Out>)
    requires dict.Valid() && ChunksOk(chunks) && |limits| == |chunks| && TextRows(AllRows(chunks), binary)
    requires !binary ==> forall i :: 0 <= i < |chunks| ==> AllValid(chunks[i].values)
    modifies dict
    ensures if out == None then Later(old(StateOf(dict)), dict) && StoppedWith(old(StateOf(dict)), StateOf(dict), FirstChunks(chunks, core), binary)
            else dict.Valid() && HandedOver(old(StateOf(dict)), StateOf(dict), out.value, AllRows(chunks), AllListed(chunks), binary)
    ensures out == None ==> core <= |chunks| || Passed(chunks, limits)
    ensures out != None ==> core > |chunks| && (out.value.Plain? ==> Kept(out.value.bytes, limits))
  {
    hide ChunkOk, AllValid, Passed, TextSize, TextRows, HandedOver, TextAcc.Valid, Listed, Firsts, Gathering, Later, StoppedWith, Dict.Valid,
        ChunkRows, AllListed, AllRows, StateOf;
    ghost var was := StateOf(dict);
    var acc := new TextAcc(!binary && !dict.gaveUp);
    NoneGathered(acc, dict, binary, chunks);
    assert Kept([], limits);
    var i := 0;
    while i < |chunks|
      invariant i <= |chunks| && fresh(acc) && Gathering(acc, dict, binary, was, AllRows(chunks[..i]), AllListed(chunks[..i]))
      invariant i <= core && Kept(acc.bytes, limits)
    {
      if i == core {
        StoppedAt(acc, dict, binary, was, chunks, i);
        return None;
      }
      ghost var kept := acc.bytes;
      TakeChunk(acc, dict, binary, chunks[i], limits[i], was, AllRows(chunks[..i]), AllListed(chunks[..i]));
      AllRowsPush(chunks, i);
      AllListedPush(chunks, i);
      if acc.over {
        PassedAt(chunks, limits, i);
        StoppedOver(dict, binary, was, FirstChunks(chunks, core));
        return None;
      }
      KeptAt(acc.bytes, kept, limits, i);
      i := i + 1;
    }
    assert chunks[..i] == chunks;
    if i == core {
      StoppedAt(acc, dict, binary, was, chunks, i);
      return None;
    }
    var o := HandOver(acc, dict, binary, was, AllRows(chunks), AllListed(chunks));
    if o.Plain? {
      KeptSame(o.bytes, acc.bytes, limits);
    }
    return Some(o);
  }

  // ---------------------------------------------------------------- JavaScript

  type JsString = seq<unit>

  /** What a row of a string column holds. */
  datatype Cell = Hole | Str(text: JsString) | Bin(bytes: seq<byte>)

  /** The cell a row reads as; a null also has its missing flag. */
  ghost function CellOf(row: Row, binary: bool): Cell
    requires !binary ==> Valid(RowBytes(row))
  {
    if binary then Bin(RowBytes(row)) else Str(Text(RowBytes(row)))
  }

  /** The values new in a call: one decode, and a substring of it each. */
  method NewTexts(newBytes: seq<byte>, newUtf16: seq<nat>, ghost added: seq<seq<byte>>) returns (texts: seq<JsString>)
    requires AllValid(added) && newBytes == Join(added) && newUtf16 == Utf16Ends(added)
    ensures texts == Texts(added)
  {
    hide Cuts, Pieces, Text, Texts, Utf16Ends, Join;
    CutText(added);
    texts := [];
    if newUtf16 != [] {
      var text := Text(newBytes);
      var from, i := 0, 0;
      while i < |newUtf16|
        invariant i <= |newUtf16| && from == Start(newUtf16, i) && texts == Texts(added)[..i]
      {
        PieceIs(text, newUtf16, i);
        texts := texts + [text[from..newUtf16[i]]];
        from := newUtf16[i];
        i := i + 1;
      }
    }
  }

  class Column {
    const count: nat
    /** A dictionary column: codes into `levels`; else a string column. */
    var dictionary: bool
    var values: array<Cell>
    const codes: array<nat>
    const missing: array<nat>
    var levels: seq<JsString>
    /** The module dictionary's values so far. */
    var seen: seq<JsString>

    constructor (count: nat, dictionary: bool)
      ensures Shaped() && this.count == count && this.dictionary == dictionary && seen == [] && levels == []
      ensures fresh(values) && fresh(codes) && fresh(missing)
      ensures forall i :: 0 <= i < count ==> missing[i] == 0
    {
      this.count, this.dictionary := count, dictionary;
      values := new Cell[count](_ => Hole);
      codes := new nat[count](_ => 0);
      missing := new nat[count](_ => 0);
      levels, seen := [], [];
    }

    ghost predicate Shaped()
      reads this
    {
      values.Length == codes.Length == missing.Length == count && codes != missing
    }

    /** What row `i` holds, whichever kind the column is. */
    ghost predicate Shows(i: nat, row: Row, binary: bool)
      requires Shaped() && i < count && (!binary ==> Valid(RowBytes(row)))
      reads this, values, codes, missing
    {
      if row == None then missing[i] == 1 && (dictionary || values[i] == CellOf(row, binary))
      else missing[i] == 0
           && if dictionary then codes[i] < |levels| && Str(levels[codes[i]]) == CellOf(row, binary)
              else values[i] == CellOf(row, binary)
    }

    /** The rows so far are shown, the rest untouched, and a dictionary column's levels are the values seen. */
    ghost predicate Holds(rows: seq<Row>, binary: bool)
      reads this, values, codes, missing
    {
      && Shaped() && TextRows(rows, binary) && |rows| <= count && (dictionary ==> !binary && levels <= seen)
      && (forall i :: 0 <= i < |rows| ==> (!binary ==> Valid(RowBytes(rows[i]))) && Shows(i, rows[i], binary))
      && forall i :: |rows| <= i < count ==> missing[i] == 0
    }

    /** Rows of a call as codes of the values seen. */
    method PlaceCodes(cs: seq<nat>, at: nat, ghost rows: seq<Row>, ghost more: seq<Row>, ghost vals: seq<seq<byte>>)
      requires Holds(rows, false) && at == |rows| && at + |cs| <= count
      requires RowCodes(cs, vals, more) && AllValid(vals) && seen == Texts(vals)
      modifies this`levels, values, codes, missing
      ensures Holds(rows + more, false) && levels == if dictionary then seen else old(levels)
    {
      hide RowCodes, Text, Valid, AllValid, Texts, Blanked, Holds;
      if dictionary {
        TakeLevels(rows);
      }
      RowsAreText(cs, vals, more);
      HeldText(rows, false);
      var i := 0;
      assert rows + more[..0] == rows;
      while i < |cs|
        invariant i <= |cs| && |more| == |cs| && Holds(rows + more[..i], false) && levels == if dictionary then seen else old(levels)
      {
        CodedRow(cs, vals, more, i);
        MoreRows(rows, more, i, false);
        PlaceCode(cs[i], at + i, rows + more[..i], more[i]);
        i := i + 1;
      }
      assert more[..i] == more;
    }

    lemma HeldText(rows: seq<Row>, binary: bool)
      requires Holds(rows, binary)
      ensures TextRows(rows, binary)
    {}

    method TakeLevels(ghost rows: seq<Row>)
      requires Holds(rows, false)
      modifies this`levels
      ensures Holds(rows, false) && levels == seen
    {
      hide Text, Valid, CellOf;
      levels := seen;
    }

    /** A row's code, as it is or as the value it stands for. */
    method PlaceCode(code: nat, p: nat, ghost rows: seq<Row>, ghost row: Row)
      requires Holds(rows, false) && TextRows(rows + [row], false) && p == |rows| < count && (dictionary ==> levels == seen)
      requires Valid(RowBytes(row)) && (code == NULL_CODE <==> row == None)
      requires if code == NULL_CODE then CellOf(row, false) == Str([]) else code < |seen| && CellOf(row, false) == Str(seen[code])
      modifies values, codes, missing
      ensures Holds(rows + [row], false)
    {
      hide Text, Valid, TextRows, CellOf;
      if dictionary {
        if code == NULL_CODE {
          missing[p] := 1;
        } else {
          codes[p] := code;
        }
      } else if code == NULL_CODE {
        values[p] := Str([]);
        missing[p] := 1;
      } else {
        values[p] := Str(seen[code]);
      }
    }

    /** Turn a dictionary column into a string column, row for row. */
    method ToStrings(at: nat, ghost rows: seq<Row>)
      requires Holds(rows, false) && at == |rows| && dictionary
      modifies this`values, this`dictionary
      ensures Holds(rows, false) && !dictionary && fresh(values)
    {
      hide Text, Valid, AllValid, Blanked;
      EmptyText();
      var strings := new Cell[count](_ => Hole);
      var i := 0;
      while i < at
        invariant i <= at && Holds(rows, false) && dictionary
        invariant forall j :: 0 <= j < i ==> strings[j] == CellOf(rows[j], false)
      {
        assert Shows(i, rows[i], false);
        strings[i] := if missing[i] == 1 then Str([]) else Str(levels[codes[i]]);
        i := i + 1;
      }
      values := strings;
      dictionary := false;
    }

    /** Rows of a call as they are: cut out of one decode of its text, or out of its bytes. */
    method PlacePlain(bytes: seq<byte>, ends: seq<nat>, flags: seq<nat>, utf16: Option<seq<nat>>, binary: bool, at: nat,
        ghost rows: seq<Row>, ghost more: seq<Row>)
      requires Holds(rows, binary) && at == |rows| && at + |ends| <= count && !dictionary
      requires Faithful(Plain(bytes, ends, flags, utf16), more, [], 0, binary) && TextRows(more, binary)
      modifies values, missing
      ensures Holds(rows + more, binary)
    {
      hide Text, Valid, AllValid, Blanked, Cuts, Pieces, Ascii, Holds, CellOf, TextRows, Flags;
      PlainLengths(bytes, ends, flags, more);
      HeldText(rows, binary);
      var i := 0;
      assert rows + more[..0] == rows;
      if binary {
        while i < |ends|
          invariant i <= |ends| && Holds(rows + more[..i], binary) && !dictionary
        {
          PieceIs(bytes, ends, i);
          PlainRow(bytes, ends, flags, more, i);
          MoreRows(rows, more, i, binary);
          CellIs(more[i]);
          PlaceCell(if flags[i] == 1 then Bin([]) else Bin(bytes[Start(ends, i)..ends[i]]), flags[i], at + i, binary, rows + more[..i], more[i]);
          i := i + 1;
        }
      } else {
        PlainText(bytes, ends, flags, utf16, more);
        var text := Text(bytes);
        var us := if utf16 != None then utf16.value else ends;
        while i < |ends|
          invariant i <= |ends| && Holds(rows + more[..i], binary) && !dictionary
        {
          PieceIs(text, us, i);
          PlainRow(bytes, ends, flags, more, i);
          RowIsText(more, i);
          MoreRows(rows, more, i, binary);
          CellIs(more[i]);
          PlaceCell(Str(text[Start(us, i)..us[i]]), flags[i], at + i, binary, rows + more[..i], more[i]);
          i := i + 1;
        }
      }
      assert more[..|ends|] == more;
    }

    method PlaceCell(cell: Cell, flag: nat, p: nat, binary: bool, ghost rows: seq<Row>, ghost row: Row)
      requires Holds(rows, binary) && TextRows(rows + [row], binary) && p == |rows| < count && !dictionary
      requires (!binary ==> Valid(RowBytes(row))) && cell == CellOf(row, binary) && flag == if row == None then 1 else 0
      modifies values, missing
      ensures Holds(rows + [row], binary)
    {
      hide Text, Valid, TextRows, CellOf;
      missing[p] := flag;
      values[p] := cell;
    }

    /** One call's rows into the column, from row `at`. */
    method Place(out: Out, binary: bool, at: nat, ghost rows: seq<Row>, ghost more: seq<Row>, ghost vals: seq<seq<byte>>, ghost sent: nat)
      requires Holds(rows, binary) && at == |rows| && at + |more| <= count
      requires Faithful(out, more, vals, sent, binary) && AllValid(vals) && TextRows(more, binary)
      requires out.Coded? ==> seen == Texts(vals[..sent])
      modifies this, values, codes, missing
      ensures Holds(rows + more, binary) && fresh({values} - {old(values)})
      ensures seen == if out.Coded? then Texts(vals) else old(seen)
      ensures dictionary == (old(dictionary) && out.Coded?) && (dictionary ==> levels == seen)
    {
      hide Text, Valid, Blanked, Cuts, Pieces, Ascii, RowCodes, CellOf;
      match out {
        case Coded(cs, newBytes, newUtf16) =>
          var added := NewTexts(newBytes, newUtf16, vals[sent..]);
          seen := seen + added;
          TextsJoin(vals, sent);
          CodesLength(cs, vals, more);
          PlaceCodes(cs, at, rows, more, vals);
        case Plain(bytes, ends, flags, utf16) =>
          PlainLengths(bytes, ends, flags, more);
          if dictionary {
            ToStrings(at, rows);
          }
          PlacePlain(bytes, ends, flags, utf16, binary, at, rows, more);
      }
    }
  }

  lemma PlainLengths(bytes: seq<byte>, ends: seq<nat>, flags: seq<nat>, more: seq<Row>)
    requires Cuts(ends, |bytes|) && Pieces(bytes, ends) == Blanked(more) && flags == Flags(more)
    ensures |ends| == |flags| == |more|
  {}

  lemma PlainRow(bytes: seq<byte>, ends: seq<nat>, flags: seq<nat>, more: seq<Row>, i: nat)
    requires Cuts(ends, |bytes|) && Pieces(bytes, ends) == Blanked(more) && flags == Flags(more) && i < |more|
    ensures |ends| == |more| && Pieces(bytes, ends)[i] == RowBytes(more[i])
    ensures flags[i] == if more[i] == None then 1 else 0
  {
    assert Blanked(more)[i] == RowBytes(more[i]);
  }

  lemma CellIs(row: Row)
    ensures CellOf(row, true) == Bin(RowBytes(row)) && (row == None ==> RowBytes(row) == [])
    ensures Valid(RowBytes(row)) ==> CellOf(row, false) == Str(Text(RowBytes(row)))
  {}

  lemma RowIsText(more: seq<Row>, i: nat)
    requires TextRows(more, false) && i < |more|
    ensures AllValid(Blanked(more)) && Valid(RowBytes(more[i])) && Texts(Blanked(more))[i] == Text(RowBytes(more[i]))
  {
    TextOfRow(more, i);
  }

  lemma TextOfRow(more: seq<Row>, i: nat)
    requires AllValid(Blanked(more)) && i < |more|
    ensures Valid(RowBytes(more[i])) && Texts(Blanked(more))[i] == Text(RowBytes(more[i]))
  {
    hide Valid, Text;
    assert Blanked(more)[i] == RowBytes(more[i]);
  }

  lemma MoreRows(rows: seq<Row>, more: seq<Row>, i: nat, binary: bool)
    requires TextRows(rows, binary) && TextRows(more, binary) && i < |more|
    ensures TextRows(rows + more[..i + 1], binary)
    ensures rows + more[..i + 1] == (rows + more[..i]) + [more[i]]
  {
    if !binary {
      MoreTextRows(rows, more, i);
    }
  }

  /** The text of a call's rows, cut at its UTF-16 ends (or byte ends, for ASCII), is the rows' texts. */
  lemma PlainText(bytes: seq<byte>, ends: seq<nat>, flags: seq<nat>, utf16: Option<seq<nat>>, more: seq<Row>)
    requires Faithful(Plain(bytes, ends, flags, utf16), more, [], 0, false) && TextRows(more, false)
    ensures Valid(bytes)
    ensures var us := if utf16 != None then utf16.value else ends;
            Cuts(us, |Text(bytes)|) && Pieces(Text(bytes), us) == Texts(Blanked(more))
  {
    hide Cuts, Text, Valid;
    JoinCut(bytes, ends);
    CutText(Blanked(more));
    if utf16 == None {
      EndsAgree(Blanked(more));
    }
  }

  lemma EmptyText()
    ensures Valid([]) && Text([]) == []
  {}

  /** Codes of valid values stand for text rows. */
  lemma RowsAreText(cs: seq<nat>, vals: seq<seq<byte>>, more: seq<Row>)
    requires RowCodes(cs, vals, more) && AllValid(vals)
    ensures |more| == |cs| && TextRows(more, false)
  {
    EmptyText();
    forall i | 0 <= i < |more|
      ensures Valid(Blanked(more)[i])
    {
      assert more[i] != None ==> Valid(vals[cs[i]]);
    }
  }

  lemma CodedRow(cs: seq<nat>, vals: seq<seq<byte>>, more: seq<Row>, i: nat)
    requires RowCodes(cs, vals, more) && AllValid(vals) && i < |cs|
    ensures |more| == |cs| && Valid(RowBytes(more[i]))
    ensures cs[i] == NULL_CODE <==> more[i] == None
    ensures cs[i] == NULL_CODE ==> CellOf(more[i], false) == Str([])
    ensures cs[i] != NULL_CODE ==> cs[i] < |vals| && CellOf(more[i], false) == Str(Texts(vals)[cs[i]])
  {
    EmptyText();
  }

  lemma MoreTextRows(rows: seq<Row>, more: seq<Row>, i: nat)
    requires TextRows(rows, false) && TextRows(more, false) && i < |more|
    ensures TextRows(rows + more[..i + 1], false)
    ensures rows + more[..i + 1] == (rows + more[..i]) + [more[i]]
  {
    var bs := Blanked(rows + more[..i + 1]);
    forall j | 0 <= j < |bs|
      ensures Valid(bs[j])
    {
      if j < |rows| {
        assert Valid(Blanked(rows)[j]);
      } else {
        assert Valid(Blanked(more)[j - |rows|]);
      }
    }
  }

  lemma PieceIs<T>(s: seq<T>, ends: seq<nat>, i: nat)
    requires Cuts(ends, |s|) && i < |ends|
    ensures Start(ends, i) <= ends[i] <= |s| && s[Start(ends, i)..ends[i]] == Pieces(s, ends)[i]
  {}

  lemma TextsJoin(vals: seq<seq<byte>>, k: nat)
    requires AllValid(vals) && k <= |vals|
    ensures Texts(vals) == Texts(vals[..k]) + Texts(vals[k..])
  {}

  // ---------------------------------------------------------------- a whole read

  /** The core hands `rows` over as these chunks: any cut, any of them dictionary-coded. */
  ghost predicate Chunked(chunks: seq<TextChunk>, rows: seq<Row>, binary: bool)
  {
    && ChunksOk(chunks) && AllRows(chunks) == rows
    && (!binary ==> forall i :: 0 <= i < |chunks| ==> AllValid(chunks[i].values))
  }

  /** How the module answers the attempts of a read: all of it free. */
  datatype Answers = Answers(
    chunking: (nat, seq<Row>) -> seq<TextChunk>,
    limit: (nat, nat) -> nat,
    core: nat -> nat,
    newRead: nat -> bool)

  /** The module stops the attempt: by the core or another column, or because this column's text passes the budget. */
  ghost predicate Tight(answers: Answers, a: nat, more: seq<Row>)
  {
    var chunks := answers.chunking(a, more);
    ChunksOk(chunks) && (answers.core(a) <= |chunks| || Passed(chunks, LimitsOf(answers, a, |chunks|)))
  }

  function LimitsOf(answers: Answers, a: nat, n: nat): (limits: seq<nat>)
    ensures |limits| == n
  {
    if n == 0 then [] else LimitsOf(answers, a, n - 1) + [answers.limit(a, n - 1)]
  }

  /** A column holds the first `to` of `all` rows, and has seen what its dictionary has handed over. */
  ghost predicate Reads(col: Column, state: DictState, all: seq<Row>, to: nat, binary: bool)
    reads col, col.values, col.codes, col.missing
  {
    to <= |all| == col.count && col.Holds(all[..to], binary) && SeenIs(col.seen, state.values, state.sent)
  }

  /** The calls made of a column gave its first `to` rows; its dictionary, unless given up, has what they had it take, and the column shows what that was after the last to give rows. */
  ghost predicate Tracks(levels: seq<JsString>, dictionary: bool, state: DictState, h: seq<Step>, all: seq<Row>, to: nat, binary: bool)
  {
    && HistoryOk(h) && Follows(h, all) && Given(h) == to <= |all| && state.values == Firsts(state.listed)
    && (!binary && !state.gaveUp ==> state.listed == Taken(h) && state.rows == RowsTaken(h))
    && (dictionary ==> !binary && AllValid(Firsts(Shown(h))) && levels == Texts(Firsts(Shown(h))))
  }

  /** A call that gave its rows. */
  lemma TracksGiven(levels: seq<JsString>, dictionary: bool, was: DictState, now: DictState, chunks: seq<TextChunk>, out: Out, h: seq<Step>,
      all: seq<Row>, to: nat, binary: bool, shows: seq<JsString>)
    requires Tracks(levels, dictionary, was, h, all, to, binary) && ChunksOk(chunks) && AllRows(chunks) <= all[to..]
    requires HandedOver(was, now, out, AllRows(chunks), AllListed(chunks), binary) && AllValid(now.values)
    requires dictionary && out.Coded? ==> shows == Texts(now.values)
    ensures Tracks(shows, dictionary && out.Coded?, now, h + [Tried(chunks, true)], all, to + |AllRows(chunks)|, binary)
  {
    hide Faithful, AllValid, Texts, AllRows, AllListed, ChunksOk, Firsts, Taken, RowsTaken, Shown, Given, Follows, HistoryOk;
    TriedMore(h, chunks, true, all);
  }

  /** A call that was stopped after the chunks that `came`. */
  lemma TracksStopped(levels: seq<JsString>, dictionary: bool, was: DictState, now: DictState, came: seq<TextChunk>, h: seq<Step>,
      all: seq<Row>, to: nat, binary: bool)
    requires Tracks(levels, dictionary, was, h, all, to, binary) && ChunksOk(came) && AllRows(came) <= all[to..]
    requires StoppedWith(was, now, came, binary) && (was.gaveUp ==> now.gaveUp)
    ensures Tracks(levels, dictionary, now, h + [Tried(came, false)], all, to, binary)
  {
    hide AllValid, Texts, AllRows, AllListed, ChunksOk, Firsts, Taken, RowsTaken, Shown, Given, Follows, HistoryOk;
    TriedMore(h, came, false, all);
  }

  /** A dictionary begun again, before any rows are given. */
  lemma TracksAnew(levels: seq<JsString>, dictionary: bool, was: DictState, h: seq<Step>, all: seq<Row>, binary: bool)
    requires Tracks(levels, dictionary, was, h, all, 0, binary)
    ensures Tracks(levels, dictionary, NewState(), h + [Anew], all, 0, binary)
  {
    hide AllValid, Texts, Taken, RowsTaken, Shown, Given, Follows, HistoryOk;
    AnewMore(h, all);
  }

  lemma TracksNothing(dictionary: bool, all: seq<Row>, binary: bool)
    requires dictionary ==> !binary
    ensures Tracks([], dictionary, NewState(), [], all, 0, binary)
  {}

  /** When the core lists every chunk's values as its rows first have them, a column read whole shows its values as they first appear. */
  lemma LevelsInOrder(levels: seq<JsString>, state: DictState, h: seq<Step>, all: seq<Row>)
    requires Tracks(levels, true, state, h, all, |all|, false) && OrderlyHistory(h) && all != []
    ensures AllValid(Firsts(Present(all))) && levels == Texts(Firsts(Present(all)))
  {
    hide Firsts, Present, AllValid, Texts, Follows, OrderlyHistory;
    OrderlyShown(h, all);
  }

  /** One call, from the first row not yet read: the rows join the column, or it is over budget and nothing there changes. */
  method Attempt(dict: Dict, col: Column, binary: bool, answers: Answers, a: nat, at: nat, more: seq<Row>, ghost rows: seq<Row>)
    returns (ok: bool, ghost out: Option<Out>)
    requires dict.Valid() && col.Holds(rows, binary) && SeenIs(col.seen, dict.Values(), dict.sent)
    requires Chunked(answers.chunking(a, more), more, binary) && TextRows(more, binary)
    requires at == |rows| && at + |more| <= col.count
    modifies dict, col, col.values, col.codes, col.missing
    ensures dict.Valid() && col.Holds(if ok then rows + more else rows, binary)
    ensures SeenIs(col.seen, dict.Values(), dict.sent) && old(dict.Values()) <= dict.Values()
    ensures old(dict.gaveUp) ==> dict.gaveUp && dict.sent == old(dict.sent)
    ensures !ok ==> col.seen == old(col.seen) && Tight(answers, a, more)
    ensures fresh({col.values} - {old(col.values)}) && ok == (out != None)
    ensures var chunks := answers.chunking(a, more);
            && ChunksOk(chunks) && AllRows(chunks) == more
            && if ok then HandedOver(old(StateOf(dict)), StateOf(dict), out.value, more, AllListed(chunks), binary)
               else StoppedWith(old(StateOf(dict)), StateOf(dict), FirstChunks(chunks, answers.core(a)), binary)
    ensures ok ==> col.dictionary == (old(col.dictionary) && out.value.Coded?) && (col.dictionary ==> col.levels == Texts(dict.Values()))
    ensures !ok ==> col.dictionary == old(col.dictionary) && col.levels == old(col.levels)
  {
    hide Text, Valid, AllValid, Texts, Blanked, Faithful, Column.Shows, Distinct, Pieces, Cuts, Chunked, SeenIs, TextRows, Passed, Kept, Firsts, Coding;
    var chunks := answers.chunking(a, more);
    ChunkedMeans(chunks, more, binary);
    ghost var was, sent := dict.Values(), dict.sent;
    var call := ReadCall(dict, binary, chunks, LimitsOf(answers, a, |chunks|), answers.core(a));
    SeenGrows(col.seen, was, dict.Values(), sent);
    out := call;
    if call == None {
      return false, None;
    }
    col.Place(call.value, binary, at, rows, more, dict.Values(), sent);
    AllSeen(dict.Values());
    return true, call;
  }

  /** The rows read after the first `n` attempts, of which those that were `oks` gave theirs. */
  function RowsRead(sizes: seq<nat>, oks: seq<bool>, count: nat, n: nat): (d: nat)
    requires n <= |sizes| && n <= |oks|
    ensures d <= count
  {
    if n == 0 then 0 else
    var d := RowsRead(sizes, oks, count, n - 1);
    if oks[n - 1] then d + Clipped(sizes[n - 1], count - d) else d
  }

  function Clipped(size: nat, left: nat): nat
  {
    if size < left then size else left
  }

  lemma {:induction false} ReadBefore(sizes: seq<nat>, oks: seq<bool>, more: bool, count: nat, n: nat)
    requires n <= |oks| && n <= |sizes|
    ensures RowsRead(sizes, oks + [more], count, n) == RowsRead(sizes, oks, count, n)
  {
    if n > 0 {
      ReadBefore(sizes, oks, more, count, n - 1);
    }
  }

  /** Every attempt that gave nothing was stopped by the module. */
  ghost predicate Excused(rows: seq<Row>, sizes: seq<nat>, oks: seq<bool>, answers: Answers)
    requires |oks| <= |sizes|
  {
    forall a: nat :: a < |oks| && !oks[a] ==> Tight(answers, a, Asked(rows, sizes, oks, a))
  }

  /** The rows attempt `a` asks for: up to `sizes[a]` of those not yet read. */
  function Asked(rows: seq<Row>, sizes: seq<nat>, oks: seq<bool>, a: nat): seq<Row>
    requires a < |sizes| && a <= |oks|
  {
    var d := RowsRead(sizes, oks, |rows|, a);
    rows[d..d + Clipped(sizes[a], |rows| - d)]
  }

  predicate NoneGave(oks: seq<bool>, n: nat)
    requires n <= |oks|
  {
    forall i :: 0 <= i < n ==> !oks[i]
  }

  /** What attempt `a` adds to a column's history. */
  ghost function StepsOf(answers: Answers, a: nat, more: seq<Row>, ok: bool, first: bool): seq<Step>
  {
    var chunks := answers.chunking(a, more);
    (if first && answers.newRead(a) then [Anew] else []) + [Tried(if ok then chunks else FirstChunks(chunks, answers.core(a)), ok)]
  }

  /** The history that the first `n` attempts make, of which those that were `oks` gave their rows. */
  ghost function HistoryTo(rows: seq<Row>, sizes: seq<nat>, oks: seq<bool>, answers: Answers, n: nat): seq<Step>
    requires n <= |oks| && n <= |sizes|
  {
    if n == 0 then [] else
    HistoryTo(rows, sizes, oks, answers, n - 1) + StepsOf(answers, n - 1, Asked(rows, sizes, oks, n - 1), oks[n - 1], NoneGave(oks, n - 1))
  }

  lemma {:induction false} HistoryBefore(rows: seq<Row>, sizes: seq<nat>, oks: seq<bool>, ok: bool, answers: Answers, n: nat)
    requires n <= |oks| && n <= |sizes|
    ensures HistoryTo(rows, sizes, oks + [ok], answers, n) == HistoryTo(rows, sizes, oks, answers, n)
  {
    hide Asked, StepsOf;
    if n > 0 {
      HistoryBefore(rows, sizes, oks, ok, answers, n - 1);
      AskedBefore(rows, sizes, oks, ok, n - 1);
      NoneGaveBefore(oks, ok, n - 1);
    }
  }

  lemma NoneGaveBefore(oks: seq<bool>, ok: bool, n: nat)
    requires n <= |oks|
    ensures NoneGave(oks + [ok], n) <==> NoneGave(oks, n)
  {
    assert forall i :: 0 <= i < n ==> (oks + [ok])[i] == oks[i];
  }

  lemma HistoryStep(rows: seq<Row>, sizes: seq<nat>, oks: seq<bool>, ok: bool, answers: Answers)
    requires |oks| < |sizes|
    ensures HistoryTo(rows, sizes, oks + [ok], answers, |oks| + 1)
         == HistoryTo(rows, sizes, oks, answers, |oks|) + StepsOf(answers, |oks|, Asked(rows, sizes, oks, |oks|), ok, NoneGave(oks, |oks|))
  {
    hide Asked, StepsOf;
    HistoryBefore(rows, sizes, oks, ok, answers, |oks|);
    AskedBefore(rows, sizes, oks, ok, |oks|);
    NoneGaveBefore(oks, ok, |oks|);
  }

  /**
   A column read by any sequence of calls, each of any number of rows from the
   first not yet read, each cut into any chunks, each perhaps over budget and
   so tried again: what the column holds is the rows, as they are. It is a
   dictionary column exactly when that was asked for, of text, and no call
   handed its rows over plain, as calls do once the dictionary is given up;
   its levels are then the texts of the values the calls had it take.
   */
  method ReadColumn(hash: seq<byte> -> nat, roomy: bool, rows: seq<Row>, binary: bool, asDictionary: bool, sizes: seq<nat>, answers: Answers)
    returns (col: Column, dict: Dict, done: nat, ghost oks: seq<bool>, ghost plain: bool)
    requires TextRows(rows, binary)
    requires forall a: nat, s: seq<Row> :: TextRows(s, binary) ==> Chunked(answers.chunking(a, s), s, binary)
    ensures done <= |rows| == col.count && col.Holds(rows[..done], binary)
    ensures |oks| == |sizes| && done == RowsRead(sizes, oks, |rows|, |sizes|) && Excused(rows, sizes, oks, answers)
    ensures col.dictionary <==> asDictionary && !binary && !plain
    ensures dict.Valid() && dict.roomy == roomy && (plain && !binary ==> dict.gaveUp)
    ensures Tracks(col.levels, col.dictionary, StateOf(dict), HistoryTo(rows, sizes, oks, answers, |sizes|), rows, done, binary)
  {
    hide *;
    col := new Column(|rows|, asDictionary && !binary);
    dict := NewDict(hash, roomy);
    NothingRead(col, StateOf(dict), rows, binary);
    TracksNothing(asDictionary && !binary, rows, binary);
    var first, a := true, 0;
    done, oks, plain := 0, [], false;
    NoneAsked(rows, sizes, answers);
    while a < |sizes|
      invariant a <= |sizes| && fresh(dict) && dict.Valid() && dict.roomy == roomy && Reads(col, StateOf(dict), rows, done, binary)
      invariant fresh(col) && fresh(col.values) && fresh(col.codes) && fresh(col.missing)
      invariant first ==> col.seen == [] && done == 0
      invariant |oks| == a && done == RowsRead(sizes, oks, |rows|, a) && Excused(rows, sizes, oks, answers)
      invariant (first <==> NoneGave(oks, a)) && (plain && !binary ==> dict.gaveUp && !first)
      invariant col.dictionary <==> asDictionary && !binary && !plain
      invariant Tracks(col.levels, col.dictionary, StateOf(dict), HistoryTo(rows, sizes, oks, answers, a), rows, done, binary)
    {
      ghost var h := HistoryTo(rows, sizes, oks, answers, a);
      if first && answers.newRead(a) {
        ghost var was := StateOf(dict);
        dict := NewDict(hash, roomy);
        ReadAfresh(col, was, StateOf(dict), rows, done, binary);
        TracksAnew(col.levels, col.dictionary, was, h, rows, binary);
        h := h + [Anew];
      }
      ghost var asked := Asked(rows, sizes, oks, a);
      var ok, next, given := NextCall(dict, col, binary, rows, sizes, oks, answers, a, done, h);
      ExcusedStep(rows, sizes, oks, ok, answers);
      ReadStep(sizes, oks, ok, |rows|);
      HistoryStep(rows, sizes, oks, ok, answers);
      NoneGaveStep(oks, ok);
      StepsAre(HistoryTo(rows, sizes, oks, answers, a), answers, a, asked, ok, first);
      plain := plain || given;
      oks := oks + [ok];
      first := first && !ok;
      done, a := next, a + 1;
    }
    ReadMeans(col, StateOf(dict), rows, done, binary);
  }

  lemma NoneGaveStep(oks: seq<bool>, ok: bool)
    ensures NoneGave(oks + [ok], |oks| + 1) <==> NoneGave(oks, |oks|) && !ok
  {
    assert (oks + [ok])[|oks|] == ok;
    assert forall i :: 0 <= i < |oks| ==> (oks + [ok])[i] == oks[i];
  }

  lemma StepsAre(h: seq<Step>, answers: Answers, a: nat, more: seq<Row>, ok: bool, first: bool)
    ensures var last := Tried(if ok then answers.chunking(a, more) else FirstChunks(answers.chunking(a, more), answers.core(a)), ok);
            h + StepsOf(answers, a, more, ok, first) == (if first && answers.newRead(a) then h + [Anew] else h) + [last]
  {}

  /** Attempt `a`, how many rows have been read after it, and whether it handed rows over plain. */
  method NextCall(dict: Dict, col: Column, binary: bool, rows: seq<Row>, sizes: seq<nat>, ghost oks: seq<bool>, answers: Answers, a: nat, done: nat,
      ghost h: seq<Step>)
    returns (ok: bool, next: nat, ghost plain: bool)
    requires a == |oks| < |sizes| && done == RowsRead(sizes, oks, |rows|, a) && TextRows(rows, binary)
    requires forall a: nat, s: seq<Row> :: TextRows(s, binary) ==> Chunked(answers.chunking(a, s), s, binary)
    requires dict.Valid() && Reads(col, StateOf(dict), rows, done, binary)
    requires Tracks(col.levels, col.dictionary, StateOf(dict), h, rows, done, binary)
    modifies dict, col, col.values, col.codes, col.missing
    ensures next == if ok then done + Clipped(sizes[a], |rows| - done) else done
    ensures dict.Valid() && Reads(col, StateOf(dict), rows, next, binary)
    ensures !ok ==> col.seen == old(col.seen) && Tight(answers, a, Asked(rows, sizes, oks, a))
    ensures fresh({col.values} - {old(col.values)})
    ensures (plain ==> ok && (binary || dict.gaveUp)) && (old(dict.gaveUp) ==> dict.gaveUp)
    ensures col.dictionary <==> old(col.dictionary) && !plain
    ensures var chunks := answers.chunking(a, Asked(rows, sizes, oks, a));
            Tracks(col.levels, col.dictionary, StateOf(dict), h + [Tried(if ok then chunks else FirstChunks(chunks, answers.core(a)), ok)], rows, next, binary)
  {
    hide Column.Holds, Distinct, Pieces, Cuts, Chunked, SeenIs, TextRows, AllValid, Tight, RowsRead, LimitsOf, Asked, Tracks, Firsts, Coding, StoppedWith,
        HandedOver;
    AskedIs(rows, sizes, oks, done);
    var n := Clipped(sizes[a], |rows| - done);
    ghost var was, more, levels, dictionary := StateOf(dict), rows[done..done + n], col.levels, col.dictionary;
    TextRowsSlice(rows, binary, done, done + n);
    ghost var out;
    ok, out := Attempt(dict, col, binary, answers, a, done, rows[done..done + n], rows[..done]);
    next := if ok then done + n else done;
    plain := ok && out.value.Plain?;
    assert rows[..done] + rows[done..done + n] == rows[..done + n];
    assert more <= rows[done..];
    if ok {
      GivenPlain(was, StateOf(dict), out.value, more, AllListed(answers.chunking(a, more)), binary);
      SeenMeans(col.seen, dict.Values(), dict.sent);
      TracksGiven(levels, dictionary, was, StateOf(dict), answers.chunking(a, more), out.value, h, rows, done, binary, col.levels);
    } else {
      var came := FirstChunks(answers.chunking(a, more), answers.core(a));
      AllRowsPrefix(answers.chunking(a, more), |came|);
      TracksStopped(levels, dictionary, was, StateOf(dict), came, h, rows, done, binary);
    }
  }

  lemma GivenPlain(was: DictState, now: DictState, out: Out, rows: seq<Row>, listed: seq<seq<byte>>, binary: bool)
    requires HandedOver(was, now, out, rows, listed, binary)
    ensures out.Plain? ==> binary || now.gaveUp
  {}

  lemma SeenMeans(seen: seq<JsString>, values: seq<seq<byte>>, sent: nat)
    requires SeenIs(seen, values, sent)
    ensures AllValid(values)
  {}

  method NewDict(hash: seq<byte> -> nat, roomy: bool) returns (dict: Dict)
    ensures fresh(dict) && dict.Valid() && dict.roomy == roomy && StateOf(dict) == NewState()
  {
    dict := new Dict(hash, roomy);
  }

  lemma NothingRead(col: Column, state: DictState, rows: seq<Row>, binary: bool)
    requires col.Shaped() && col.levels == col.seen == [] && (col.dictionary ==> !binary) && col.count == |rows| && state == NewState()
    requires forall i :: 0 <= i < col.count ==> col.missing[i] == 0
    ensures Reads(col, state, rows, 0, binary)
  {
    NothingSeen();
    NothingHeld(col, binary);
    assert rows[..0] == [];
  }

  /** A column that has seen no values goes with a dictionary that has none. */
  lemma ReadAfresh(col: Column, was: DictState, state: DictState, rows: seq<Row>, to: nat, binary: bool)
    requires Reads(col, was, rows, to, binary) && col.seen == [] && state == NewState()
    ensures Reads(col, state, rows, to, binary)
  {
    hide Column.Holds;
    NothingSeen();
  }

  lemma ReadMeans(col: Column, state: DictState, rows: seq<Row>, to: nat, binary: bool)
    requires Reads(col, state, rows, to, binary)
    ensures to <= |rows| == col.count && col.Holds(rows[..to], binary)
  {}

  lemma NoneAsked(rows: seq<Row>, sizes: seq<nat>, answers: Answers)
    ensures RowsRead(sizes, [], |rows|, 0) == 0 && Excused(rows, sizes, [], answers)
    ensures NoneGave([], 0) && HistoryTo(rows, sizes, [], answers, 0) == []
  {}

  lemma {:induction false} AskedBefore(rows: seq<Row>, sizes: seq<nat>, oks: seq<bool>, ok: bool, a: nat)
    requires a <= |oks| && a < |sizes|
    ensures Asked(rows, sizes, oks + [ok], a) == Asked(rows, sizes, oks, a)
  {
    ReadBefore(sizes, oks, ok, |rows|, a);
  }

  lemma {:induction false} ReadStep(sizes: seq<nat>, oks: seq<bool>, ok: bool, count: nat)
    requires |oks| < |sizes|
    ensures var d := RowsRead(sizes, oks, count, |oks|);
            RowsRead(sizes, oks + [ok], count, |oks| + 1) == if ok then d + Clipped(sizes[|oks|], count - d) else d
  {
    ReadBefore(sizes, oks, ok, count, |oks|);
  }

  lemma {:induction false} ExcusedStep(rows: seq<Row>, sizes: seq<nat>, oks: seq<bool>, ok: bool, answers: Answers)
    requires |oks| < |sizes| && Excused(rows, sizes, oks, answers)
    requires !ok ==> Tight(answers, |oks|, Asked(rows, sizes, oks, |oks|))
    ensures Excused(rows, sizes, oks + [ok], answers)
  {
    hide Tight, RowsRead, Asked;
    forall a: nat | a < |oks + [ok]| && !(oks + [ok])[a]
      ensures Tight(answers, a, Asked(rows, sizes, oks + [ok], a))
    {
      AskedBefore(rows, sizes, oks, ok, a);
    }
  }

  lemma {:induction false} AskedIs(rows: seq<Row>, sizes: seq<nat>, oks: seq<bool>, done: nat)
    requires |oks| < |sizes| && done == RowsRead(sizes, oks, |rows|, |oks|)
    ensures done <= |rows| && Asked(rows, sizes, oks, |oks|) == rows[done..done + Clipped(sizes[|oks|], |rows| - done)]
  {
    hide RowsRead;
  }

  lemma NothingHeld(col: Column, binary: bool)
    requires col.Shaped() && col.levels == [] && (col.dictionary ==> !binary)
    requires forall i :: 0 <= i < col.count ==> col.missing[i] == 0
    ensures col.Holds([], binary)
  {}

  /** Rows as one chunk of their texts. */
  function Whole(rows: seq<Row>): TextChunk
  {
    TextChunk(|rows|, Blanked(rows), None, seq(|rows|, i requires 0 <= i < |rows| => rows[i] == None))
  }

  lemma WholeChunked(rows: seq<Row>, binary: bool)
    requires TextRows(rows, binary)
    ensures Chunked([Whole(rows)], rows, binary)
  {
    var c := Whole(rows);
    assert ChunkOk(c);
    assert ChunkRows(c) == rows;
    AllRowsPush([c], 0);
    assert [c][..1] == [c] && [c][..0] == [];
    assert rows == [] + rows;
  }

  /** What `ReadColumn` asks of the core can be met, whatever else it answers. */
  lemma CanBeAnswered(answers: Answers, binary: bool) returns (plain: Answers)
    ensures plain.limit == answers.limit && plain.core == answers.core && plain.newRead == answers.newRead
    ensures forall a: nat, s: seq<Row> :: TextRows(s, binary) ==> Chunked(plain.chunking(a, s), s, binary)
  {
    plain := answers.(chunking := (a: nat, s: seq<Row>) => [Whole(s)]);
    forall a: nat, s: seq<Row> | TextRows(s, binary)
      ensures Chunked(plain.chunking(a, s), s, binary)
    {
      WholeChunked(s, binary);
    }
  }

  /** JavaScript has seen exactly the dictionary's first `sent` values. */
  ghost predicate SeenIs(seen: seq<JsString>, values: seq<seq<byte>>, sent: nat)
  {
    AllValid(values) && sent <= |values| && seen == Texts(values[..sent])
  }

  lemma NothingSeen()
    ensures SeenIs([], [], 0)
  {}

  lemma SeenGrows(seen: seq<JsString>, was: seq<seq<byte>>, values: seq<seq<byte>>, sent: nat)
    requires SeenIs(seen, was, sent) && was <= values && AllValid(values)
    ensures SeenIs(seen, values, sent) && seen == Texts(values[..sent])
  {
    assert was[..sent] == values[..sent];
  }

  lemma AllSeen(values: seq<seq<byte>>)
    requires AllValid(values)
    ensures SeenIs(Texts(values), values, |values|)
  {
    assert values[..|values|] == values;
  }

  lemma TextRowsSlice(rows: seq<Row>, binary: bool, from: nat, to: nat)
    requires TextRows(rows, binary) && from <= to <= |rows|
    ensures TextRows(rows[from..to], binary)
  {
    if !binary {
      var bs := Blanked(rows[from..to]);
      forall j | 0 <= j < |bs|
        ensures Valid(bs[j])
      {
        assert Valid(Blanked(rows)[from + j]);
      }
    }
  }

  lemma ChunkedMeans(chunks: seq<TextChunk>, rows: seq<Row>, binary: bool)
    requires Chunked(chunks, rows, binary)
    ensures ChunksOk(chunks) && AllRows(chunks) == rows
    ensures !binary ==> forall i :: 0 <= i < |chunks| ==> AllValid(chunks[i].values)
  {}
}
