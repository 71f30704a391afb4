/** `crates/dta-ffi/src/strings.rs`, `js/src/index.ts`: a string column over one read of a .dta file, in plain form or coded. */
module DtaText {
  import opened Wrappers
  import opened Bits
  import opened Utf
  import opened Spans
  import opened Dictionary
  import opened TextColumn

  /** A row's bytes as they are, or none for a binary row. */
  ghost function TextOnly(rows: seq<seq<byte>>, binary: seq<bool>): (ps: seq<seq<byte>>)
    requires |binary| == |rows|
    ensures |ps| == |rows|
  {
    seq(|rows|, i requires 0 <= i < |rows| => if binary[i] then [] else rows[i])
  }

  ghost predicate RowsOk(rows: seq<seq<byte>>, binary: seq<bool>)
  {
    |binary| == |rows| && forall i :: 0 <= i < |rows| ==> !binary[i] ==> Valid(rows[i])
  }

  /** The text bytes, or None for the column's own; the UTF-16 ends, or None for its byte ends. */
  datatype PlainForm = PlainForm(text: Option<seq<byte>>, utf16: Option<seq<nat>>)

  lemma TextOnlyPush(rows: seq<seq<byte>>, binary: seq<bool>, i: nat)
    requires |binary| == |rows| && i < |rows|
    ensures TextOnly(rows, binary)[..i] + [if binary[i] then [] else rows[i]] == TextOnly(rows, binary)[..i + 1]
  {}

  /** The text rows end to end, and every row's UTF-16 end among them. */
  method KeepText(bytes: seq<byte>, ends: seq<nat>, binary: seq<bool>) returns (text: seq<byte>, utf16: seq<nat>)
    requires Cuts(ends, |bytes|) && RowsOk(Pieces(bytes, ends), binary)
    ensures text == Join(TextOnly(Pieces(bytes, ends), binary)) && utf16 == Utf16Ends(TextOnly(Pieces(bytes, ends), binary))
  {
    hide Cuts, Pieces, Ascii, Valid, Utf16Len, TextOnly;
    ghost var rows := Pieces(bytes, ends);
    ghost var kept := TextOnly(rows, binary);
    text, utf16 := [], [];
    var units, i := 0, 0;
    while i < |ends|
      invariant i <= |ends| && text == Join(kept[..i])
      invariant utf16 == Utf16Ends(kept[..i]) && units == Start(utf16, i)
    {
      TextOnlyPush(rows, binary, i);
      if binary[i] {
        NoUnits();
        JoinPush(kept[..i], []);
        Utf16EndsPush(kept[..i], []);
      } else {
        var v := Slice(bytes, ends, i);
        LenByAscii(v);
        JoinPush(kept[..i], v);
        Utf16EndsPush(kept[..i], v);
        units := units + if Ascii(v) then |v| else Utf16Len(v);
        text := text + v;
      }
      utf16 := utf16 + [units];
      i := i + 1;
    }
    assert kept[..i] == kept;
  }

  /** Rows as text with ends, or None for want of memory. */
  method MakePlain(bytes: seq<byte>, ends: seq<nat>, binary: seq<bool>, roomy: bool) returns (r: Option<PlainForm>)
    requires Cuts(ends, |bytes|) && RowsOk(Pieces(bytes, ends), binary)
    ensures r != None ==> PlainFormOf(bytes, ends, binary, r.value)
    ensures r == None ==> !roomy && (true in binary || !Ascii(bytes))
  {
    if true !in binary && Ascii(bytes) {
      return Some(PlainForm(None, None));
    }
    var room := *;
    if !roomy && !room {
      return None;
    }
    var text, utf16 := KeepText(bytes, ends, binary);
    return Some(PlainForm(if true in binary then Some(text) else None, Some(utf16)));
  }

  lemma NoUnits()
    ensures Utf16Len([]) == 0
  {}

  /** The cell a row reads as. */
  ghost function Plainly(row: seq<byte>, binary: bool): Cell
    requires !binary ==> Valid(row)
  {
    if binary then Bin(row) else Str(Text(row))
  }

  class StringColumn {
    const count: nat
    /** A dictionary column: codes into `levels`; else a string column. */
    var dictionary: bool
    var values: array<Cell>
    const codes: array<nat>
    var levels: seq<JsString>
    var seen: seq<JsString>

    constructor (count: nat, dictionary: bool)
      ensures this.count == count && this.dictionary == dictionary && seen == levels == [] && Holds([], [])
      ensures fresh(values) && fresh(codes)
    {
      this.count, this.dictionary := count, dictionary;
      values := new Cell[count](_ => Hole);
      codes := new nat[count](_ => 0);
      levels, seen := [], [];
    }

    ghost predicate Shows(i: nat, row: seq<byte>, binary: bool)
      requires values.Length == codes.Length == count && i < count && (!binary ==> Valid(row))
      reads this, values, codes
    {
      if dictionary then !binary && codes[i] < |levels| && Str(levels[codes[i]]) == Plainly(row, binary)
      else values[i] == Plainly(row, binary)
    }

    ghost predicate Holds(rows: seq<seq<byte>>, binary: seq<bool>)
      reads this, values, codes
    {
      && values.Length == codes.Length == count && |rows| <= count && RowsOk(rows, binary)
      && (dictionary ==> levels <= seen)
      && forall i :: 0 <= i < |rows| ==> (!binary[i] ==> Valid(rows[i])) && Shows(i, rows[i], binary[i])
    }

    /** Rows of a call as codes of the values seen. */
    method PlaceCodes(cs: seq<nat>, at: nat, ghost rows: seq<seq<byte>>, ghost flags: seq<bool>, ghost more: seq<seq<byte>>,
        ghost vals: seq<seq<byte>>)
      requires Holds(rows, flags) && at == |rows| && at + |cs| <= count
      requires CodesAre(cs, vals, more) && AllValid(vals) && seen == Texts(vals)
      modifies this`levels, values, codes
      ensures Holds(rows + more, flags + seq(|more|, _ => false)) && levels == if dictionary then seen else old(levels)
    {
      hide Text, Valid, AllValid, Texts, Shows;
      TakeLevels(rows, flags);
      var i := 0;
      ghost var f: seq<bool> := seq(|more|, _ => false);
      assert rows + more[..0] == rows && flags + f[..0] == flags;
      while i < |cs|
        invariant i <= |cs| == |more| && Holds(rows + more[..i], flags + f[..i]) && levels == if dictionary then seen else old(levels)
      {
        CodedCell(cs, vals, more, i);
        Extend(rows, flags, more, f, i);
        PlaceCode(cs[i], at + i, rows + more[..i], flags + f[..i], more[i]);
        i := i + 1;
      }
      assert more[..i] == more && f[..i] == f;
    }

    method TakeLevels(ghost rows: seq<seq<byte>>, ghost flags: seq<bool>)
      requires Holds(rows, flags)
      modifies this`levels
      ensures Holds(rows, flags) && levels == if dictionary then seen else old(levels)
    {
      hide Text, Valid;
      if dictionary {
        levels := seen;
      }
    }

    method PlaceCode(code: nat, at: nat, ghost rows: seq<seq<byte>>, ghost flags: seq<bool>, ghost row: seq<byte>)
      requires Holds(rows, flags) && at == |rows| < count && (dictionary ==> levels == seen)
      requires Valid(row) && code < |seen| && Str(seen[code]) == Plainly(row, false) && RowsOk(rows + [row], flags + [false])
      modifies values, codes
      ensures Holds(rows + [row], flags + [false])
    {
      hide Text, Valid;
      if dictionary {
        codes[at] := code;
      } else {
        values[at] := Str(seen[code]);
      }
    }

    /** Turn a dictionary column into a string column, row for row. */
    method ToStrings(at: nat, ghost rows: seq<seq<byte>>, ghost flags: seq<bool>)
      requires Holds(rows, flags) && at == |rows| && dictionary
      modifies this`values, this`dictionary
      ensures Holds(rows, flags) && !dictionary && fresh(values)
    {
      hide Text, Valid;
      var strings := new Cell[count](_ => Hole);
      var i := 0;
      while i < at
        invariant i <= at && Holds(rows, flags) && dictionary
        invariant forall j :: 0 <= j < i ==> strings[j] == Plainly(rows[j], flags[j])
      {
        assert Shows(i, rows[i], flags[i]);
        strings[i] := Str(levels[codes[i]]);
        i := i + 1;
      }
      values, dictionary := strings, false;
    }

    /** Rows of a call as they are: text rows cut out of one decode, binary rows out of the column's bytes. */
    method PlacePlain(bytes: seq<byte>, ends: seq<nat>, binary: seq<bool>, form: PlainForm, at: nat, ghost rows: seq<seq<byte>>,
        ghost flags: seq<bool>)
      requires Holds(rows, flags) && at == |rows| && at + |ends| <= count && !dictionary
      requires Cuts(ends, |bytes|) && RowsOk(Pieces(bytes, ends), binary) && PlainFormOf(bytes, ends, binary, form)
      modifies values
      ensures Holds(rows + Pieces(bytes, ends), flags + binary)
    {
      hide Text, Valid, Cuts, Pieces, PlainFormOf;
      PlainCut(bytes, ends, binary, form);
      var text := Text(if form.text != None then form.text.value else bytes);
      var us := if form.utf16 != None then form.utf16.value else ends;
      ghost var more := Pieces(bytes, ends);
      var i := 0;
      assert rows + more[..0] == rows && flags + binary[..0] == flags;
      while i < |ends|
        invariant i <= |ends| && Holds(rows + more[..i], flags + binary[..i])
      {
        PieceIs(text, us, i);
        PieceIs(bytes, ends, i);
        Extend(rows, flags, more, binary, i);
        values[at + i] := if binary[i] then Bin(bytes[Start(ends, i)..ends[i]]) else Str(text[Start(us, i)..us[i]]);
        i := i + 1;
      }
      assert more[..i] == more && binary[..i] == binary;
    }
  }

  lemma CodedCell(cs: seq<nat>, vals: seq<seq<byte>>, more: seq<seq<byte>>, i: nat)
    requires CodesAre(cs, vals, more) && AllValid(vals) && i < |cs|
    ensures cs[i] < |vals| && |cs| == |more| && Valid(more[i]) && Str(Texts(vals)[cs[i]]) == Plainly(more[i], false)
  {}

  lemma Extend(rows: seq<seq<byte>>, flags: seq<bool>, more: seq<seq<byte>>, binary: seq<bool>, i: nat)
    requires i < |more| == |binary| && |rows| == |flags| && RowsOk(rows + more[..i], flags + binary[..i])
    requires !binary[i] ==> Valid(more[i])
    ensures RowsOk(rows + more[..i + 1], flags + binary[..i + 1])
    ensures rows + more[..i + 1] == rows + more[..i] + [more[i]] && flags + binary[..i + 1] == flags + binary[..i] + [binary[i]]
  {
    var rs, fs := rows + more[..i], flags + binary[..i];
    assert rows + more[..i + 1] == rs + [more[i]] && flags + binary[..i + 1] == fs + [binary[i]];
    assert |fs| == |rs|;
  }

  /** What `MakePlain` makes. */
  ghost predicate PlainFormOf(bytes: seq<byte>, ends: seq<nat>, binary: seq<bool>, form: PlainForm)
    requires Cuts(ends, |bytes|) && |binary| == |ends|
  {
    if true !in binary && Ascii(bytes) then form == PlainForm(None, None)
    else form.utf16 == Some(Utf16Ends(TextOnly(Pieces(bytes, ends), binary)))
         && form.text == if true in binary then Some(Join(TextOnly(Pieces(bytes, ends), binary))) else None
  }

  /** The text handed over, cut at the ends handed over, is each text row's text, and nothing for a binary row. */
  lemma PlainCut(bytes: seq<byte>, ends: seq<nat>, binary: seq<bool>, form: PlainForm)
    requires Cuts(ends, |bytes|) && RowsOk(Pieces(bytes, ends), binary) && PlainFormOf(bytes, ends, binary, form)
    ensures var b := if form.text != None then form.text.value else bytes;
            var us := if form.utf16 != None then form.utf16.value else ends;
            && Valid(b) && Cuts(us, |Text(b)|) && |us| == |ends|
            && forall i :: 0 <= i < |ends| && !binary[i] ==> Pieces(Text(b), us)[i] == Text(Pieces(bytes, ends)[i])
  {
    hide Text, Valid, Cuts;
    var kept := TextOnly(Pieces(bytes, ends), binary);
    KeptValid(Pieces(bytes, ends), binary);
    CutText(kept);
    if true !in binary {
      assert kept == Pieces(bytes, ends);
      JoinCut(bytes, ends);
      if Ascii(bytes) {
        EndsAgree(kept);
      }
    }
    var b := if form.text != None then form.text.value else bytes;
    var us := if form.utf16 != None then form.utf16.value else ends;
    assert b == Join(kept) && us == Utf16Ends(kept);
    assert Pieces(Text(b), us) == Texts(kept);
    forall i | 0 <= i < |ends| && !binary[i]
      ensures Pieces(Text(b), us)[i] == Text(Pieces(bytes, ends)[i])
    {
      assert kept[i] == Pieces(bytes, ends)[i];
      assert Texts(kept)[i] == Text(kept[i]);
    }
  }

  lemma KeptValid(rows: seq<seq<byte>>, binary: seq<bool>)
    requires RowsOk(rows, binary)
    ensures AllValid(TextOnly(rows, binary))
  {
    assert Valid([]);
  }

  // ---------------------------------------------------------------- a whole read

  lemma RowsSlice(rows: seq<seq<byte>>, binary: seq<bool>, from: nat, to: nat)
    requires RowsOk(rows, binary) && from <= to <= |rows|
    ensures RowsOk(rows[from..to], binary[from..to])
    ensures rows[..from] + rows[from..to] == rows[..to] && binary[..from] + binary[from..to] == binary[..to]
  {}

  /** What a column shows, and what its dictionary has taken, when the first `done` rows have been read. */
  ghost predicate InOrder(col: StringColumn, dict: Dict, useDictionary: bool, rows: seq<seq<byte>>)
    reads col, dict
  {
    && (useDictionary && !dict.gaveUp ==> dict.listed == rows && dict.rows == |rows|)
    && (col.dictionary ==> AllValid(Firsts(rows)) && col.levels == Texts(Firsts(rows)))
  }

  /** One call's rows: by the dictionary until it is given up, and afterwards as they are; false without the memory. */
  method OneCall(dict: Dict, col: StringColumn, useDictionary: bool, at: nat, more: seq<seq<byte>>, binary: seq<bool>,
      ghost rows: seq<seq<byte>>, ghost flags: seq<bool>)
    returns (ok: bool, ghost plain: bool)
    requires dict.Valid() && col.Holds(rows, flags) && SeenIs(col.seen, dict.Values(), dict.sent)
    requires RowsOk(more, binary) && at == |rows| && at + |more| <= col.count && InOrder(col, dict, useDictionary, rows)
    modifies dict, col, col.values, col.codes
    ensures dict.Valid() && SeenIs(col.seen, dict.Values(), dict.sent)
    ensures old(dict.gaveUp) ==> dict.gaveUp && dict.sent == old(dict.sent)
    ensures col.Holds(if ok then rows + more else rows, if ok then flags + binary else flags)
    ensures dict.roomy ==> ok
    ensures fresh({col.values} - {old(col.values)})
    ensures ok ==> InOrder(col, dict, useDictionary, rows + more)
    ensures col.dictionary <==> old(col.dictionary) && !plain
    ensures plain ==> ok && (!useDictionary || dict.gaveUp)
    ensures ok && !plain ==> useDictionary && !dict.gaveUp
    ensures !ok ==> col.levels == old(col.levels)
    ensures ok && plain && useDictionary && !old(dict.gaveUp) ==> Ended(dict, old(dict.rows), more, binary)
  {
    hide Text, Valid, AllValid, Texts, Cuts, Pieces, Distinct, SeenIs, StringColumn.Shows, CodesAre, PlainFormOf, Join, EndsOf, Firsts, Dict.Cause;
    CutJoined(more);
    var bytes, ends := Join(more), EndsOf(more);
    var coded := None;
    ghost var was, sent := dict.Values(), dict.sent;
    RowsMean(more, binary);
    if useDictionary {
      coded := dict.Code(bytes, ends, binary);
    }
    SeenGrows(col.seen, was, dict.Values(), sent);
    if coded != None {
      var (codes, newBytes, newUtf16) := coded.value;
      assert binary == seq(|more|, _ => false);
      PlaceCoded(col, codes, newBytes, newUtf16, at, rows, flags, more, dict.Values(), sent);
      return true, false;
    }
    var form := MakePlain(bytes, ends, binary, dict.roomy);
    if form == None {
      return false, false;
    }
    if col.dictionary {
      col.ToStrings(at, rows, flags);
    }
    col.PlacePlain(bytes, ends, binary, form.value, at, rows, flags);
    return true, true;
  }

  /** A call's row ended the dictionary, or memory did. */
  ghost predicate Ended(dict: Dict, rows: nat, more: seq<seq<byte>>, binary: seq<bool>)
    reads dict
  {
    || dict.why == OutOfMemory
    || exists i :: 0 <= i < |more| && dict.rows == rows + i + 1 && dict.Cause(dict.why, more[i], i < |binary| && binary[i])
  }

  /** A coded call's values and rows into the column. */
  method PlaceCoded(col: StringColumn, codes: seq<nat>, newBytes: seq<byte>, newUtf16: seq<nat>, at: nat,
    ghost rows: seq<seq<byte>>, ghost flags: seq<bool>, ghost more: seq<seq<byte>>, ghost vals: seq<seq<byte>>, ghost sent: nat)
    requires col.Holds(rows, flags) && SeenIs(col.seen, vals, sent) && CodesAre(codes, vals, more)
    requires newBytes == Join(vals[sent..]) && newUtf16 == Utf16Ends(vals[sent..])
    requires at == |rows| && at + |more| <= col.count
    modifies col, col.values, col.codes
    ensures SeenIs(col.seen, vals, |vals|) && col.Holds(rows + more, flags + seq(|more|, _ => false))
    ensures col.values == old(col.values) && col.dictionary == old(col.dictionary)
    ensures AllValid(vals) && (col.dictionary ==> col.levels == Texts(vals))
  {
    hide Text, Valid, Texts, Cuts, Pieces, Join, Utf16Ends;
    var added := NewTexts(newBytes, newUtf16, vals[sent..]);
    col.seen := col.seen + added;
    TextsJoin(vals, sent);
    CodedLength(codes, vals, more);
    col.PlaceCodes(codes, at, rows, flags, more, vals);
    AllSeen(vals);
  }

  lemma NothingFirst(col: StringColumn, dict: Dict, useDictionary: bool)
    requires col.levels == [] && dict.listed == [] && dict.rows == 0
    ensures InOrder(col, dict, useDictionary, [])
  {}

  lemma OrderMeans(col: StringColumn, dict: Dict, useDictionary: bool, rows: seq<seq<byte>>)
    requires InOrder(col, dict, useDictionary, rows)
    ensures col.dictionary ==> AllValid(Firsts(rows)) && col.levels == Texts(Firsts(rows))
  {}

  lemma CodedLength(codes: seq<nat>, values: seq<seq<byte>>, rows: seq<seq<byte>>)
    requires CodesAre(codes, values, rows)
    ensures |codes| == |rows|
  {}

  lemma RowsMean(rows: seq<seq<byte>>, binary: seq<bool>)
    requires RowsOk(rows, binary)
    ensures forall i :: 0 <= i < |rows| && !(i < |binary| && binary[i]) ==> Valid(rows[i])
  {}

  /** The rows read after `n` calls that ask for `sizes` rows, or as many as are left. */
  function Reach(sizes: seq<nat>, count: nat, n: nat): (d: nat)
    requires n <= |sizes|
    ensures d <= count
  {
    if n == 0 then 0 else
    var d := Reach(sizes, count, n - 1);
    d + Clipped(sizes[n - 1], count - d)
  }

  /**
   A column read in calls of any sizes, whether coded or not and wherever the
   dictionary gives up: what the column holds is the rows, as they are. False
   when memory runs short, and then the rows before that call. It is a
   dictionary column exactly when that was asked for and no call was plain, and
   its levels are then the rows' values, each once, as they first appear.
   */
  method ReadStrings(hash: seq<byte> -> nat, roomy: bool, rows: seq<seq<byte>>, binary: seq<bool>, asDictionary: bool, useDictionary: bool,
      sizes: seq<nat>)
    returns (col: StringColumn, dict: Dict, done: nat, ok: bool, ghost plain: bool)
    requires RowsOk(rows, binary)
    ensures done <= |rows| == col.count && col.Holds(rows[..done], binary[..done])
    ensures (roomy ==> ok) && (ok ==> done == Reach(sizes, |rows|, |sizes|))
    ensures !ok ==> exists a :: 0 <= a < |sizes| && done == Reach(sizes, |rows|, a)
    ensures col.dictionary <==> asDictionary && !plain
    ensures col.dictionary ==> AllValid(Firsts(rows[..done])) && col.levels == Texts(Firsts(rows[..done]))
    ensures dict.Valid() && dict.roomy == roomy && (plain && useDictionary ==> dict.gaveUp) && (dict.gaveUp && ok ==> plain)
  {
    hide Valid, StringColumn.Holds, SeenIs, Pieces, Distinct, Cuts, AllValid, Firsts, Texts, Ended, InOrder, Dict.Because;
    col := new StringColumn(|rows|, asDictionary);
    dict := new Dict(hash, roomy);
    plain := false;
    NothingSeen();
    NothingFirst(col, dict, useDictionary);
    assert rows[..0] == [] && binary[..0] == [];
    done, ok := 0, true;
    var a := 0;
    while a < |sizes|
      invariant done <= |rows| == col.count && fresh(dict) && fresh(col) && fresh(col.values) && fresh(col.codes)
      invariant dict.Valid() && SeenIs(col.seen, dict.Values(), dict.sent) && col.Holds(rows[..done], binary[..done])
      invariant a <= |sizes| && ok && done == Reach(sizes, |rows|, a) && dict.roomy == roomy
      invariant InOrder(col, dict, useDictionary, rows[..done]) && (col.dictionary <==> asDictionary && !plain)
      invariant (plain && useDictionary ==> dict.gaveUp) && (dict.gaveUp ==> plain)
    {
      var n := Clipped(sizes[a], |rows| - done);
      RowsSlice(rows, binary, done, done + n);
      ghost var given;
      OrderMeans(col, dict, useDictionary, rows[..done]);
      ok, given := OneCall(dict, col, useDictionary, done, rows[done..done + n], binary[done..done + n], rows[..done], binary[..done]);
      plain := plain || given;
      if !ok {
        return;
      }
      done, a := done + n, a + 1;
    }
    OrderMeans(col, dict, useDictionary, rows[..done]);
  }
}
