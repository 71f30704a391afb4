/** `crates/dta-ffi/src/strings.rs`: one column's dictionary over one read. */
module Dictionary {
  import opened Wrappers
  import opened Bits
  import opened Utf
  import opened Spans
  import opened Probing

  const MIN_ROWS: nat := 65536
  const MAX_VALUE_BYTES: nat := 16777216
  const MAX_PROBE: nat := 128
  const I32_MAX: nat := 2147483647

  /** Up to eight bytes as a little-endian number. */
  function LeWord(s: seq<byte>): nat
  {
    if s == [] then 0 else s[0] as int + 256 * LeWord(s[1..])
  }

  function Word(s: seq<byte>, from: nat): nat
  {
    var end := if |s| < from + 8 then |s| else from + 8;
    if from < end then LeWord(s[from..end]) else 0
  }

  lemma {:induction false} LeWordInjective(a: seq<byte>, b: seq<byte>)
    requires |a| == |b| && LeWord(a) == LeWord(b)
    ensures a == b
  {
    if a != [] {
      LeWordInjective(a[1..], b[1..]);
      assert a == [a[0]] + a[1..] && b == [b[0]] + b[1..];
    }
  }

  /** Whether two values are the same bytes; short ones are compared as two words. */
  function Same(a: seq<byte>, b: seq<byte>): (r: bool)
    ensures r <==> a == b
  {
    if |a| != |b| then false
    else if |a| <= 16 then
      WordsDecide(a, b);
      Word(a, 0) == Word(b, 0) && Word(a, 8) == Word(b, 8)
    else a == b
  }

  lemma WordsDecide(a: seq<byte>, b: seq<byte>)
    requires |a| == |b| <= 16
    ensures Word(a, 0) == Word(b, 0) && Word(a, 8) == Word(b, 8) ==> a == b
  {
    if Word(a, 0) == Word(b, 0) && Word(a, 8) == Word(b, 8) {
      var m := if |a| < 8 then |a| else 8;
      if 0 < m {
        LeWordInjective(a[0..m], b[0..m]);
      }
      if 8 < |a| {
        LeWordInjective(a[8..|a|], b[8..|b|]);
      }
      assert a == a[0..m] + a[m..] && b == b[0..m] + b[m..];
    }
  }

  ghost predicate Distinct<T(!new)>(vs: seq<T>)
  {
    forall i, j :: 0 <= i < j < |vs| ==> vs[i] != vs[j]
  }

  /** The list of distinct values, with `v` if it is new. */
  ghost function With<T(!new)>(vs: seq<T>, v: T): seq<T>
  {
    if v in vs then vs else vs + [v]
  }

  /** The values of a list, each once, as they first come. */
  ghost function Firsts<T(!new)>(vs: seq<T>): seq<T>
  {
    if vs == [] then [] else With(Firsts(vs[..|vs| - 1]), vs[|vs| - 1])
  }

  lemma FirstsPush<T(!new)>(vs: seq<T>, v: T)
    ensures Firsts(vs + [v]) == With(Firsts(vs), v)
  {
    assert (vs + [v])[..|vs|] == vs;
  }

  /** No more than half of at least 65,536 rows are distinct. */
  ghost predicate KeepsUp(listed: seq<seq<byte>>, rows: nat)
  {
    rows < 65536 || 2 * |Firsts(listed)| <= rows
  }

  /** So it was after `i` rows more. */
  ghost predicate KeptUp(listed: seq<seq<byte>>, rows: nat, more: seq<seq<byte>>, i: nat)
    requires i <= |more|
  {
    KeepsUp(listed + more[..i], rows + i)
  }

  /** Why a dictionary is given up: after `rows` rows most values were distinct, or there was no place for `value`. */
  datatype Why = NotYet | OutOfMemory | BinaryRow | MostlyDistinct(rows: nat) | NoPlace(value: seq<byte>)

  datatype Found = Known(code: nat) | Empty(slot: nat) | TooFar

  class Dict {
    /** Any function at all: only speed depends on it. */
    const hash: seq<byte> -> nat
    /** Memory never runs short. */
    const roomy: bool
    var slots: seq<nat>
    var hashes: seq<nat>
    var bytes: seq<byte>
    var ends: seq<nat>
    var sent: nat
    var rows: nat
    var gaveUp: bool
    /** Where each code stands in `slots`. */
    ghost var spot: seq<nat>
    /** The values coded, one after another. */
    ghost var listed: seq<seq<byte>>
    ghost var why: Why

    constructor (hash: seq<byte> -> nat, roomy: bool)
      ensures Valid() && Values() == listed == [] && sent == 0 && rows == 0 && !gaveUp && this.hash == hash && this.roomy == roomy
    {
      this.hash, this.roomy := hash, roomy;
      slots, hashes, bytes, ends, spot, listed := [], [], [], [], [], [];
      sent, rows, gaveUp, why := 0, 0, false, NotYet;
    }

    ghost predicate Valid()
      reads this
    {
      && Cuts(ends, |bytes|) && |hashes| == |ends| && sent <= |ends| <= 0x7FFF_FFFF && |bytes| <= 0x100_0000
      && (if slots == [] then ends == [] && spot == []
          else Placed(slots, hashes, spot) && 1024 <= |slots| && 2 * |ends| <= |slots|)
      && (forall c :: 0 <= c < |ends| ==> hashes[c] == hash(Pieces(bytes, ends)[c]))
      && Distinct(Pieces(bytes, ends)) && AllValid(Pieces(bytes, ends))
      && Pieces(bytes, ends) == Firsts(listed) && (gaveUp ==> Because(why))
    }

    /** The reason holds. */
    ghost predicate Because(why: Why)
      requires Cuts(ends, |bytes|)
      reads this
    {
      match why
      case NotYet => false
      case OutOfMemory => !roomy
      case BinaryRow => true
      case MostlyDistinct(n) => n >= 65536 && 2 * |ends| > n
      case NoPlace(value) => Full(value)
    }

    /** There is no place for `value`: its bytes or its code are one too many, or its search goes too far. */
    ghost predicate Full(value: seq<byte>)
      requires Cuts(ends, |bytes|)
      reads this
    {
      || |bytes| + |value| > 0x100_0000 || |ends| >= 0x7FFF_FFFF
      || (|slots| >= 1024 && Probed(slots, Values(), value, Home(hash(value), |slots|), 128))
    }

    /** Every value taken so far, once, as they first came. */
    ghost function Values(): seq<seq<byte>>
      requires Cuts(ends, |bytes|)
      reads this
    {
      Pieces(bytes, ends)
    }

    /** The bytes of value `code`. */
    method Value(code: nat) returns (v: seq<byte>)
      requires Valid() && code < |Values()|
      ensures v == Values()[code]
    {
      var start := if code == 0 then 0 else ends[code - 1];
      v := bytes[start..ends[code]];
    }

    /** A table twice the size, or the first one; without memory for it, false, and the table stays. */
    method Grow() returns (grown: bool)
      requires Valid() && !gaveUp
      modifies this`slots, this`spot
      ensures Valid() && (roomy ==> grown)
      ensures grown ==> |slots| == (if old(|slots|) == 0 then 1024 else 2 * old(|slots|)) && |slots| >= 1024
      ensures !grown ==> slots == old(slots)
    {
      hide IsPow2, Firsts;
      var size := if |slots| * 2 < 1024 then 1024 else |slots| * 2;
      var room := *;
      if !roomy && !room {
        return false;
      }
      GrownSize(|slots|);
      slots, spot := Rebuild(hashes, size);
      return true;
    }

    /** A table of `size` slots with every code put in again. */
    static method Rebuild(hashes: seq<nat>, size: nat) returns (slots: seq<nat>, ghost spot: seq<nat>)
      requires IsPow2(size) && |hashes| < size
      ensures |slots| == size && Placed(slots, hashes, spot)
    {
      hide IsPow2, Home, Reach;
      slots := seq(size, _ => 0);
      spot := [];
      var code := 0;
      while code < |hashes|
        invariant code <= |hashes| && |slots| == size
        invariant Placed(slots, hashes[..code], spot)
      {
        var j := Rehash(slots, hashes[..code], spot, hashes[code]);
        PlaceOne(slots, hashes[..code], spot, hashes[code], j);
        slots := slots[j := code + 1];
        spot := spot + [j];
        assert hashes[..code] + [hashes[code]] == hashes[..code + 1];
        code := code + 1;
      }
      assert hashes[..code] == hashes;
    }

    /** The slot a hash goes to while the table is made anew: probes with no cap, which an empty slot ends. */
    static method Rehash(slots: seq<nat>, ghost hashes: seq<nat>, ghost spot: seq<nat>, h: nat) returns (i: nat)
      requires Placed(slots, hashes, spot) && |hashes| < |slots|
      ensures i < |slots| && slots[i] == 0 && Home(h, |slots|) < |slots| && Reach(slots, Home(h, |slots|), i)
    {
      hide Home, Next, IsPow2;
      HomeInside(h, |slots|);
      HasEmpty(slots, hashes, spot);
      ghost var home := Home(h, |slots|);
      i := Home(h, |slots|);
      ghost var n := 0;
      while slots[i] != 0
        invariant i < |slots| && Dist(home, i, |slots|) == n
        invariant forall j :: 0 <= j < |slots| && Dist(home, j, |slots|) < n ==> slots[j] != 0
        decreases |slots| - n
      {
        NextWraps(i, |slots|);
        if n + 1 == |slots| {
          assert forall j :: 0 <= j < |slots| ==> slots[j] != 0;
        }
        i := Next(i, |slots|);
        n := n + 1;
      }
    }

    /** Add a value at the empty slot its probes end at. */
    method Append(value: seq<byte>, i: nat)
      requires Valid() && !gaveUp && i < |slots| && slots[i] == 0 && 2 * (|ends| + 1) <= |slots|
      requires |bytes| + |value| <= MAX_VALUE_BYTES && |ends| < I32_MAX && Utf.Valid(value)
      requires Home(hash(value), |slots|) < |slots|
      requires Probed(slots, Values(), value, Home(hash(value), |slots|), Dist(Home(hash(value), |slots|), i, |slots|))
      modifies this`slots, this`spot, this`hashes, this`bytes, this`ends, this`listed
      ensures Valid() && Values() == old(Values()) + [value] && value !in old(Values()) && listed == old(listed) + [value] && |slots| == old(|slots|)
    {
      hide Home, IsPow2, Reach, Cuts, Pieces, Utf.Valid, Firsts, Because, Full, Probed;
      NotThere(slots, hashes, spot, Values(), hash, value, i);
      ProbedReaches(slots, Values(), value, Home(hash(value), |slots|), i);
      PlaceOne(slots, hashes, spot, hash(value), i);
      PiecesPush(bytes, ends, value);
      spot := spot + [i];
      slots := slots[i := |ends| + 1];
      bytes := bytes + value;
      ends := ends + [|bytes|];
      hashes := hashes + [hash(value)];
      FirstsPush(listed, value);
      listed := listed + [value];
    }

    /** Where the probes for `value` lead: its code, an empty slot, or too far. */
    method Search(value: seq<byte>) returns (found: Found)
      requires Valid() && 1024 <= |slots|
      ensures found.Known? ==> found.code < |Values()| && Values()[found.code] == value
      ensures found.Empty? ==>
                var home := Home(hash(value), |slots|);
                && home < |slots| && found.slot < |slots| && slots[found.slot] == 0
                && Probed(slots, Values(), value, home, Dist(home, found.slot, |slots|))
      ensures found.TooFar? ==> Probed(slots, Values(), value, Home(hash(value), |slots|), MAX_PROBE)
    {
      hide Home, Next, Cuts, Pieces, Distinct, IsPow2, Placed, Probed, Same, AllValid;
      PlacedPow2(slots, hashes, spot);
      var h := hash(value);
      HomeInside(h, |slots|);
      ghost var home := Home(h, |slots|);
      NoneProbed(slots, Values(), value, home);
      var i: nat, n: nat := Home(h, |slots|), 0;
      while n < MAX_PROBE
        invariant i < |slots| && n <= MAX_PROBE && Dist(home, i, |slots|) == n
        invariant Probed(slots, Values(), value, home, n)
      {
        if slots[i] == 0 {
          return Empty(i);
        }
        SlotHolds(slots, hashes, spot, i);
        var code := slots[i] - 1;
        var v := Value(code);
        if hashes[code] == h && Same(v, value) {
          return Known(code);
        }
        NextWraps(i, |slots|);
        ProbedMore(slots, Values(), value, home, n, i);
        i, n := Next(i, |slots|), n + 1;
      }
      return TooFar;
    }

    /** What stands for `value`, which becomes the last if it is new; None, and no change, for want of room or after too many probes. */
    method FindOrAdd(value: seq<byte>) returns (r: Option<nat>, ghost why: Why)
      requires Valid() && !gaveUp && Utf.Valid(value)
      modifies this`slots, this`spot, this`hashes, this`bytes, this`ends, this`listed
      ensures Valid()
      ensures r == None ==> Values() == old(Values()) && listed == old(listed) && why == (if roomy then NoPlace(value) else OutOfMemory)
      ensures r == None ==> Because(why)
      ensures r != None ==> Values() == With(old(Values()), value) && r.value < |Values()| && Values()[r.value] == value
      ensures r != None ==> listed == old(listed) + [value]
      ensures |slots| == old(|slots|) || (2 * (old(|ends|) + 1) > old(|slots|) && |slots| == if old(|slots|) == 0 then 1024 else 2 * old(|slots|))
    {
      hide Home, Cuts, Pieces, Placed, Distinct, Probed, Utf.Valid, AllValid, Firsts;
      why := if roomy then NoPlace(value) else OutOfMemory;
      if |slots| < 2 * (|ends| + 1) {
        var grown := Grow();
        if !grown {
          r := None;
          return;
        }
      }
      var found := Search(value);
      match found {
        case Known(code) =>
          FirstsPush(listed, value);
          listed := listed + [value];
          r := Some(code);
        case TooFar =>
          r := None;
        case Empty(i) =>
          var code, room := |ends|, *;
          if |bytes| + |value| > MAX_VALUE_BYTES || code >= I32_MAX || (!roomy && !room) {
            r := None;
            return;
          }
          Append(value, i);
          r := Some(code);
      }
    }

    /** As `FindOrAdd`; once it gives None the dictionary is given up for good. */
    method Add(value: seq<byte>) returns (r: Option<nat>)
      requires Valid() && Utf.Valid(value)
      modifies this`slots, this`spot, this`hashes, this`bytes, this`ends, this`listed, this`gaveUp, this`why
      ensures Valid() && (r == None <==> gaveUp) && (old(gaveUp) ==> gaveUp && why == old(why))
      ensures r == None ==> Values() == old(Values()) && listed == old(listed)
      ensures r == None && !old(gaveUp) ==> why == if roomy then NoPlace(value) else OutOfMemory
      ensures r != None ==> Values() == With(old(Values()), value) && r.value < |Values()| && Values()[r.value] == value
      ensures r != None ==> listed == old(listed) + [value]
    {
      hide Cuts, Pieces, Placed, Distinct, AllValid, Firsts, Utf.Valid, Probed, Home;
      if gaveUp {
        return None;
      }
      ghost var w;
      r, w := FindOrAdd(value);
      if r == None {
        why := w;
      }
      gaveUp := r == None;
    }

    /** Count rows coded; false, and given up, once most values are distinct. */
    method NoteRows(n: nat) returns (keep: bool)
      requires Valid()
      modifies this`rows, this`gaveUp, this`why
      ensures Valid() && rows == old(rows) + n && keep == !gaveUp
      ensures gaveUp <==> old(gaveUp) || (rows >= 65536 && |Values()| * 2 > rows)
      ensures why == if gaveUp && !old(gaveUp) then MostlyDistinct(rows) else old(why)
    {
      hide Pieces, Distinct, Placed, Cuts, AllValid, Firsts;
      rows := rows + n;
      if rows >= MIN_ROWS && |ends| * 2 > rows {
        if !gaveUp {
          why := MostlyDistinct(rows);
        }
        gaveUp := true;
      }
      return !gaveUp;
    }

    /** Hand over the values that have not been: their bytes joined, and where each ends in UTF-16 units. */
    method TakeNew() returns (newBytes: seq<byte>, newUtf16: seq<nat>)
      requires Valid()
      modifies this`sent
      ensures Valid() && sent == |Values()|
      ensures newBytes == Join(Values()[old(sent)..]) && newUtf16 == Utf16Ends(Values()[old(sent)..])
    {
      hide Pieces, Distinct, Placed, Utf16Ends, Cuts, Join, AllValid;
      var from := if sent == 0 then 0 else ends[sent - 1];
      PiecesBack(bytes, ends, sent);
      newBytes := bytes[from..];
      newUtf16 := UnitsFrom(sent);
      sent := |ends|;
    }

    /** The cumulative UTF-16 ends of the values from `first` on. */
    method UnitsFrom(first: nat) returns (newUtf16: seq<nat>)
      requires Valid() && first <= |ends|
      ensures newUtf16 == Utf16Ends(Values()[first..])
    {
      hide Pieces, Distinct, Placed, Utf16Len, Cuts, AllValid;
      newUtf16 := [];
      ghost var vs := Values();
      var units, code := 0, first;
      while code < |ends|
        invariant first <= code <= |ends|
        invariant newUtf16 == Utf16Ends(vs[first..code]) && units == Start(newUtf16, |newUtf16|)
      {
        var v := Value(code);
        Utf16EndsPush(vs[first..code], v);
        units := units + Utf16Len(v);
        newUtf16 := newUtf16 + [units];
        assert vs[first..code] + [v] == vs[first..code + 1];
        code := code + 1;
      }
      assert vs[first..code] == vs[first..];
    }

    /** The code of a row; None, and given up, for a binary row, a full dictionary, or values mostly distinct. */
    method CodeRow(v: seq<byte>, binary: bool) returns (code: Option<nat>)
      requires Valid() && !gaveUp && (!binary ==> Utf.Valid(v))
      modifies this`slots, this`spot, this`hashes, this`bytes, this`ends, this`listed, this`rows, this`gaveUp, this`why
      ensures Valid() && (code == None <==> gaveUp) && old(Values()) <= Values() && rows == old(rows) + 1
      ensures code != None ==> !binary && code.value < |Values()| && Values()[code.value] == v && listed == old(listed) + [v]
      ensures code != None ==> KeepsUp(listed, rows)
      ensures code == None ==> Cause(why, v, binary)
    {
      hide Cuts, Pieces, Distinct, Placed, AllValid, Utf.Valid, Probed, Home, Firsts;
      rows := rows + 1;
      code := None;
      ghost var w := BinaryRow;
      if !binary {
        code, w := FindOrAdd(v);
      }
      if code == None || (rows >= MIN_ROWS && |ends| * 2 > rows) {
        why := if code == None then w else MostlyDistinct(rows);
        gaveUp := true;
        return None;
      }
    }

    /** What a row that ends the dictionary may end it for. */
    ghost predicate Cause(why: Why, v: seq<byte>, binary: bool)
      reads this
    {
      match why
      case NotYet => false
      case OutOfMemory => true
      case BinaryRow => binary
      case MostlyDistinct(n) => n == rows
      case NoPlace(value) => value == v
    }

    /** A call's rows as codes; None, from here on, once the dictionary is given up. */
    method Code(text: seq<byte>, at: seq<nat>, binary: seq<bool>)
      returns (r: Option<(seq<nat>, seq<byte>, seq<nat>)>)
      requires Valid() && Cuts(at, |text|)
      requires forall i :: 0 <= i < |at| && !(i < |binary| && binary[i]) ==> Utf.Valid(Pieces(text, at)[i])
      modifies this
      ensures Valid() && (r == None <==> gaveUp) && (old(gaveUp) ==> gaveUp)
      ensures old(Values()) <= Values()
      ensures r == None ==> sent == old(sent)
      ensures r == None && !old(gaveUp) ==>
                || why == OutOfMemory
                || exists i :: 0 <= i < |at| && rows == old(rows) + i + 1 && Cause(why, Pieces(text, at)[i], i < |binary| && binary[i])
      ensures r == None && old(gaveUp) ==> rows == old(rows) && listed == old(listed) && why == old(why)
      ensures r != None ==>
                && listed == old(listed) + Pieces(text, at) && rows == old(rows) + |at|
                && CodesAre(r.value.0, Values(), Pieces(text, at))
                && (forall i :: 0 <= i < |binary| && i < |at| ==> !binary[i])
                && (forall i :: 0 < i <= |at| ==> KeptUp(old(listed), old(rows), Pieces(text, at), i))
                && sent == |Values()|
                && r.value.1 == Join(Values()[old(sent)..]) && r.value.2 == Utf16Ends(Values()[old(sent)..])
    {
      hide Cuts, Pieces, Distinct, Placed, Join, Utf16Ends, AllValid, Utf.Valid, Probed, Home, CodesAre, Firsts, Cause, KeepsUp;
      if gaveUp {
        return None;
      }
      var room := *;
      if !roomy && !room {
        gaveUp, why := true, OutOfMemory;
        return None;
      }
      hide Because, Full;
      var codes: seq<nat>, i := [], 0;
      NoCodes(Values(), Pieces(text, at));
      while i < |at|
        invariant i <= |at| && |codes| == i && Valid() && !gaveUp && sent == old(sent) && old(Values()) <= Values()
        invariant CodesAre(codes, Values(), Pieces(text, at)[..i])
        invariant rows == old(rows) + i && listed == old(listed) + Pieces(text, at)[..i]
        invariant forall j :: 0 <= j < |binary| && j < i ==> !binary[j]
        invariant forall j :: 0 < j <= i ==> KeptUp(old(listed), old(rows), Pieces(text, at), j)
      {
        ghost var was := Values();
        var v := Slice(text, at, i);
        var code := CodeRow(v, i < |binary| && binary[i]);
        if code == None {
          return None;
        }
        CodesGrow(codes, was, Values(), Pieces(text, at), i, code.value);
        assert Pieces(text, at)[..i] + [v] == Pieces(text, at)[..i + 1];
        assert old(listed) + Pieces(text, at)[..i] + [v] == old(listed) + Pieces(text, at)[..i + 1];
        codes := codes + [code.value];
        i := i + 1;
      }
      assert Pieces(text, at)[..i] == Pieces(text, at);
      var newBytes, newUtf16 := TakeNew();
      return Some((codes, newBytes, newUtf16));
    }
  }

  /** Row `i` of a call. */
  method Slice(text: seq<byte>, at: seq<nat>, i: nat) returns (v: seq<byte>)
    requires Cuts(at, |text|) && i < |at|
    ensures v == Pieces(text, at)[i]
  {
    var start := if i == 0 then 0 else at[i - 1];
    v := text[start..at[i]];
  }

  /** Each code is that of its row's value. */
  ghost predicate CodesAre(codes: seq<nat>, values: seq<seq<byte>>, rows: seq<seq<byte>>)
  {
    |codes| == |rows| && forall i :: 0 <= i < |codes| ==> codes[i] < |values| && values[codes[i]] == rows[i]
  }

  lemma NoCodes(values: seq<seq<byte>>, rows: seq<seq<byte>>)
    ensures CodesAre([], values, rows[..0])
  {}

  /** Codes stay good while values are only added. */
  lemma CodesGrow(codes: seq<nat>, was: seq<seq<byte>>, values: seq<seq<byte>>, rows: seq<seq<byte>>, i: nat, code: nat)
    requires i < |rows| && CodesAre(codes, was, rows[..i]) && was <= values
    requires code < |values| && values[code] == rows[i]
    ensures CodesAre(codes + [code], values, rows[..i + 1])
  {}


  /** The first `n` slots probed from `home` are taken, by other values than `value`. */
  ghost predicate Probed(slots: seq<nat>, values: seq<seq<byte>>, value: seq<byte>, home: nat, n: nat)
  {
    home < |slots| && forall j :: 0 <= j < |slots| && Dist(home, j, |slots|) < n ==>
      slots[j] != 0 && slots[j] <= |values| && values[slots[j] - 1] != value
  }


  lemma PlacedPow2(slots: seq<nat>, hashes: seq<nat>, spot: seq<nat>)
    requires Placed(slots, hashes, spot)
    ensures IsPow2(|slots|)
  {}

  lemma SlotHolds(slots: seq<nat>, hashes: seq<nat>, spot: seq<nat>, i: nat)
    requires Placed(slots, hashes, spot) && i < |slots| && slots[i] != 0
    ensures slots[i] <= |hashes|
  {}

  lemma NoneProbed(slots: seq<nat>, values: seq<seq<byte>>, value: seq<byte>, home: nat)
    requires home < |slots|
    ensures Probed(slots, values, value, home, 0)
  {}

  lemma ProbedMore(slots: seq<nat>, values: seq<seq<byte>>, value: seq<byte>, home: nat, n: nat, i: nat)
    requires Probed(slots, values, value, home, n)
    requires i < |slots| && Dist(home, i, |slots|) == n
    requires slots[i] != 0 && slots[i] <= |values| && values[slots[i] - 1] != value
    ensures Probed(slots, values, value, home, n + 1)
  {}

  lemma ProbedReaches(slots: seq<nat>, values: seq<seq<byte>>, value: seq<byte>, home: nat, i: nat)
    requires home < |slots| && i < |slots| && Probed(slots, values, value, home, Dist(home, i, |slots|))
    ensures Reach(slots, home, i)
  {}

  /** A value whose probes end at an empty slot without meeting it is not in the dictionary. */
  lemma NotThere(slots: seq<nat>, hashes: seq<nat>, spot: seq<nat>, values: seq<seq<byte>>, hash: seq<byte> -> nat, value: seq<byte>, i: nat)
    requires Placed(slots, hashes, spot) && |values| == |hashes|
    requires forall c :: 0 <= c < |values| ==> hashes[c] == hash(values[c])
    requires i < |slots| && slots[i] == 0 && Home(hash(value), |slots|) < |slots|
    requires Probed(slots, values, value, Home(hash(value), |slots|), Dist(Home(hash(value), |slots|), i, |slots|))
    ensures value !in values
  {
    if c: nat :| c < |values| && values[c] == value {
      assert slots[spot[c]] == c + 1;
      Missed(slots, hashes, spot, c, i);
    }
  }

  lemma GrownSize(len: nat)
    requires len == 0 || (IsPow2(len) && 1024 <= len)
    ensures IsPow2(if len * 2 < 1024 then 1024 else len * 2)
  {
    if len == 0 {
      assert Pow2(10) == 1024;
    } else {
      var k: nat :| len == Pow2(k);
      assert Pow2(k + 1) == len * 2;
    }
  }
}
