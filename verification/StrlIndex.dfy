/** `crates/dta/src/strl_index.rs`: the places of long strings in a file, held in arrays side by side. */
module StrlIndex {
  import opened Wrappers
  import opened Bits
  import opened Sorting

  const V_LIMIT: nat := 0x100_0000
  const O_LIMIT: nat := 0x100_0000_0000

  /** Variable `v` and observation `o` as one number, where both are in range. */
  function Key(v: nat, o: nat): (k: Option<nat>)
    ensures k == None <==> v >= 0x100_0000 || o >= 0x100_0000_0000
    ensures k != None ==> k.value == v * 0x100_0000_0000 + o < 0x1_0000_0000_0000_0000
  {
    if v < V_LIMIT && o < O_LIMIT then
      KeyBits(v, o);
      Some(Or(Shl(v, 40), o))
    else None
  }

  lemma KeyBits(v: nat, o: nat)
    requires o < O_LIMIT
    ensures Or(Shl(v, 40), o) == v * O_LIMIT + o
  {
    ShlTen(v, 0);
    ShlTen(v, 10);
    ShlTen(v, 20);
    ShlTen(v, 30);
    Pow2Forty();
    OrCommutes(Shl(v, 40), o);
    OrDisjoint(o, v, 40);
  }

  lemma ShlTen(v: nat, k: nat)
    ensures Shl(v, k + 10) == 1024 * Shl(v, k)
  {
    assert Shl(v, k + 2) == 4 * Shl(v, k);
    assert Shl(v, k + 4) == 4 * Shl(v, k + 2);
    assert Shl(v, k + 6) == 4 * Shl(v, k + 4);
    assert Shl(v, k + 8) == 4 * Shl(v, k + 6);
  }

  lemma Pow2Forty()
    ensures Pow2(40) == O_LIMIT
  {
    ShlTen(1, 0);
    ShlTen(1, 10);
    ShlTen(1, 20);
    ShlTen(1, 30);
    ShlOne(40);
  }

  lemma {:induction false} OrCommutes(a: nat, b: nat)
    ensures Or(a, b) == Or(b, a)
  {
    if a > 0 && b > 0 {
      OrCommutes(a / 2, b / 2);
    }
  }

  /** Keys are in the order of variable, then observation. */
  lemma KeyOrder(v: nat, o: nat, w: nat, p: nat)
    requires Key(v, o) != None && Key(w, p) != None
    ensures Key(v, o).value < Key(w, p).value <==> v < w || (v == w && o < p)
  {}

  // ---------------------------------------------------------------- packed bits

  /** Bit `i` of the packed words. */
  function Flag(words: seq<nat>, i: nat): bool
    requires i / 64 < |words|
  {
    Bit(words[i / 64], i % 64) == 1
  }

  /** The words with bit `i` set. */
  function SetFlag(words: seq<nat>, i: nat): (w: seq<nat>)
    requires i / 64 < |words|
    ensures |w| == |words|
  {
    words[i / 64 := Or(words[i / 64], Shl(1, i % 64))]
  }

  lemma SetFlagIs(words: seq<nat>, i: nat, j: nat)
    requires i / 64 < |words| && j / 64 < |words|
    ensures Flag(SetFlag(words, i), j) == (j == i || Flag(words, j))
  {
    hide Or, Shl, Bit;
    ShlOne(i % 64);
    if i / 64 == j / 64 {
      OrBit(words[i / 64], Pow2(i % 64), j % 64);
      BitPow2(i % 64, j % 64);
      assert i % 64 == j % 64 <==> i == j;
    }
  }

  /** Every word fits 64 bits. */
  ghost predicate Words64(words: seq<nat>)
  {
    forall w :: 0 <= w < |words| ==> words[w] < Pow2(64)
  }

  lemma SetFlagFits(words: seq<nat>, i: nat)
    requires i / 64 < |words| && Words64(words)
    ensures Words64(SetFlag(words, i))
  {
    hide Or, Shl, Pow2;
    ShlOne(i % 64);
    Pow2Less(i % 64, 64);
    OrBound(words[i / 64], Pow2(i % 64), 64);
  }

  lemma Pow2Less(j: nat, k: nat)
    requires j < k
    ensures Pow2(j) < Pow2(k)
  {
    Pow2Mono(j + 1, k);
  }

  // ---------------------------------------------------------------- the index

  /** Where a long string is, how long it is, and whether it is bytes. */
  datatype StrlEntry = StrlEntry(offset: nat, len: nat, binary: bool)

  datatype Failure = TooLarge | Twice(v: nat, o: nat)

  /** Four arrays: entry `i`'s key, offset and length, and its bit in the words. */
  datatype Arrays = Arrays(keys: seq<nat>, offsets: seq<nat>, lens: seq<nat>, binary: seq<nat>)
  {
    /** One length, and 64-bit words enough for a bit each. */
    ghost predicate Held()
    {
      |keys| == |offsets| == |lens| && |keys| <= 64 * |binary| && Words64(binary)
    }

    /** And no word more. */
    ghost predicate Shaped()
    {
      Held() && |binary| == (|keys| + 63) / 64
    }

    /** No bit set past the last entry's. */
    ghost predicate Padded()
      requires Held()
    {
      forall i :: |keys| <= i < 64 * |binary| ==> !Flag(binary, i)
    }

    function Entry(i: nat): StrlEntry
      requires Held() && i < |keys|
    {
      StrlEntry(offsets[i], lens[i], Flag(binary, i))
    }

    ghost function Entries(): (es: seq<(nat, StrlEntry)>)
      requires Held()
      ensures |es| == |keys|
    {
      seq(|keys|, i requires 0 <= i < |keys| => (keys[i], Entry(i)))
    }

    /** The arrays with one entry more. */
    function With(key: nat, entry: StrlEntry): Arrays
      requires |binary| == (|keys| + 63) / 64
    {
      var i := |keys|;
      var words := if i % 64 == 0 then binary + [0] else binary;
      Arrays(keys + [key], offsets + [entry.offset], lens + [entry.len], if entry.binary then SetFlag(words, i) else words)
    }

    lemma WithIs(key: nat, entry: StrlEntry)
      requires Shaped() && Padded()
      ensures With(key, entry).Shaped() && With(key, entry).Padded()
      ensures With(key, entry).Entries() == Entries() + [(key, entry)]
    {
      hide Flag, SetFlag, Words64;
      var i := |keys|;
      var words := if i % 64 == 0 then binary + [0] else binary;
      if i % 64 == 0 {
        NewWord(binary);
      }
      SetFlagFits(words, i);
      forall j | 0 <= j < 64 * |words|
        ensures Flag(SetFlag(words, i), j) == (j == i || Flag(words, j))
      {
        SetFlagIs(words, i, j);
      }
      var es := With(key, entry).Entries();
      forall j | 0 <= j <= i
        ensures es[j] == (Entries() + [(key, entry)])[j]
      {}
    }
  }

  class StrlIndex {
    var keys: seq<nat>
    var offsets: seq<nat>
    var lens: seq<nat>
    var binary: seq<nat>
    /** A hint that any reader may move at any time. */
    var cursor: nat
    /** Memory never runs short. */
    const roomy: bool

    constructor (roomy: bool)
      ensures Valid() && Entries() == [] && this.roomy == roomy
    {
      keys, offsets, lens, binary, cursor := [], [], [], [], 0;
      this.roomy := roomy;
    }

    ghost function Data(): Arrays
      reads this
    {
      Arrays(keys, offsets, lens, binary)
    }

    ghost predicate Valid()
      reads this
    {
      Data().Shaped() && Data().Padded()
    }

    ghost function Entries(): seq<(nat, StrlEntry)>
      requires Data().Held()
      reads this
    {
      Data().Entries()
    }

    /** One entry more at the end; false, with the arrays as they were, for want of memory. */
    method Push(key: nat, entry: StrlEntry) returns (ok: bool)
      requires Valid()
      modifies this`keys, this`offsets, this`lens, this`binary
      ensures Valid() && Entries() == old(Entries()) + if ok then [(key, entry)] else []
      ensures roomy ==> ok
    {
      var room := *;
      if !roomy && !room {
        return false;
      }
      Data().WithIs(key, entry);
      var i := |keys|;
      keys := keys + [key];
      offsets := offsets + [entry.offset];
      lens := lens + [entry.len];
      if i % 64 == 0 {
        binary := binary + [0];
      }
      if entry.binary {
        binary := SetFlag(binary, i);
      }
      return true;
    }

    /** Put the arrays in the order of the keys; false, and nothing changed, when memory is short. The places are counted in 32 bits. */
    method Sort() returns (ok: bool, ghost order: seq<nat>)
      requires Valid()
      modifies this`keys, this`offsets, this`lens, this`binary
      ensures Data().Held() && Data().Padded() && (!ok ==> Entries() == old(Entries())) && (roomy ==> ok)
      ensures ok ==> StableOrder(order, Listed(old(keys))) && Entries() == Picked(old(Entries()), order)
      ensures |binary| == old(|binary|)
    {
      hide Flag, SetFlag, Words64, Sorted;
      var places := SortByKey(Listed(keys));
      order := places;
      var room := *;
      if !roomy && !room {
        return false, order;
      }
      StablePlaces(places, Listed(keys));
      var now := Reordered(Arrays(keys, offsets, lens, binary), places);
      keys, offsets, lens, binary := now.keys, now.offsets, now.lens, now.binary;
      return true, order;
    }

    /**
     Put the entries in order where they are not, and refuse equal keys. What is
     left is what was pushed, or, out of order and past 32 bits, only the first of it.
     */
    method Finish() returns (r: Option<Failure>, ghost order: seq<nat>)
      requires Valid()
      modifies this`keys, this`offsets, this`lens, this`binary
      ensures Data().Held() && Data().Padded() && (Whole(old(keys)) ==> Valid())
      ensures r != Some(TooLarge) ==> Permutes(order, Left(old(keys))) && Entries() == Picked(old(Entries()), order)
      ensures r == Some(TooLarge) ==> Entries() == old(Entries()) && !roomy
      ensures r == None ==> Increasing(keys) && Distinct(old(keys)[..Left(old(keys))])
      ensures r != None && r.value.Twice? ==>
                Repeats(old(keys)[..Left(old(keys))], r.value.v * O_LIMIT + r.value.o) && r.value.o < O_LIMIT
    {
      hide Flag, Words64, Permutes, Picked, Sorted, Increasing, Distinct, Repeats, Arrays.Padded, Arrays.Entries, InOrder, Left;
      ghost var was := keys;
      var ok;
      ok, order := SortIfNeeded();
      if !ok {
        return Some(TooLarge), order;
      }
      var i := FirstRepeat(keys);
      if i < |keys| {
        TwiceKept(was[..Left(was)], keys, order, i);
        return Some(Twice(keys[i] / O_LIMIT, keys[i] % O_LIMIT)), order;
      }
      IncreasingOnce(was[..Left(was)], keys, order);
      return None, order;
    }

    method SortIfNeeded() returns (ok: bool, ghost order: seq<nat>)
      requires Valid()
      modifies this`keys, this`offsets, this`lens, this`binary
      ensures Data().Held() && Data().Padded() && (Whole(old(keys)) ==> Valid()) && (!ok ==> Entries() == old(Entries())) && (roomy ==> ok)
      ensures ok ==> Permutes(order, Left(old(keys))) && Entries() == Picked(old(Entries()), order)
      ensures ok ==> |keys| == |order| && forall j :: 0 <= j < |order| ==> order[j] < Left(old(keys)) && keys[j] == old(keys)[order[j]]
      ensures ok ==> InOrder(keys)
    {
      hide Flag, Words64, Permutes, StableOrder, Picked, InOrder, Left, Listed, Arrays.Padded, Arrays.Entries;
      ghost var was := Data();
      if !InOrder(keys) {
        ok, order := Sort();
        if ok {
          InKeyOrder(was, Data(), order);
        }
        return;
      }
      order := Upto(|keys|);
      Unsorted(was, order);
      return true, order;
    }

    /** The entry for `key`, if there is one, whatever the hint says. */
    method Get(key: nat) returns (r: Option<StrlEntry>)
      requires Data().Held() && Increasing(keys)
      modifies this`cursor
      ensures r == Found(MapOf(Data().Entries()), key)
      ensures if r == None then cursor == old(cursor) else 0 < cursor <= |keys| && keys[cursor - 1] == key
    {
      hide Flag, Words64;
      var i := cursor;
      ghost var es := Data().Entries();
      IncreasingDistinct(Data());
      if !(i < |keys| && keys[i] == key) {
        var found := BinarySearch(keys, key);
        if found == None {
          NotInMap(es, key);
          return None;
        }
        i := found.value;
      }
      cursor := i + 1;
      InMap(es, i);
      return Some(StrlEntry(offsets[i], lens[i], Flag(binary, i)));
    }
  }

  /** No key is below the one before it. */
  predicate InOrder(keys: seq<nat>)
  {
    forall i :: 0 < i < |keys| ==> keys[i - 1] <= keys[i]
  }

  /** The keys whose places the sort lists: `0..n as u32` are as many as the low 32 bits of `n` say. */
  function Listed(keys: seq<nat>): (r: seq<nat>)
    ensures |r| == |keys| % 0x1_0000_0000
  {
    keys[..|keys| % 0x1_0000_0000]
  }

  /** How many of the entries pushed finishing leaves. */
  function Left(keys: seq<nat>): (n: nat)
    ensures n <= |keys|
    ensures n == |keys| <==> Whole(keys)
  {
    if InOrder(keys) then |keys| else |Listed(keys)|
  }

  /** Finishing keeps every entry: they came in order, or their places fit 32 bits. */
  predicate Whole(keys: seq<nat>) {
    InOrder(keys) || |keys| < 0x1_0000_0000
  }

  /** `n` keys, each below the one before it. */
  function Descending(n: nat): seq<nat> {
    seq(n, i requires 0 <= i < n => n - i)
  }

  /** Of 2^32 distinct keys out of order, finishing leaves none, and says nothing. */
  lemma AllLost()
    ensures Distinct(Descending(0x1_0000_0000)) && !Whole(Descending(0x1_0000_0000)) && Left(Descending(0x1_0000_0000)) == 0
  {
    var keys := Descending(0x1_0000_0000);
    assert keys[1] < keys[0];
  }

  /** The lookup in a map. */
  ghost function Found<T>(m: map<nat, T>, key: nat): Option<T> {
    if key in m then Some(m[key]) else None
  }

  /** The map of a list of entries (a later entry would replace an earlier one of its key). */
  ghost function MapOf<T>(es: seq<(nat, T)>): map<nat, T> {
    if es == [] then map[] else MapOf(es[..|es| - 1])[es[|es| - 1].0 := es[|es| - 1].1]
  }

  ghost function KeysOf<T>(es: seq<(nat, T)>): (r: seq<nat>)
    ensures |r| == |es| && forall i :: 0 <= i < |es| ==> r[i] == es[i].0
  {
    seq(|es|, i requires 0 <= i < |es| => es[i].0)
  }

  lemma {:induction false} InMap<T>(es: seq<(nat, T)>, i: nat)
    requires i < |es| && Distinct(KeysOf(es))
    ensures es[i].0 in MapOf(es) && MapOf(es)[es[i].0] == es[i].1
  {
    var n := |es| - 1;
    if i < n {
      var front := es[..n];
      assert KeysOf(front) == KeysOf(es)[..n];
      InMap(front, i);
      assert KeysOf(es)[i] != KeysOf(es)[n];
    }
  }

  lemma {:induction false} NotInMap<T>(es: seq<(nat, T)>, key: nat)
    requires key !in KeysOf(es)
    ensures key !in MapOf(es)
  {
    if es != [] {
      var front := es[..|es| - 1];
      assert KeysOf(es)[|es| - 1] == es[|es| - 1].0;
      assert KeysOf(front) == KeysOf(es)[..|es| - 1];
      NotInMap(front, key);
    }
  }

  /** Entries with distinct keys, in any order, are the same map. */
  lemma PickedMap<T>(es: seq<(nat, T)>, order: seq<nat>)
    requires Distinct(KeysOf(es)) && Permutes(order, |es|)
    ensures MapOf(Picked(es, order)) == MapOf(es)
  {
    hide MapOf, Permutes, Distinct;
    PermutesPlaces(order, |es|);
    PickedDistinct(es, order);
    forall key: nat
      ensures Found(MapOf(Picked(es, order)), key) == Found(MapOf(es), key)
    {
      PickedFinds(es, order, key);
    }
    SameMap(MapOf(Picked(es, order)), MapOf(es));
  }

  lemma PickedDistinct<T>(es: seq<(nat, T)>, order: seq<nat>)
    requires Distinct(KeysOf(es)) && Permutes(order, |es|)
    ensures Distinct(KeysOf(Picked(es, order)))
  {
    PermutesPlaces(order, |es|);
    hide Permutes;
    var ps := Picked(es, order);
    forall a, b | 0 <= a < b < |ps|
      ensures KeysOf(ps)[a] != KeysOf(ps)[b]
    {
      assert order[a] < order[b] || order[b] < order[a];
      assert KeysOf(es)[order[a]] != KeysOf(es)[order[b]];
    }
  }

  lemma PickedFinds<T>(es: seq<(nat, T)>, order: seq<nat>, key: nat)
    requires Distinct(KeysOf(es)) && Permutes(order, |es|)
    ensures Found(MapOf(Picked(es, order)), key) == Found(MapOf(es), key)
  {
    hide MapOf, Permutes, Distinct;
    PermutesPlaces(order, |es|);
    PickedDistinct(es, order);
    var ps := Picked(es, order);
    if key in KeysOf(es) {
      var i := PlaceOf(KeysOf(es), key);
      var a := PlaceOf(order, i);
      InMap(es, i);
      InMap(ps, a);
    } else {
      NotInMap(es, key);
      NotInMap(ps, key);
    }
  }

  lemma SameMap<T>(m: map<nat, T>, n: map<nat, T>)
    requires forall key: nat :: Found(m, key) == Found(n, key)
    ensures m == n
  {
    forall key: nat
      ensures key in m <==> key in n
      ensures key in m ==> m[key] == n[key]
    {
      assert Found(m, key) == Found(n, key);
    }
  }

  /** With distinct keys, a map of some of the first entries is the map of them all only if they are all. */
  lemma SomeMap<T>(es: seq<(nat, T)>, n: nat)
    requires n <= |es| && Distinct(KeysOf(es))
    ensures MapOf(es[..n]) == MapOf(es) <==> n == |es|
  {
    hide MapOf, Distinct;
    if n == |es| {
      assert es[..n] == es;
    } else {
      InMap(es, n);
      NotBefore(es, n);
      NotInMap(es[..n], es[n].0);
    }
  }

  lemma NotBefore<T>(es: seq<(nat, T)>, n: nat)
    requires n < |es| && Distinct(KeysOf(es))
    ensures es[n].0 !in KeysOf(es[..n])
  {
    forall i | 0 <= i < n
      ensures KeysOf(es[..n])[i] != es[n].0
    {
      assert KeysOf(es)[i] != KeysOf(es)[n];
    }
  }

  /**
   An index of a file's strLs: what reading the section's entries in file
   order comes to. It is the map of the entries exactly when they are in
   order or fewer than 2^32; of others it is the map of some.
   */
  method Build(pushes: seq<(nat, StrlEntry)>, roomy: bool)
    returns (r: Option<Failure>, index: StrlIndex, ghost order: seq<nat>)
    ensures fresh(index) && index.Data().Held() && (Whole(KeysOf(pushes)) ==> index.Valid())
    ensures r == None ==> Distinct(KeysOf(pushes[..Left(KeysOf(pushes))]))
    ensures roomy ==> (r == None <==> Distinct(KeysOf(pushes[..Left(KeysOf(pushes))])))
    ensures r == None ==> Increasing(index.keys) && MapOf(index.Entries()) == MapOf(pushes[..Left(KeysOf(pushes))])
    ensures r == None && Distinct(KeysOf(pushes)) ==> (MapOf(index.Entries()) == MapOf(pushes) <==> Whole(KeysOf(pushes)))
    ensures r == None ==> Permutes(order, Left(KeysOf(pushes))) && index.Entries() == Picked(pushes[..Left(KeysOf(pushes))], order)
    ensures r != None && r.value.Twice? ==> Repeats(KeysOf(pushes[..Left(KeysOf(pushes))]), r.value.v * O_LIMIT + r.value.o)
  {
    hide Flag, Words64, Permutes, MapOf, InOrder, Left;
    index := new StrlIndex(roomy);
    var i: nat := 0;
    while i < |pushes|
      invariant i <= |pushes| && index.Valid() && index.Entries() == pushes[..i] && index.roomy == roomy
      modifies index
    {
      var ok := index.Push(pushes[i].0, pushes[i].1);
      if !ok {
        return Some(TooLarge), index, [];
      }
      i := i + 1;
    }
    assert index.Entries() == pushes;
    EntryKeys(index.Data());
    r, order := index.Finish();
    ghost var left := pushes[..Left(KeysOf(pushes))];
    assert KeysOf(left) == KeysOf(pushes)[..Left(KeysOf(pushes))];
    if r != None && r.value.Twice? {
      RepeatsTwice(KeysOf(left), r.value.v * O_LIMIT + r.value.o);
    }
    if r == None {
      PickedFirst(pushes, |left|, order);
      PickedMap(left, order);
      if Distinct(KeysOf(pushes)) {
        SomeMap(pushes, |left|);
      }
    }
  }

  /** What is picked from among the first entries. */
  lemma PickedFirst<T>(es: seq<T>, n: nat, order: seq<nat>)
    requires n <= |es| && Permutes(order, n)
    ensures Picked(es, order) == Picked(es[..n], order)
  {}

  lemma EntryKeys(a: Arrays)
    requires a.Held()
    ensures KeysOf(a.Entries()) == a.keys
  {}

  lemma StablePlaces(order: seq<nat>, keys: seq<nat>)
    requires StableOrder(order, keys)
    ensures |order| == |keys| && forall a :: 0 <= a < |order| ==> order[a] < |keys|
  {}

  /** The four arrays together in the order of the places. */
  method Reordered(a: Arrays, places: seq<nat>) returns (now: Arrays)
    requires a.Held() && |places| <= |a.keys| && forall j :: 0 <= j < |places| ==> places[j] < |a.keys|
    ensures now.Held() && now.Padded() && now.Entries() == Picked(a.Entries(), places) && |now.binary| == |a.binary|
  {
    hide Flag, SetFlag, Words64;
    var ks: seq<nat>, os: seq<nat>, ls: seq<nat>, words: seq<nat> := [], [], [], seq(|a.binary|, _ => 0);
    NoFlags(words);
    var j := 0;
    while j < |places|
      invariant j <= |places| && |ks| == |os| == |ls| == j && |words| == |a.binary| && Words64(words)
      invariant forall i :: 0 <= i < j ==> ks[i] == a.keys[places[i]] && os[i] == a.offsets[places[i]] && ls[i] == a.lens[places[i]]
      invariant forall i :: 0 <= i < j ==> Flag(words, i) == Flag(a.binary, places[i])
      invariant forall i :: j <= i < 64 * |words| ==> !Flag(words, i)
    {
      var i := places[j];
      ks, os, ls := ks + [a.keys[i]], os + [a.offsets[i]], ls + [a.lens[i]];
      if Flag(a.binary, i) {
        SetFlagFits(words, j);
        SetFlagAll(words, j);
        words := SetFlag(words, j);
      }
      j := j + 1;
    }
    now := Arrays(ks, os, ls, words);
  }

  lemma SetFlagAll(words: seq<nat>, j: nat)
    requires j / 64 < |words|
    ensures forall a :: 0 <= a < 64 * |words| ==> Flag(SetFlag(words, j), a) == (a == j || Flag(words, a))
  {
    hide Flag, SetFlag;
    forall a | 0 <= a < 64 * |words|
      ensures Flag(SetFlag(words, j), a) == (a == j || Flag(words, a))
    {
      SetFlagIs(words, j, a);
    }
  }

  /** The first of sorted keys that is the one before it again. */
  method FirstRepeat(keys: seq<nat>) returns (i: nat)
    requires InOrder(keys)
    ensures i < |keys| ==> 0 < i && keys[i - 1] == keys[i]
    ensures i >= |keys| ==> Increasing(keys)
  {
    i := 1;
    while i < |keys| && keys[i - 1] != keys[i]
      invariant 1 <= i
      invariant forall j :: 0 < j < i && j < |keys| ==> keys[j - 1] < keys[j]
    {
      i := i + 1;
    }
    if i >= |keys| {
      StepsIncrease(keys);
    }
  }

  method BinarySearch(keys: seq<nat>, key: nat) returns (r: Option<nat>)
    requires Increasing(keys)
    ensures r == None ==> key !in keys
    ensures r != None ==> r.value < |keys| && keys[r.value] == key
  {
    var lo: nat, hi: nat := 0, |keys|;
    while lo < hi
      invariant lo <= hi <= |keys|
      invariant forall i :: 0 <= i < lo ==> keys[i] < key
      invariant forall i :: hi <= i < |keys| ==> key < keys[i]
    {
      var mid := (lo + hi) / 2;
      if keys[mid] == key {
        return Some(mid);
      }
      if keys[mid] < key {
        lo := mid + 1;
      } else {
        hi := mid;
      }
    }
    return None;
  }

  ghost predicate Increasing(keys: seq<nat>)
  {
    forall i, j :: 0 <= i < j < |keys| ==> keys[i] < keys[j]
  }

  /** No key twice. */
  ghost predicate Distinct(keys: seq<nat>)
  {
    forall i, j :: 0 <= i < j < |keys| ==> keys[i] != keys[j]
  }

  lemma RepeatsTwice(keys: seq<nat>, key: nat)
    requires Repeats(keys, key)
    ensures !Distinct(keys)
  {}

  /** `key` is in the list more than once. */
  ghost predicate Repeats(keys: seq<nat>, key: nat)
  {
    exists i, j :: 0 <= i < j < |keys| && keys[i] == keys[j] == key
  }

  lemma PickedKeys(was: Arrays, now: Arrays, order: seq<nat>)
    requires was.Held() && now.Held()
    requires forall a :: 0 <= a < |order| ==> order[a] < |was.keys|
    requires now.Entries() == Picked(was.Entries(), order)
    ensures |now.keys| == |order| && forall j :: 0 <= j < |order| ==> now.keys[j] == was.keys[order[j]]
  {
    forall j | 0 <= j < |order|
      ensures now.keys[j] == was.keys[order[j]]
    {
      assert now.Entries()[j] == was.Entries()[order[j]];
    }
  }

  /** What sorting leaves. */
  lemma InKeyOrder(was: Arrays, now: Arrays, order: seq<nat>)
    requires was.Held() && now.Held() && !InOrder(was.keys) && StableOrder(order, Listed(was.keys))
    requires now.Entries() == Picked(was.Entries(), order)
    ensures Permutes(order, Left(was.keys)) && |now.keys| == |order| == Left(was.keys) && InOrder(now.keys)
    ensures forall j :: 0 <= j < |order| ==> order[j] < Left(was.keys) && now.keys[j] == was.keys[order[j]]
  {
    hide Permutes, Sorted, Arrays.Entries, Picked;
    StablePermutes(order, Listed(was.keys));
    PermutesPlaces(order, |Listed(was.keys)|);
    PickedKeys(was, now, order);
    SortedSteps(Listed(was.keys), now.keys, order);
  }

  /** Entries in order are left as they are. */
  lemma Unsorted(was: Arrays, order: seq<nat>)
    requires was.Held() && InOrder(was.keys) && order == Upto(|was.keys|)
    ensures Permutes(order, Left(was.keys)) && |was.keys| == |order| && was.Entries() == Picked(was.Entries(), order)
    ensures forall j :: 0 <= j < |order| ==> order[j] < Left(was.keys) && was.keys[j] == was.keys[order[j]]
  {
    hide Permutes, Arrays.Entries, Picked;
    UptoPermutes(was.Entries());
    PermutesPlaces(order, |was.keys|);
  }

  lemma IncreasingDistinct(a: Arrays)
    requires a.Held() && Increasing(a.keys)
    ensures KeysOf(a.Entries()) == a.keys && Distinct(a.keys)
  {}

  lemma TwiceKept(was: seq<nat>, keys: seq<nat>, order: seq<nat>, i: nat)
    requires Permutes(order, |was|) && |keys| == |order|
    requires forall j :: 0 <= j < |order| ==> keys[j] == was[order[j]]
    requires 0 < i < |keys| && keys[i - 1] == keys[i]
    ensures Repeats(was, keys[i])
  {
    var a, b := order[i - 1], order[i];
    if a < b {
      assert was[a] == was[b] == keys[i];
    } else {
      assert b < a && was[b] == was[a] == keys[i];
    }
  }

  lemma {:induction false} StepsBelow(keys: seq<nat>, i: nat, j: nat)
    requires forall j :: 0 < j < |keys| ==> keys[j - 1] < keys[j]
    requires i < j < |keys|
    ensures keys[i] < keys[j]
  {
    if i < j - 1 {
      StepsBelow(keys, i, j - 1);
    }
  }

  lemma StepsIncrease(keys: seq<nat>)
    requires forall j :: 0 < j < |keys| ==> keys[j - 1] < keys[j]
    ensures Increasing(keys)
  {
    forall i, j | 0 <= i < j < |keys|
      ensures keys[i] < keys[j]
    {
      StepsBelow(keys, i, j);
    }
  }

  /** Keys that increase once put in order were distinct. */
  lemma IncreasingOnce(was: seq<nat>, keys: seq<nat>, order: seq<nat>)
    requires Permutes(order, |was|) && |keys| == |order| && Increasing(keys)
    requires forall j :: 0 <= j < |order| ==> keys[j] == was[order[j]]
    ensures Distinct(was)
  {
    forall i, j | 0 <= i < j < |was|
      ensures was[i] != was[j]
    {
      var a := PlaceOf(order, i);
      var b := PlaceOf(order, j);
      assert keys[a] < keys[b] || keys[b] < keys[a];
    }
  }

  /** Keys in the sorted order do not step down. */
  lemma SortedSteps(was: seq<nat>, keys: seq<nat>, order: seq<nat>)
    requires StableOrder(order, was) && |keys| == |order|
    requires forall j :: 0 <= j < |order| ==> keys[j] == was[order[j]]
    ensures InOrder(keys)
  {
    forall j | 0 < j < |keys|
      ensures keys[j - 1] <= keys[j]
    {
      assert Before(order[j - 1], order[j], was);
    }
  }

  lemma NoFlags(words: seq<nat>)
    requires forall w :: 0 <= w < |words| ==> words[w] == 0
    ensures Words64(words)
    ensures forall i :: 0 <= i < 64 * |words| ==> !Flag(words, i)
  {
    forall i | 0 <= i < 64 * |words|
      ensures !Flag(words, i)
    {
      BitZero(i % 64);
    }
  }

  /** A word of zeros more. */
  lemma NewWord(words: seq<nat>)
    requires Words64(words)
    ensures Words64(words + [0])
    ensures forall i :: 0 <= i < 64 * |words| ==> Flag(words + [0], i) == Flag(words, i)
    ensures forall i :: 64 * |words| <= i < 64 * |words| + 64 ==> !Flag(words + [0], i)
  {
    forall i | 64 * |words| <= i < 64 * |words| + 64
      ensures !Flag(words + [0], i)
    {
      BitZero(i % 64);
    }
  }
}
