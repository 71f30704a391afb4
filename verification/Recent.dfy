/**
 `python/src/lib.rs`: strings made lately, shared by the rows that repeat them,
 and the references held to them: by the array being filled, by the cache and
 by nothing else.
 */
module Recent {
  import opened Wrappers
  import opened Bits

  const SLOTS: nat := 1024
  const LONGEST: nat := 64
  const PROBE: nat := 4096

  /** A Python object made of bytes: a `str` of their text, or the `bytes`. */
  datatype Object = Text(b: seq<byte>) | Binary(b: seq<byte>)

  /** The object a slot holds, if any, and its UTF-8 (what it last held, if none). */
  datatype Slot = Slot(held: Option<nat>, b: seq<byte>)

  /** How often `o` is held. */
  function Times(refs: seq<Option<nat>>, o: nat): nat
  {
    if refs == [] then 0 else Times(refs[..|refs| - 1], o) + if refs[|refs| - 1] == Some(o) then 1 else 0
  }

  function HeldBy(slots: seq<Slot>): (refs: seq<Option<nat>>)
    ensures |refs| == |slots| && forall i :: 0 <= i < |slots| ==> refs[i] == slots[i].held
  {
    if slots == [] then [] else HeldBy(slots[..|slots| - 1]) + [slots[|slots| - 1].held]
  }

  function One(r: Option<nat>, o: nat): nat
  {
    if r == Some(o) then 1 else 0
  }

  /** Replacing a reference takes its object's count down by one, and the new one's up. */
  lemma {:induction false} TimesChange(refs: seq<Option<nat>>, i: nat, r: Option<nat>, o: nat)
    requires i < |refs|
    ensures Times(refs[i := r], o) + One(refs[i], o) == Times(refs, o) + One(r, o)
  {
    var n := |refs| - 1;
    if i == n {
      assert refs[i := r][..n] == refs[..n];
    } else {
      assert refs[i := r][..n] == refs[..n][i := r];
      TimesChange(refs[..n], i, r, o);
    }
  }

  lemma {:induction false} TimesNone(refs: seq<Option<nat>>, o: nat)
    requires forall i :: 0 <= i < |refs| ==> refs[i] != Some(o)
    ensures Times(refs, o) == 0
  {
    if refs != [] {
      TimesNone(refs[..|refs| - 1], o);
    }
  }

  lemma HeldChange(slots: seq<Slot>, i: nat, s: Slot)
    requires i < |slots|
    ensures HeldBy(slots[i := s]) == HeldBy(slots)[i := s.held]
  {}

  class Strings {
    /** The objects there are, and the references to each. */
    var objects: seq<Object>
    var counts: seq<int>
    /** The array being filled. */
    var rows: seq<Option<nat>>
    var slots: seq<Slot>
    var lookups: nat
    var hits: nat
    const hash: seq<byte> -> nat
    /** Memory never runs short. */
    const roomy: bool
    /** References that are neither the array's nor the cache's. */
    ghost var others: seq<nat>

    constructor (objects: seq<Object>, counts: seq<int>, rows: seq<Option<nat>>, ghost others: seq<nat>, hash: seq<byte> -> nat, roomy: bool)
      requires |counts| == |objects| == |others| && Real(rows, objects)
      requires forall o :: 0 <= o < |objects| ==> counts[o] == others[o] + Times(rows, o)
      ensures Valid() && Balanced(None) && this.rows == rows && this.objects == objects && slots == [] && lookups == hits == 0
    {
      this.objects, this.counts, this.rows, this.hash, this.roomy := objects, counts, rows, hash, roomy;
      this.others := others;
      slots, lookups, hits := [], 0, 0;
    }

    /** Slots and the array hold objects there are, and a slot that holds one holds the `str` of its bytes. */
    ghost predicate Valid()
      reads this
    {
      && |counts| == |objects| == |others| && (slots == [] || |slots| == 1024)
      && Real(rows, objects) && SlotsReal(slots, objects)
    }

    /** Each object has a reference for each place that holds it, and one more for `extra`. */
    ghost predicate Balanced(extra: Option<nat>)
      requires |counts| == |others|
      reads this
    {
      Even(counts, others, rows, HeldBy(slots), extra)
    }

    /** A new object, held by nothing but the caller; None when memory is short. */
    method Make(made: Object) returns (r: Option<nat>)
      requires Valid() && Balanced(None)
      modifies this`objects, this`counts, this`others
      ensures Valid() && old(objects) <= objects && Balanced(r) && (roomy ==> r != None)
      ensures r != None ==> r.value < |objects| && objects[r.value] == made
    {
      hide Even;
      var room := *;
      if !roomy && !room {
        return None;
      }
      MakeEven(counts, others, rows, HeldBy(slots), objects, slots);
      objects := objects + [made];
      counts := counts + [1];
      others := others + [0];
      return Some(|objects| - 1);
    }

    /** Strings like `b` go through the slots: it is short, and the slots have been of use. */
    predicate Sharing(b: seq<byte>)
      reads this
    {
      |b| <= LONGEST && !(lookups >= PROBE && hits * 2 < lookups)
    }

    /** What `b`'s slot holds. */
    function InSlot(b: seq<byte>): Option<nat>
      reads this
    {
      if hash(b) % SLOTS < |slots| then slots[hash(b) % SLOTS].held else None
    }

    /** `b`'s slot holds a `str` of it. */
    predicate Holds(b: seq<byte>)
      reads this
    {
      InSlot(b) != None && slots[hash(b) % SLOTS].b == b
    }

    /** One more reference to a `str` of these bytes: to the one the slot holds, or to one made and put there. */
    method Get(b: seq<byte>) returns (r: Option<nat>)
      requires Valid() && Balanced(None)
      modifies this`objects, this`counts, this`others, this`slots, this`lookups, this`hits
      ensures Valid() && old(objects) <= objects && Balanced(r) && (roomy ==> r != None)
      ensures r != None ==> r.value < |objects| && objects[r.value] == Text(b)
      ensures old(Sharing(b)) ==> if old(Holds(b)) then r == old(InSlot(b)) && objects == old(objects) else r != None ==> InSlot(b) == r
      ensures old(Sharing(b)) && r != None ==> Holds(b)
      ensures !old(Sharing(b)) ==> slots == old(slots)
      ensures lookups == old(lookups) + if old(Sharing(b)) then 1 else 0
      ensures hits == old(hits) + if old(Sharing(b)) && old(Holds(b)) then 1 else 0
    {
      hide Even, HeldBy;
      if |b| > LONGEST || (lookups >= PROBE && hits * 2 < lookups) {
        r := Make(Text(b));
        return;
      }
      lookups := lookups + 1;
      if slots == [] {
        slots := seq(SLOTS, _ => Slot(None, []));
        EmptySlots(counts, others, rows, slots);
      }
      var k := hash(b) % SLOTS;
      var slot := slots[k];
      if slot.held != None && slot.b == b {
        hits := hits + 1;
        var o := slot.held.value;
        HitEven(counts, others, rows, HeldBy(slots), o);
        counts := counts[o := counts[o] + 1];
        return slot.held;
      }
      r := Replace(k, b);
    }

    /** A new `str` of `b`, and another reference to it in slot `k`, whose own is let go of. */
    method Replace(k: nat, b: seq<byte>) returns (r: Option<nat>)
      requires Valid() && Balanced(None) && k < |slots|
      modifies this`objects, this`counts, this`others, this`slots
      ensures Valid() && old(objects) <= objects && Balanced(r) && (roomy ==> r != None)
      ensures r != None ==> r.value < |objects| && objects[r.value] == Text(b)
      ensures |slots| == |old(slots)| && (r != None ==> slots[k] == Slot(r, b))
    {
      hide Even, HeldBy;
      r := Make(Text(b));
      if r != None {
        var slot := slots[k];
        TakeEven(counts, others, rows, slots, k, r.value, b);
        if slot.held != None {
          counts := counts[slot.held.value := counts[slot.held.value] - 1];
        }
        counts := counts[r.value := counts[r.value] + 1];
        slots := slots[k := Slot(r, b)];
      }
    }

    /** Let go of the references held. */
    method Clear()
      requires Valid() && Balanced(None)
      modifies this`counts, this`slots
      ensures Valid() && forall o :: 0 <= o < |counts| ==> counts[o] == others[o] + Times(rows, o)
      ensures forall i :: 0 <= i < |slots| ==> slots[i].held == None
    {
      hide HeldBy;
      var i := 0;
      while i < |slots|
        invariant i <= |slots| == |old(slots)| && Valid() && Balanced(None)
        invariant forall j :: 0 <= j < i ==> slots[j].held == None
      {
        if slots[i].held != None {
          DropEven(counts, others, rows, slots, i);
          var o := slots[i].held.value;
          counts := counts[o := counts[o] - 1];
          slots := slots[i := slots[i].(held := None)];
        }
        i := i + 1;
      }
      forall o | 0 <= o < |counts|
        ensures Times(HeldBy(slots), o) == 0
      {
        HeldAre(slots);
        TimesNone(HeldBy(slots), o);
      }
    }

    /** Put a value in each row from `first`, and let go of what was there; false when memory is short. */
    method PutStrings(first: nat, values: seq<(seq<byte>, bool)>) returns (done: nat)
      requires Valid() && Balanced(None) && first + |values| <= |rows|
      modifies this`objects, this`counts, this`others, this`slots, this`lookups, this`hits, this`rows
      ensures Valid() && Balanced(None) && old(objects) <= objects && done <= |values| && |rows| == |old(rows)|
      ensures roomy ==> done == |values|
      ensures forall i :: 0 <= i < |rows| && !(first <= i < first + done) ==> rows[i] == old(rows)[i]
      ensures forall i :: 0 <= i < done ==> Shows(rows[first + i], objects, values[i])
    {
      hide Even, HeldBy;
      done := 0;
      while done < |values|
        invariant done <= |values| && Valid() && Balanced(None) && old(objects) <= objects && |rows| == |old(rows)|
        invariant forall i :: 0 <= i < |rows| && !(first <= i < first + done) ==> rows[i] == old(rows)[i]
        invariant forall i :: 0 <= i < done ==> Shows(rows[first + i], objects, values[i])
      {
        var ok := PutString(first + done, values[done]);
        if !ok {
          return;
        }
        done := done + 1;
      }
    }

    /** Put a value in a row; false, and the row as it was, when memory is short. */
    method PutString(at: nat, value: (seq<byte>, bool)) returns (ok: bool)
      requires Valid() && Balanced(None) && at < |rows|
      modifies this`objects, this`counts, this`others, this`slots, this`lookups, this`hits, this`rows
      ensures Valid() && Balanced(None) && old(objects) <= objects
      ensures |rows| == |old(rows)| && rows == old(rows)[at := rows[at]]
      ensures if ok then Shows(rows[at], objects, value) else rows == old(rows) && !roomy
    {
      hide Even, HeldBy;
      var (b, binary) := value;
      var made;
      if binary {
        made := Make(Binary(b));
      } else {
        made := Get(b);
      }
      if made == None {
        return false;
      }
      PutEven(counts, others, rows, HeldBy(slots), at, made);
      var was := rows[at];
      rows := rows[at := made];
      if was != None {
        counts := counts[was.value := counts[was.value] - 1];
      }
      return true;
    }
  }

  /** Strings of up to 64 bytes are shared for 4096 lookups at least, and then for as long as half of all lookups find theirs. */
  lemma SharesWhile(s: Strings, b: seq<byte>)
    ensures s.Sharing(b) <==> |b| <= 64 && (s.lookups < 4096 || s.lookups <= 2 * s.hits)
  {}

  /** The row holds an object of its value's kind and bytes. */
  predicate Shows(row: Option<nat>, objects: seq<Object>, value: (seq<byte>, bool))
  {
    row != None && row.value < |objects| && objects[row.value] == if value.1 then Binary(value.0) else Text(value.0)
  }

  ghost predicate Even(counts: seq<int>, others: seq<nat>, rows: seq<Option<nat>>, held: seq<Option<nat>>, extra: Option<nat>)
    requires |counts| == |others|
  {
    forall o :: 0 <= o < |counts| ==> counts[o] == others[o] + Times(rows, o) + Times(held, o) + One(extra, o)
  }

  lemma MakeEven(counts: seq<int>, others: seq<nat>, rows: seq<Option<nat>>, held: seq<Option<nat>>, objects: seq<Object>, slots: seq<Slot>)
    requires |counts| == |others| == |objects| && Even(counts, others, rows, held, None)
    requires Real(rows, objects) && SlotsReal(slots, objects) && held == HeldBy(slots)
    ensures Even(counts + [1], others + [0], rows, held, Some(|objects|))
  {
    TimesNone(rows, |objects|);
    TimesNone(held, |objects|);
  }

  lemma EmptySlots(counts: seq<int>, others: seq<nat>, rows: seq<Option<nat>>, empty: seq<Slot>)
    requires |counts| == |others| && Even(counts, others, rows, HeldBy([]), None)
    requires forall i :: 0 <= i < |empty| ==> empty[i].held == None
    ensures Even(counts, others, rows, HeldBy(empty), None)
  {
    var held := HeldBy(empty);
    forall o | 0 <= o < |counts|
      ensures Times(held, o) == 0
    {
      TimesNone(held, o);
    }
  }

  lemma HitEven(counts: seq<int>, others: seq<nat>, rows: seq<Option<nat>>, held: seq<Option<nat>>, o: nat)
    requires |counts| == |others| && o < |counts| && Even(counts, others, rows, held, None)
    ensures Even(counts[o := counts[o] + 1], others, rows, held, Some(o))
  {}

  lemma HeldAre(slots: seq<Slot>)
    ensures |HeldBy(slots)| == |slots| && forall i :: 0 <= i < |slots| ==> HeldBy(slots)[i] == slots[i].held
  {}

  /** Counts with one reference let go of, if there was one. */
  function LetGo(counts: seq<int>, r: Option<nat>): (now: seq<int>)
    requires r != None ==> r.value < |counts|
    ensures |now| == |counts| && forall o :: 0 <= o < |now| ==> now[o] == counts[o] - One(r, o)
  {
    if r == None then counts else counts[r.value := counts[r.value] - 1]
  }

  lemma TakeEven(counts: seq<int>, others: seq<nat>, rows: seq<Option<nat>>, slots: seq<Slot>, k: nat, o: nat, b: seq<byte>)
    requires |counts| == |others| && k < |slots| && o < |counts| && (slots[k].held != None ==> slots[k].held.value < |counts|)
    requires Even(counts, others, rows, HeldBy(slots), Some(o))
    ensures var now := LetGo(counts, slots[k].held);
            Even(now[o := now[o] + 1], others, rows, HeldBy(slots[k := Slot(Some(o), b)]), Some(o))
  {
    hide HeldBy, Times;
    HeldChange(slots, k, Slot(Some(o), b));
    HeldAre(slots);
    forall p | 0 <= p < |counts|
      ensures Times(HeldBy(slots)[k := Some(o)], p) + One(slots[k].held, p) == Times(HeldBy(slots), p) + One(Some(o), p)
    {
      TimesChange(HeldBy(slots), k, Some(o), p);
    }
  }

  lemma DropEven(counts: seq<int>, others: seq<nat>, rows: seq<Option<nat>>, slots: seq<Slot>, k: nat)
    requires |counts| == |others| && k < |slots| && slots[k].held != None && slots[k].held.value < |counts|
    requires Even(counts, others, rows, HeldBy(slots), None)
    ensures Even(LetGo(counts, slots[k].held), others, rows, HeldBy(slots[k := slots[k].(held := None)]), None)
  {
    hide HeldBy, Times;
    HeldChange(slots, k, slots[k].(held := None));
    HeldAre(slots);
    forall p | 0 <= p < |counts|
      ensures Times(HeldBy(slots)[k := None], p) + One(slots[k].held, p) == Times(HeldBy(slots), p)
    {
      TimesChange(HeldBy(slots), k, None, p);
    }
  }

  lemma PutEven(counts: seq<int>, others: seq<nat>, rows: seq<Option<nat>>, held: seq<Option<nat>>, i: nat, made: Option<nat>)
    requires |counts| == |others| && i < |rows| && (rows[i] != None ==> rows[i].value < |counts|)
    requires Even(counts, others, rows, held, made)
    ensures Even(LetGo(counts, rows[i]), others, rows[i := made], held, None)
  {
    forall p | 0 <= p < |counts|
      ensures Times(rows[i := made], p) + One(rows[i], p) == Times(rows, p) + One(made, p)
    {
      TimesChange(rows, i, made, p);
    }
  }

  ghost predicate Real(refs: seq<Option<nat>>, objects: seq<Object>)
  {
    forall i :: 0 <= i < |refs| && refs[i] != None ==> refs[i].value < |objects|
  }

  ghost predicate SlotsReal(slots: seq<Slot>, objects: seq<Object>)
  {
    forall i :: 0 <= i < |slots| && slots[i].held != None ==>
      slots[i].held.value < |objects| && objects[slots[i].held.value] == Text(slots[i].b)
  }
}
