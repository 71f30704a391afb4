/**
 `js/src/wasm.ts`, `js/src/index.ts`, `js/src/parquet.ts`: the module's
 instance, replaced after a trap or to give memory back, and the readers open
 on it, whose calls may find another instance than they began on.
 */
module Lifetime {
  /** How the module answers a call. */
  datatype Outcome = Fine | Failed | Trap

  /** An answer: what the host functions it calls do meanwhile, how it ends, and the memory the instance then has. */
  datatype Reply = Reply(callbacks: seq<Action>, outcome: Outcome, grown: nat)

  /** What a program does with the package; the module's answers come with it. */
  datatype Action =
    | Construct(parquet: bool, opening: Reply, described: Reply, aside: seq<Action>, throws: bool, closing: Outcome)
    | Use(reader: nat, reply: Reply)
    | Read(reader: nat, replies: seq<Reply>, ending: Outcome)
    | Close(reader: nat, closing: Outcome)
    | Finalize(reader: nat, closing: Outcome)
    | Write(reply: Reply)

  /** How a guarded call ends. */
  datatype Ran = Refused | Answered | Errored | Trapped

  /** What a call on a reader comes to. */
  datatype Reach = ClosedError | Reached(how: Ran)

  /** How a constructor ends; when it gives up, with the generation of the instance it closed its handle on. */
  datatype Made = Ready(reader: nat) | NotOpened | GaveUp(reader: nat, on: nat)

  /** A reader: handle 0 is none. `out` once its constructor has returned; `closes` counts its `onClose` calls. */
  datatype Reader = Reader(parquet: bool, handle: nat, generation: nat, out: bool, closes: nat)

  /** A handle's place in the module; `keeps` while a read has left it dictionaries for its next call. */
  datatype Slot = Slot(open: bool, keeps: bool)

  /** An instance's handles: handle `h` is entry `h - 1` of its format's list. */
  datatype Slots = Slots(dta: seq<Slot>, pq: seq<Slot>)
  {
    function Of(parquet: bool): seq<Slot> {
      if parquet then pq else dta
    }

    function With(parquet: bool, list: seq<Slot>): Slots {
      if parquet then this.(pq := list) else this.(dta := list)
    }

    predicate IsOpen(parquet: bool, handle: nat) {
      0 < handle <= |Of(parquet)| && Of(parquet)[handle - 1].open
    }

    /** A handle's place changed, if there is one. */
    function Set(parquet: bool, handle: nat, slot: Slot): Slots {
      if 0 < handle <= |Of(parquet)| then With(parquet, Of(parquet)[handle - 1 := slot]) else this
    }

    /** No read has left anything in the instance. */
    ghost predicate Idle() {
      (forall k :: 0 <= k < |dta| ==> !dta[k].keeps) && forall k :: 0 <= k < |pq| ==> !pq[k].keeps
    }

    /** No read has, but one with this handle. */
    ghost predicate IdleBut(parquet: bool, handle: nat) {
      && (forall k :: 0 <= k < |dta| && dta[k].keeps ==> !parquet && k == handle - 1 && dta[k].open)
      && (forall k :: 0 <= k < |pq| && pq[k].keeps ==> parquet && k == handle - 1 && pq[k].open)
    }

    lemma IdleFirst(parquet: bool, handle: nat)
      ensures Idle() ==> IdleBut(parquet, handle)
    {}
  }

  function Weight(a: Action): nat
  {
    match a
    case Construct(_, opening, described, aside, _, _) =>
      1 + ReplyWeight(opening) + ReplyWeight(described) + Weights(aside)
    case Use(_, reply) => 1 + ReplyWeight(reply)
    case Read(_, replies, _) => 1 + RepliesWeight(replies)
    case Close(_, _) => 1
    case Finalize(_, _) => 1
    case Write(reply) => 1 + ReplyWeight(reply)
  }

  function ReplyWeight(r: Reply): nat
  {
    1 + Weights(r.callbacks)
  }

  function RepliesWeight(replies: seq<Reply>): nat
  {
    if replies == [] then 1 else ReplyWeight(replies[0]) + 1 + RepliesWeight(replies[1..])
  }

  function Weights(actions: seq<Action>): nat
  {
    if actions == [] then 0 else Weight(actions[0]) + 1 + Weights(actions[1..])
  }

  /** The reader's module is this one, and it is open on it. */
  predicate Live(r: Reader, generation: nat)
  {
    r.handle != 0 && r.generation == generation
  }

  /** How many readers are live. */
  function CountLive(readers: seq<Reader>, generation: nat): nat
  {
    if readers == [] then 0 else
    CountLive(readers[..|readers| - 1], generation) + if Live(readers[|readers| - 1], generation) then 1 else 0
  }

  lemma CountPush(readers: seq<Reader>, r: Reader, generation: nat)
    ensures CountLive(readers + [r], generation) == CountLive(readers, generation) + if Live(r, generation) then 1 else 0
  {
    assert (readers + [r])[..|readers|] == readers;
  }

  lemma {:induction false} CountChange(readers: seq<Reader>, i: nat, r: Reader, generation: nat)
    requires i < |readers|
    ensures CountLive(readers[i := r], generation) + (if Live(readers[i], generation) then 1 else 0)
         == CountLive(readers, generation) + if Live(r, generation) then 1 else 0
  {
    var n := |readers| - 1;
    if i == n {
      assert readers[i := r][..n] == readers[..n];
    } else {
      assert readers[i := r][..n] == readers[..n][i := r];
      CountChange(readers[..n], i, r, generation);
    }
  }

  lemma {:induction false} CountNone(readers: seq<Reader>, generation: nat)
    requires forall i :: 0 <= i < |readers| ==> !Live(readers[i], generation)
    ensures CountLive(readers, generation) == 0
  {
    if readers != [] {
      CountNone(readers[..|readers| - 1], generation);
    }
  }

  class Package {
    var generation: nat
    var openHandles: int
    var depth: nat
    /** The instance's memory, and the handles it has given out. */
    var memory: nat
    var slots: Slots
    var readers: seq<Reader>
    const replaceAbove: nat
    /** Calls made with a handle that have reached an instance the handle is not of. */
    ghost var strays: nat
    /** Reads one of whose calls has trapped. */
    ghost var trapped: nat
    /** Constructors that have closed their handle on an instance it is not of. */
    ghost var gaveUp: nat
    /** How many more readers are live on this instance than are counted. */
    ghost var short: nat
    /** A stray call has reached a handle this instance has open. */
    ghost var hit: bool
    /** An instance has been given back for its memory with a reader live on it. */
    ghost var cut: bool
    /** Actions begun. */
    ghost var begun: nat

    constructor (replaceAbove: nat)
      ensures Valid() && readers == [] && depth == 0 && generation == 0 && this.replaceAbove == replaceAbove
      ensures strays == trapped == gaveUp == 0 && slots.Idle()
    {
      generation, openHandles, depth, memory, slots, readers := 0, 0, 0, 0, Slots([], []), [];
      this.replaceAbove := replaceAbove;
      strays, trapped, gaveUp, short, hit, cut, begun := 0, 0, 0, 0, false, false, 0;
    }

    /** What holds of every run: calls stray exactly after traps in reads and in constructors, and only the latter do harm. */
    ghost predicate Valid()
      reads this
    {
      Sound(readers) && strays == trapped + gaveUp
    }

    ghost predicate Sound(readers: seq<Reader>)
      reads this
    {
      && Counted(readers, generation, openHandles + short) && Closed(readers)
      && (!hit ==> Slotted(readers, generation, slots))
      && (gaveUp == 0 ==> short == 0 && !hit && !cut)
    }

    /** Nothing but readers has changed. */
    twostate predicate Untouched()
      reads this
    {
      && generation == old(generation) && openHandles == old(openHandles) && depth == old(depth) && memory == old(memory)
      && slots == old(slots) && Unmarked() && strays == old(strays) && trapped == old(trapped) && gaveUp == old(gaveUp)
    }

    /** No instance has been miscounted, hit or cut off that was not before. */
    twostate predicate Unmarked()
      reads this
    {
      short == old(short) && hit == old(hit) && cut == old(cut)
    }

    /** A new instance; readers of the old one are closed, as they will find. */
    method ReplaceInstance(ghost left: seq<Reader>)
      modifies this`generation, this`openHandles, this`memory, this`slots, this`short, this`hit
      ensures generation == old(generation) + 1 && openHandles == 0 && slots == Slots([], []) && memory == 0
      ensures short == 0 && !hit
      ensures old(Sound(left)) ==> Sound(left)
    {
      NoneLive(left, generation, openHandles + short);
      generation := generation + 1;
      openHandles, memory, slots := 0, 0, Slots([], []);
      short, hit := 0, false;
    }

    /** Give back an instance that has grown large and that nothing uses; `left` are the readers, without one just closed. */
    method MaybeReplace(ghost left: seq<Reader>)
      requires Sound(left)
      modifies this`generation, this`openHandles, this`memory, this`slots, this`short, this`hit, this`cut
      ensures Sound(left)
      ensures generation != old(generation) <==> old(openHandles) == 0 && depth == 0 && old(memory) > replaceAbove
      ensures if generation == old(generation) then Untouched() else generation == old(generation) + 1 && slots == Slots([], [])
      ensures cut == (old(cut) || (generation != old(generation) && CountLive(left, old(generation)) != 0))
      ensures generation != old(generation) ==> CountLive(left, old(generation)) == old(short)
    {
      hide Slotted, Closed;
      if openHandles == 0 && depth == 0 && memory > replaceAbove {
        cut := cut || CountLive(left, generation) != 0;
        ReplaceInstance(left);
      }
    }

    /** A call into the module: not from inside another, and a trap leaves a new instance with no handle open. */
    method Guard(reply: Reply) returns (ran: Ran)
      requires Valid()
      modifies this
      ensures begun >= old(begun) + if ran.Refused? then 0 else |reply.callbacks|
      ensures Valid() && depth == old(depth) && Kept(old(readers), readers)
      ensures ran == if depth > 0 then Refused else RanAs(reply.outcome)
      ensures ran.Refused? || reply.callbacks == [] ==> readers == old(readers)
      ensures ran.Refused? ==> Untouched()
      ensures strays == old(strays) && trapped == old(trapped) && gaveUp == old(gaveUp) && cut == old(cut)
      ensures if ran.Trapped? then generation == old(generation) + 1 && openHandles == 0 && slots == Slots([], []) && short == 0 && !hit
              else generation == old(generation) && openHandles == old(openHandles) && slots == old(slots) && Unmarked()
      ensures memory == if ran.Refused? then old(memory) else if ran.Trapped? then 0 else Larger(old(memory), reply.grown)
      decreases ReplyWeight(reply), 0
    {
      hide Counted, Slotted, Closed, Kept;
      KeptAll(readers);
      if depth > 0 {
        return Refused;
      }
      depth := depth + 1;
      memory := Larger(memory, reply.grown);
      Run(reply.callbacks);
      if reply.outcome.Trap? {
        ReplaceInstance(readers);
      }
      depth := depth - 1;
      return RanAs(reply.outcome);
    }

    /** Open a file: a reader holds the new handle, or there is no reader more. */
    method Open(parquet: bool, reply: Reply) returns (i: nat)
      requires Valid()
      modifies this
      ensures begun >= old(begun)
      ensures Valid() && depth == old(depth) && Kept(old(readers), readers)
      ensures i < |readers| <==> depth == 0 && reply.outcome.Fine?
      ensures i < |readers| ==> i == |readers| - 1 && i >= |old(readers)| && generation == old(generation) && openHandles == old(openHandles) + 1 && Unmarked()
      ensures i < |readers| ==> readers[i] == Reader(parquet, |old(slots).Of(parquet)| + 1, generation, false, 0)
      ensures i < |readers| && reply.callbacks == [] ==> readers[..i] == old(readers)
      ensures i < |readers| ==> memory == Larger(old(memory), reply.grown)
      ensures old(depth) > 0 ==> Untouched()
      ensures generation >= old(generation) && (old(slots).Idle() ==> slots.Idle())
      ensures strays == old(strays) && trapped == old(trapped) && gaveUp == old(gaveUp) && cut == old(cut)
      decreases ReplyWeight(reply), 1
    {
      hide Counted, Slotted, Closed, Kept;
      var ran := Guard(reply);
      if !ran.Answered? {
        return |readers|;
      }
      var r := Reader(parquet, |slots.Of(parquet)| + 1, generation, false, 0);
      OpenStep(readers, parquet, generation, openHandles + short, slots);
      KeptPush(old(readers), readers, r);
      slots := slots.With(parquet, slots.Of(parquet) + [Slot(true, false)]);
      openHandles := openHandles + 1;
      readers := readers + [r];
      return |readers| - 1;
    }

    /** Close the handle a reader holds, on whatever instance there is now: false if the call does not return. */
    method CloseHandle(i: nat, closing: Outcome) returns (ok: bool)
      requires i < |readers| && readers[i].handle != 0 && Sound(readers)
      requires readers[i].generation != generation ==> gaveUp > 0
      modifies this
      ensures begun >= old(begun)
      ensures depth == old(depth) && readers == old(readers) && trapped == old(trapped) && gaveUp == old(gaveUp)
      ensures ok <==> depth == 0 && !closing.Trap?
      ensures depth > 0 ==> Untouched()
      ensures Sound(if ok then Left(readers, i) else readers)
      ensures depth == 0 ==> strays == old(strays) + if readers[i].generation == old(generation) then 0 else 1
      ensures depth == 0 && !ok ==> generation == old(generation) + 1 && cut == old(cut)
      ensures ok ==> generation == old(generation) + if old(openHandles) == 1 && old(memory) > replaceAbove then 1 else 0
      ensures ok && generation == old(generation) ==> openHandles == old(openHandles) - 1 && cut == old(cut) && memory == old(memory)
      ensures ok && generation == old(generation) ==> short == old(short) + if readers[i].generation == old(generation) then 0 else 1
      ensures ok && generation == old(generation) ==> slots == old(slots).Set(readers[i].parquet, readers[i].handle, Slot(false, false))
      ensures ok && generation != old(generation) ==> cut == (old(cut) || CountLive(Left(readers, i), old(generation)) != 0)
      ensures old(slots).Idle() ==> slots.Idle()
    {
      hide Counted, Slotted, Closed;
      if depth > 0 {
        return false;
      }
      var r := readers[i];
      Stray(r);
      if closing.Trap? {
        ReplaceInstance(readers);
        return false;
      }
      if r.generation == generation {
        CloseStep(readers, i, generation, openHandles + short, slots);
      } else {
        LeaveStale(readers, i, generation, openHandles + short, slots);
        short := short + 1;
      }
      slots := slots.Set(r.parquet, r.handle, Slot(false, false));
      openHandles := openHandles - 1;
      MaybeReplace(Left(readers, i));
      return true;
    }

    /** A call with a reader's handle reaches the current instance. */
    ghost method Stray(r: Reader)
      modifies this`strays, this`hit
      ensures strays == old(strays) + if r.generation == generation then 0 else 1
      ensures hit == (old(hit) || (r.generation != generation && slots.IsOpen(r.parquet, r.handle)))
    {
      if r.generation != generation {
        strays := strays + 1;
        hit := hit || slots.IsOpen(r.parquet, r.handle);
      }
    }

    /** `close()` of a reader a constructor returned: false if it throws. */
    method Close(i: nat, closing: Outcome) returns (ok: bool)
      requires Valid() && i < |readers| && readers[i].out
      modifies this
      ensures begun >= old(begun)
      ensures Valid() && depth == old(depth) && generation >= old(generation) && Kept(old(readers), readers)
      ensures depth > 0 ==> Untouched()
      ensures readers == if ok then old(readers)[i := Shut(old(readers)[i])] else old(readers)
      ensures !ok ==> depth > 0 || !Live(readers[i], generation)
      ensures ok <==> old(readers[i].handle) == 0 || old(readers[i].generation != generation) || (depth == 0 && !closing.Trap?)
      ensures strays == old(strays) && trapped == old(trapped) && gaveUp == old(gaveUp) && (old(slots).Idle() ==> slots.Idle())
      ensures ok && old(Live(readers[i], generation)) ==> generation == old(generation) + if old(openHandles) == 1 && old(memory) > replaceAbove then 1 else 0
      ensures ok && generation != old(generation) ==> cut == (old(cut) || CountLive(Left(old(readers), i), old(generation)) != 0)
    {
      hide Counted, Slotted;
      KeptAll(readers);
      var r := readers[i];
      if r.handle == 0 {
        return true;
      }
      if r.generation == generation {
        var done := CloseHandle(i, closing);
        if !done {
          return false;
        }
      } else {
        LeaveStale(readers, i, generation, openHandles + short, slots);
      }
      ShutStep(readers, i, generation, openHandles + short, slots);
      KeptShut(readers, i);
      readers := readers[i := Shut(r)];
      return true;
    }

    /** What runs when a reader a constructor returned, and that was not closed, is collected: whatever closing its handle does, `onClose` runs. */
    method Finalize(i: nat, closing: Outcome)
      requires Valid() && i < |readers| && readers[i].out && readers[i].handle != 0 && depth == 0
      modifies this
      ensures begun >= old(begun)
      ensures Valid() && depth == old(depth) && generation >= old(generation) && Kept(old(readers), readers)
      ensures readers == old(readers)[i := Shut(old(readers)[i])]
      ensures strays == old(strays) && trapped == old(trapped) && gaveUp == old(gaveUp) && (old(slots).Idle() ==> slots.Idle())
    {
      hide Counted, Slotted;
      var r := readers[i];
      var done := false;
      if r.generation == generation {
        done := CloseHandle(i, closing);
      }
      if !done {
        LeaveStale(readers, i, generation, openHandles + short, slots);
      }
      ShutStep(readers, i, generation, openHandles + short, slots);
      KeptShut(readers, i);
      readers := readers[i := Shut(r)];
    }

    /** A call with a reader's handle that is not part of a read of rows. */
    method Use(i: nat, reply: Reply) returns (ran: Reach)
      requires Valid() && i < |readers| && readers[i].out
      modifies this
      ensures begun >= old(begun)
      ensures Valid() && depth == old(depth) && generation >= old(generation) && Kept(old(readers), readers)
      ensures old(depth) > 0 ==> Untouched()
      ensures ran.ClosedError? <==> !old(Live(readers[i], generation))
      ensures ran.Reached? ==> ran.how == if depth > 0 then Refused else RanAs(reply.outcome)
      ensures ran.Reached? && ran.how.Trapped? ==> generation == old(generation) + 1
      ensures ran.Reached? && !old(hit) ==> old(slots).IsOpen(old(readers[i]).parquet, old(readers[i]).handle)
      ensures strays == old(strays) && trapped == old(trapped) && gaveUp == old(gaveUp) && (old(slots).Idle() ==> slots.Idle())
      decreases ReplyWeight(reply), 1
    {
      hide Counted, Closed, Kept;
      KeptAll(readers);
      if !Live(readers[i], generation) {
        return ClosedError;
      }
      var how := Guard(reply);
      return Reached(how);
    }

    /** One call of a read: what it keeps for the next is in its handle's place. */
    method ReadCall(r: Reader, reply: Reply) returns (how: Ran)
      requires Valid()
      modifies this
      ensures begun >= old(begun)
      ensures Valid() && depth == old(depth) && Kept(old(readers), readers)
      ensures how == if depth > 0 then Refused else RanAs(reply.outcome)
      ensures depth > 0 ==> Untouched()
      ensures strays == old(strays) && trapped == old(trapped) && gaveUp == old(gaveUp) && cut == old(cut)
      ensures if how.Trapped? then generation == old(generation) + 1 && openHandles == 0 && slots == Slots([], []) && short == 0 && !hit
              else generation == old(generation) && openHandles == old(openHandles) && Unmarked()
      ensures old(slots).IdleBut(r.parquet, r.handle) ==> slots.IdleBut(r.parquet, r.handle)
      ensures how.Answered? ==> slots == if old(slots).IsOpen(r.parquet, r.handle) then old(slots).Set(r.parquet, r.handle, Slot(true, true)) else old(slots)
      decreases ReplyWeight(reply), 1
    {
      hide Counted, Closed, Slotted, Kept;
      how := Guard(reply);
      if how.Answered? && slots.IsOpen(r.parquet, r.handle) {
        SetOpen(readers, generation, slots, r, true);
        slots := slots.Set(r.parquet, r.handle, Slot(true, true));
      }
    }

    /** The calls of a read: each after the first finds what the one before it kept. */
    method ReadCalls(r: Reader, replies: seq<Reply>) returns (how: Ran)
      requires Valid()
      modifies this
      ensures begun >= old(begun)
      ensures Valid() && depth == old(depth) && Kept(old(readers), readers)
      ensures depth > 0 ==> Untouched()
      ensures strays == old(strays) && trapped == old(trapped) && gaveUp == old(gaveUp) && cut == old(cut)
      ensures if how.Trapped? then generation == old(generation) + 1 && openHandles == 0 && slots == Slots([], []) && short == 0 && !hit
              else generation == old(generation) && openHandles == old(openHandles) && Unmarked()
      ensures how == if depth > 0 && replies != [] then Refused else ReadRan(replies)
      ensures old(slots).Idle() ==> slots.IdleBut(r.parquet, r.handle)
      decreases RepliesWeight(replies), 0
    {
      hide Counted, Closed, Slotted, Kept, Sound, Slots.IdleBut;
      KeptAll(readers);
      slots.IdleFirst(r.parquet, r.handle);
      how := Answered;
      var k := 0;
      while k < |replies| && how.Answered?
        invariant k <= |replies| && Valid() && depth == old(depth) && Kept(old(readers), readers) && begun >= old(begun)
        invariant depth > 0 ==> Untouched()
        invariant strays == old(strays) && trapped == old(trapped) && gaveUp == old(gaveUp) && cut == old(cut)
        invariant if how.Trapped? then generation == old(generation) + 1 && openHandles == 0 && slots == Slots([], []) && short == 0 && !hit
                  else generation == old(generation) && openHandles == old(openHandles) && Unmarked()
        invariant old(slots).Idle() ==> slots.IdleBut(r.parquet, r.handle)
        invariant if depth > 0 then how == if k == 0 then Answered else Refused
                  else if how.Answered? then ReadRan(replies) == ReadRan(replies[k..]) else how == ReadRan(replies)
        decreases |replies| - k
      {
        ghost var mid := readers;
        WeightAt(replies, k);
        how := ReadCall(r, replies[k]);
        KeptChain(old(readers), mid, readers);
        k := k + 1;
      }
    }

    /** The end of a read: its handle, where it is open, keeps nothing more. On an instance with nothing open it does nothing. */
    method ReadEnd(r: Reader, ending: Outcome)
      requires Sound(readers) && (r.generation == generation || !slots.IsOpen(r.parquet, r.handle))
      modifies this
      ensures begun >= old(begun)
      ensures Sound(readers) && depth == old(depth) && readers == old(readers)
      ensures depth > 0 ==> Untouched()
      ensures trapped == old(trapped) && gaveUp == old(gaveUp)
      ensures depth == 0 ==> strays == old(strays) + if r.generation == old(generation) then 0 else 1
      ensures r.generation != old(generation) ==>
                generation == old(generation) && openHandles == old(openHandles) && slots == old(slots) && memory == old(memory) && Unmarked()
      ensures generation == old(generation) + if depth == 0 && ending.Trap? && old(slots).IsOpen(r.parquet, r.handle) then 1 else 0
      ensures generation == old(generation) ==> openHandles == old(openHandles) && memory == old(memory) && Unmarked()
      ensures depth == 0 && old(slots).IdleBut(r.parquet, r.handle) ==> slots.Idle()
    {
      hide Counted, Closed, Slotted;
      if depth > 0 {
        return;
      }
      Stray(r);
      if slots.IsOpen(r.parquet, r.handle) {
        if ending.Trap? {
          ReplaceInstance(readers);
        } else {
          SetOpen(readers, generation, slots, r, false);
          slots := slots.Set(r.parquet, r.handle, Slot(true, false));
        }
      }
    }

    /** A read of rows: its calls, to the first that fails, and then its end, on whatever instance there is by then. */
    method Read(i: nat, replies: seq<Reply>, ending: Outcome) returns (ran: Reach)
      requires Valid() && i < |readers| && readers[i].out
      modifies this
      ensures begun >= old(begun)
      ensures Valid() && depth == old(depth) && generation >= old(generation) && Kept(old(readers), readers)
      ensures old(depth) > 0 ==> Untouched()
      ensures ran.ClosedError? <==> !old(Live(readers[i], generation))
      ensures ran.ClosedError? ==> Untouched() && readers == old(readers)
      ensures ran.Reached? ==> ran.how == if depth > 0 && replies != [] then Refused else ReadRan(replies)
      ensures ran.Reached? && !old(hit) ==> old(slots).IsOpen(old(readers[i]).parquet, old(readers[i]).handle)
      ensures strays == old(strays) + if ran.Reached? && ran.how.Trapped? then 1 else 0
      ensures ran.Reached? && ran.how.Trapped? ==>
                generation == old(generation) + 1 && openHandles == 0 && slots == Slots([], []) && short == 0 && !hit && cut == old(cut)
      ensures gaveUp == old(gaveUp) && (old(slots).Idle() ==> slots.Idle())
      decreases RepliesWeight(replies), 1
    {
      hide Counted, Closed, Slotted, Kept;
      KeptAll(readers);
      if !Live(readers[i], generation) {
        return ClosedError;
      }
      OpenThere(readers, generation, slots, i);
      var r := readers[i];
      var how := ReadCalls(r, replies);
      ReadEnd(r, ending);
      if how.Trapped? {
        trapped := trapped + 1;
      }
      return Reached(how);
    }

    /** Writing a file. */
    method Write(reply: Reply) returns (ran: Ran)
      requires Valid()
      modifies this
      ensures begun >= old(begun)
      ensures Valid() && depth == old(depth) && generation >= old(generation) && Kept(old(readers), readers)
      ensures old(depth) > 0 ==> Untouched()
      ensures ran == if depth > 0 then Refused else RanAs(reply.outcome)
      ensures strays == old(strays) && trapped == old(trapped) && gaveUp == old(gaveUp) && (old(slots).Idle() ==> slots.Idle())
      ensures ran.Trapped? ==> generation == old(generation) + 1
      ensures ran.Answered? ==>
                generation == old(generation) + if old(openHandles) == 0 && Larger(old(memory), reply.grown) > replaceAbove then 1 else 0
      ensures ran.Errored? ==> generation == old(generation)
      decreases ReplyWeight(reply), 1
    {
      hide Counted, Slotted, Closed, Kept;
      ran := Guard(reply);
      if ran.Answered? {
        MaybeReplace(readers);
      }
    }

    /** A constructor gives up: it closes the handle it has, and its reader is never seen. */
    method GiveUp(i: nat, closing: Outcome)
      requires Valid() && i < |readers| && readers[i].handle != 0 && depth == 0
      modifies this
      ensures begun >= old(begun)
      ensures Valid() && depth == 0 && generation >= old(generation) && readers == Left(old(readers), i)
      ensures gaveUp == old(gaveUp) + if readers[i].generation == old(generation) then 0 else 1
      ensures old(slots).Idle() ==> slots.Idle()
      ensures readers[i].generation != old(generation) && !closing.Trap? && old(openHandles) == 0 ==>
                generation == old(generation) && openHandles == -1 && short == old(short) + 1 && cut == old(cut)
      ensures generation == old(generation) && old(slots) == Slots([], []) ==> slots == Slots([], [])
    {
      hide Counted, Slotted, Closed;
      Older(readers, generation, openHandles + short, i);
      if readers[i].generation != generation {
        gaveUp := gaveUp + 1;
      }
      var done := CloseHandle(i, closing);
      if !done {
        LeaveStale(readers, i, generation, openHandles + short, slots);
      }
      readers := Left(readers, i);
    }

    /** A reader's constructor: open, describe, and (`aside`, for Parquet) what its own use of the read function does. */
    method Construct(a: Action) returns (made: Made, ghost nested: nat)
      requires Valid() && a.Construct?
      modifies this
      ensures begun >= old(begun)
      ensures Valid() && depth == old(depth) && generation >= old(generation) && Kept(old(readers), readers)
      ensures old(depth) > 0 ==> Untouched()
      ensures made.NotOpened? <==> depth > 0 || !a.opening.outcome.Fine?
      ensures made.Ready? ==> a.described.outcome.Fine? && !a.throws
      ensures made.GaveUp? ==> !a.described.outcome.Fine? || a.throws
      ensures made.Ready? ==> begun >= old(begun) + |a.aside|
      ensures made.Ready? ==> |old(readers)| <= made.reader < |readers|
      ensures made.Ready? ==> var r := readers[made.reader]; r.parquet == a.parquet && r.out && r.handle != 0 && r.closes == 0
      ensures made.GaveUp? ==> |old(readers)| <= made.reader < |readers| && readers[made.reader].handle == 0
      ensures made.GaveUp? && a.described.outcome.Trap? ==> made.on == readers[made.reader].generation + 1
      ensures made.GaveUp? && !a.described.outcome.Trap? && (a.described.outcome.Failed? || a.aside == []) ==> made.on == readers[made.reader].generation
      ensures gaveUp == old(gaveUp) + nested + if made.GaveUp? && made.on != readers[made.reader].generation then 1 else 0
      ensures a.aside == [] || AllTame(a.aside) ==> nested == 0
      ensures old(slots).Idle() ==> slots.Idle()
      ensures made.GaveUp? && a.described.outcome.Trap? && !a.closing.Trap? ==>
                generation == old(generation) + 1 && openHandles == -1 && short == 1 && cut == old(cut) && slots == Slots([], [])
      ensures made.Ready? && Plain(a) ==>
                && generation == old(generation) == readers[made.reader].generation && openHandles == old(openHandles) + 1
                && readers[..made.reader] == old(readers) && short == old(short) && cut == old(cut)
                && memory == Larger(Larger(old(memory), a.opening.grown), a.described.grown)
      decreases Weight(a), 0
    {
      hide Counted, Slotted, Closed, Kept, AllTame;
      nested := 0;
      var i := Open(a.parquet, a.opening);
      ghost var held := readers;
      if i >= |readers| {
        return NotOpened, 0;
      }
      var ran := Guard(a.described);
      KeptThrough(old(readers), held, readers, i);
      ghost var told := readers;
      if ran.Answered? {
        ghost var before := gaveUp;
        Run(a.aside);
        nested := gaveUp - before;
        KeptThrough(old(readers), told, readers, i);
        if !a.throws {
          OutStep(readers, i, generation, openHandles + short, slots);
          KeptOut(old(readers), readers, i);
          readers := readers[i := readers[i].(out := true)];
          return Ready(i), nested;
        }
      }
      made := GaveUp(i, generation);
      KeptLeft(old(readers), readers, i);
      GiveUp(i, a.closing);
    }

    /**
     After a constructor whose file traps as it is described, the next two readers
     opened count as one: closing one takes a large instance from the other.
     */
    method CutOff() returns (lost: nat)
      requires Valid() && depth == 0
      modifies this
      ensures Valid() && cut && lost < |readers| && readers[lost].out && readers[lost].handle != 0 && readers[lost].closes == 0
      ensures readers[lost].generation + 1 == generation
    {
      hide Counted, Slotted, Closed, Kept;
      var none := Reply([], Fine, 0);
      var trap := Action.Construct(false, none, Reply([], Trap, 0), [], false, Fine);
      var small := Action.Construct(false, none, none, [], false, Fine);
      var large := Action.Construct(false, Reply([], Fine, replaceAbove + 1), none, [], false, Fine);
      var _, _ := Construct(trap);
      var first, _ := Construct(small);
      ghost var one := readers;
      var second, _ := Construct(large);
      lost := first.reader;
      assert readers[lost] == one[lost];
      CountIs(readers, generation, openHandles + short);
      OneFewer(readers, generation, openHandles + short, second.reader);
      var _ := Close(second.reader, Fine);
    }

    /** Runs of the package. */
    method Run(actions: seq<Action>)
      requires Valid()
      modifies this
      ensures begun >= old(begun) + |actions|
      ensures Valid() && depth == old(depth) && generation >= old(generation) && Kept(old(readers), readers)
      ensures old(depth) > 0 || actions == [] ==> Untouched()
      ensures actions == [] ==> readers == old(readers)
      ensures gaveUp >= old(gaveUp) && (AllTame(actions) ==> gaveUp == old(gaveUp))
      ensures old(slots).Idle() ==> slots.Idle()
      decreases Weights(actions), 0
    {
      hide Counted, Slotted, Closed, Kept, Tame;
      KeptAll(readers);
      if actions == [] {
        return;
      }
      Step(actions[0]);
      ghost var mid := readers;
      Run(actions[1..]);
      KeptChain(old(readers), mid, readers);
    }

    /** One action; an action on a reader that no program can hold does nothing. */
    method Step(a: Action)
      requires Valid()
      modifies this
      ensures begun > old(begun)
      ensures Valid() && depth == old(depth) && generation >= old(generation) && Kept(old(readers), readers)
      ensures old(depth) > 0 ==> Untouched()
      ensures gaveUp >= old(gaveUp) && (Tame(a) ==> gaveUp == old(gaveUp))
      ensures old(slots).Idle() ==> slots.Idle()
      ensures Does(a, old(depth), old(generation), old(readers), generation, readers)
      decreases Weight(a), 1
    {
      hide Counted, Slotted, Closed, Kept, AllTame;
      KeptAll(readers);
      begun := begun + 1;
      match a
      case Construct(_, _, _, _, _, _) =>
        var _, _ := Construct(a);
      case Use(i, reply) =>
        if i < |readers| && readers[i].out {
          var _ := Use(i, reply);
        }
      case Read(i, replies, ending) =>
        if i < |readers| && readers[i].out {
          var _ := Read(i, replies, ending);
        }
      case Close(i, closing) =>
        if i < |readers| && readers[i].out {
          var _ := Close(i, closing);
        }
      case Finalize(i, closing) =>
        if i < |readers| && readers[i].out && readers[i].handle != 0 && depth == 0 {
          Finalize(i, closing);
        }
      case Write(reply) =>
        var _ := Write(reply);
    }
  }

  /** What one sees of an action that a program may take, when no call is running. */
  ghost predicate Does(a: Action, depth: nat, generation: nat, was: seq<Reader>, now: nat, readers: seq<Reader>)
  {
    match a
    case Construct(_, opening, _, _, _, _) => depth == 0 && opening.outcome.Fine? ==> |readers| > |was|
    case Use(i, reply) => depth == 0 && i < |was| && was[i].out && Live(was[i], generation) && reply.outcome.Trap? ==> now > generation
    case Read(i, replies, _) => depth == 0 && i < |was| && was[i].out && Live(was[i], generation) && ReadRan(replies).Trapped? ==> now > generation
    case Close(i, closing) => depth == 0 && i < |was| && was[i].out && !closing.Trap? ==> i < |readers| && readers[i] == Shut(was[i])
    case Finalize(i, _) => depth == 0 && i < |was| && was[i].out && was[i].handle != 0 ==> i < |readers| && readers[i] == Shut(was[i])
    case Write(reply) => depth == 0 && reply.outcome.Trap? ==> now > generation
  }

  /** `total` is the number of live readers. */
  ghost predicate Counted(readers: seq<Reader>, generation: nat, total: int)
  {
    && total == CountLive(readers, generation)
    && forall i :: 0 <= i < |readers| ==> readers[i].generation <= generation
  }

  /** Live readers have handles of their own, which are open in the module. */
  ghost predicate Slotted(readers: seq<Reader>, generation: nat, slots: Slots)
  {
    && (forall i :: 0 <= i < |readers| && Live(readers[i], generation) ==> slots.IsOpen(readers[i].parquet, readers[i].handle))
    && forall i, j :: 0 <= i < j < |readers| && Live(readers[i], generation) && Live(readers[j], generation) ==>
         readers[i].parquet != readers[j].parquet || readers[i].handle != readers[j].handle
  }

  /** `onClose` has run at most once, and only of readers that hold no handle. */
  ghost predicate Closed(readers: seq<Reader>)
  {
    forall i :: 0 <= i < |readers| ==> readers[i].closes <= 1 && (readers[i].closes == 1 ==> readers[i].handle == 0)
  }

  /** A reader closed: it holds no handle, and `onClose` has run. */
  function Shut(r: Reader): Reader {
    if r.handle == 0 then r else r.(handle := 0, closes := r.closes + 1)
  }

  /** The readers with one that holds its handle no more. */
  function Left(readers: seq<Reader>, i: nat): seq<Reader>
    requires i < |readers|
  {
    readers[i := readers[i].(handle := 0)]
  }

  /** No constructor in the action traps once its file is open, or both runs something aside and throws. */
  predicate Tame(a: Action)
    decreases a
  {
    a.Construct? ==> !a.described.outcome.Trap? && (a.throws ==> a.aside == []) && AllTame(a.aside)
  }

  predicate AllTame(actions: seq<Action>)
    decreases actions
  {
    actions == [] || (Tame(actions[0]) && AllTame(actions[1..]))
  }

  /** A constructor that nothing else happens in. */
  predicate Plain(a: Action) {
    a.Construct? && a.opening.callbacks == a.described.callbacks == a.aside == []
  }

  function Larger(a: nat, b: nat): nat {
    if a < b then b else a
  }

  function RanAs(outcome: Outcome): Ran
  {
    match outcome
    case Fine => Answered
    case Failed => Errored
    case Trap => Trapped
  }

  /** How the calls of a read end: as the first that is not answered. */
  function ReadRan(replies: seq<Reply>): Ran {
    if replies == [] then Answered else if replies[0].outcome.Fine? then ReadRan(replies[1..]) else RanAs(replies[0].outcome)
  }

  /** What other calls leave of readers: those being constructed as they were, and others at most closed. */
  ghost predicate Kept(was: seq<Reader>, now: seq<Reader>)
  {
    && |was| <= |now|
    && forall i :: 0 <= i < |was| ==>
         if was[i].out then
           now[i].out && now[i].generation == was[i].generation && (now[i].handle == was[i].handle || now[i].handle == 0)
           && now[i].closes >= was[i].closes && now[i].parquet == was[i].parquet
         else now[i] == was[i]
  }

  lemma KeptAll(readers: seq<Reader>)
    ensures Kept(readers, readers)
  {}

  lemma KeptChain(was: seq<Reader>, mid: seq<Reader>, now: seq<Reader>)
    requires Kept(was, mid) && Kept(mid, now)
    ensures Kept(was, now)
  {}

  lemma KeptPush(was: seq<Reader>, readers: seq<Reader>, r: Reader)
    requires Kept(was, readers)
    ensures |was| <= |readers| && Kept(was, readers + [r])
  {}

  lemma KeptShut(readers: seq<Reader>, i: nat)
    requires i < |readers| && readers[i].out
    ensures Kept(readers, readers[i := Shut(readers[i])])
  {}

  /** A reader under construction, made after `was`, is as it was. */
  lemma KeptThrough(was: seq<Reader>, mid: seq<Reader>, now: seq<Reader>, i: nat)
    requires Kept(was, mid) && Kept(mid, now) && |was| <= i < |mid| && !mid[i].out
    ensures Kept(was, now) && i < |now| && now[i] == mid[i]
  {}

  lemma KeptOut(was: seq<Reader>, now: seq<Reader>, i: nat)
    requires Kept(was, now) && |was| <= i < |now|
    ensures Kept(was, now[i := now[i].(out := true)])
  {}

  lemma KeptLeft(was: seq<Reader>, now: seq<Reader>, i: nat)
    requires Kept(was, now) && |was| <= i < |now|
    ensures Kept(was, Left(now, i))
  {}

  lemma OpenStep(readers: seq<Reader>, parquet: bool, generation: nat, total: int, slots: Slots)
    requires Counted(readers, generation, total) && Closed(readers)
    ensures var r := Reader(parquet, |slots.Of(parquet)| + 1, generation, false, 0);
            && Counted(readers + [r], generation, total + 1) && Closed(readers + [r])
            && (Slotted(readers, generation, slots) ==>
                  Slotted(readers + [r], generation, slots.With(parquet, slots.Of(parquet) + [Slot(true, false)])))
  {
    var r := Reader(parquet, |slots.Of(parquet)| + 1, generation, false, 0);
    OpenCounted(readers, generation, total, r);
    if Slotted(readers, generation, slots) {
      OpenSlotted(readers, parquet, generation, slots);
    }
  }

  lemma OpenSlotted(readers: seq<Reader>, parquet: bool, generation: nat, slots: Slots)
    requires Slotted(readers, generation, slots)
    ensures Slotted(readers + [Reader(parquet, |slots.Of(parquet)| + 1, generation, false, 0)], generation,
                    slots.With(parquet, slots.Of(parquet) + [Slot(true, false)]))
  {
    var r := Reader(parquet, |slots.Of(parquet)| + 1, generation, false, 0);
    var now, more := readers + [r], slots.With(parquet, slots.Of(parquet) + [Slot(true, false)]);
    forall i | 0 <= i < |now| && Live(now[i], generation)
      ensures more.IsOpen(now[i].parquet, now[i].handle)
    {
      if i < |readers| {
        assert now[i] == readers[i] && slots.IsOpen(readers[i].parquet, readers[i].handle);
      }
    }
    forall i, j | 0 <= i < j < |now| && Live(now[i], generation) && Live(now[j], generation)
      ensures now[i].parquet != now[j].parquet || now[i].handle != now[j].handle
    {
      assert now[i] == readers[i] && slots.IsOpen(readers[i].parquet, readers[i].handle);
    }
  }

  lemma OpenCounted(readers: seq<Reader>, generation: nat, total: int, r: Reader)
    requires Counted(readers, generation, total) && Live(r, generation)
    ensures Counted(readers + [r], generation, total + 1)
  {
    CountPush(readers, r, generation);
  }

  lemma CountIs(readers: seq<Reader>, generation: nat, total: int)
    requires Counted(readers, generation, total)
    ensures total == CountLive(readers, generation)
  {}

  lemma Older(readers: seq<Reader>, generation: nat, total: int, i: nat)
    requires Counted(readers, generation, total) && i < |readers|
    ensures readers[i].generation <= generation
  {}

  lemma OpenThere(readers: seq<Reader>, generation: nat, slots: Slots, i: nat)
    requires i < |readers| && Live(readers[i], generation)
    ensures Slotted(readers, generation, slots) ==> slots.IsOpen(readers[i].parquet, readers[i].handle)
  {}

  /** What a read keeps in its handle's place leaves every handle as open as it was. */
  lemma SetOpen(readers: seq<Reader>, generation: nat, slots: Slots, r: Reader, keeps: bool)
    requires slots.IsOpen(r.parquet, r.handle)
    ensures Slotted(readers, generation, slots) ==> Slotted(readers, generation, slots.Set(r.parquet, r.handle, Slot(true, keeps)))
  {
    var now := slots.Set(r.parquet, r.handle, Slot(true, keeps));
    if Slotted(readers, generation, slots) {
      forall i | 0 <= i < |readers| && Live(readers[i], generation)
        ensures now.IsOpen(readers[i].parquet, readers[i].handle)
      {
        assert slots.IsOpen(readers[i].parquet, readers[i].handle);
      }
    }
  }

  lemma {:induction false} WeightAt(replies: seq<Reply>, k: nat)
    requires k < |replies|
    ensures ReplyWeight(replies[k]) < RepliesWeight(replies)
  {
    if k > 0 {
      WeightAt(replies[1..], k - 1);
    }
  }

  /** Without one live reader, the others are live. */
  lemma OneFewer(readers: seq<Reader>, generation: nat, total: int, i: nat)
    requires i < |readers| && Live(readers[i], generation) && total == CountLive(readers, generation)
    ensures CountLive(Left(readers, i), generation) == total - 1
  {
    CountChange(readers, i, readers[i].(handle := 0), generation);
  }

  /** Closing a live reader's handle leaves the others' as they were. */
  lemma CloseStep(readers: seq<Reader>, i: nat, generation: nat, total: int, slots: Slots)
    requires Counted(readers, generation, total) && Closed(readers) && i < |readers| && Live(readers[i], generation)
    ensures Counted(Left(readers, i), generation, total - 1) && Closed(Left(readers, i))
    ensures Slotted(readers, generation, slots) ==>
              && slots.IsOpen(readers[i].parquet, readers[i].handle)
              && Slotted(Left(readers, i), generation, slots.Set(readers[i].parquet, readers[i].handle, Slot(false, false)))
  {
    CountChange(readers, i, readers[i].(handle := 0), generation);
    if Slotted(readers, generation, slots) {
      CloseSlotted(readers, i, generation, slots);
    }
  }

  lemma CloseSlotted(readers: seq<Reader>, i: nat, generation: nat, slots: Slots)
    requires Slotted(readers, generation, slots) && i < |readers| && Live(readers[i], generation)
    ensures Slotted(Left(readers, i), generation, slots.Set(readers[i].parquet, readers[i].handle, Slot(false, false)))
  {
    var left, now := Left(readers, i), slots.Set(readers[i].parquet, readers[i].handle, Slot(false, false));
    forall j | 0 <= j < |left| && Live(left[j], generation)
      ensures now.IsOpen(left[j].parquet, left[j].handle)
    {
      assert j != i && left[j] == readers[j] && slots.IsOpen(readers[j].parquet, readers[j].handle);
      assert readers[i].parquet != readers[j].parquet || readers[i].handle != readers[j].handle;
    }
  }

  /** A reader of an instance that is gone may hold its handle or not; closing it here does nothing to a handle that is not open. */
  lemma LeaveStale(readers: seq<Reader>, i: nat, generation: nat, total: int, slots: Slots)
    requires i < |readers| && readers[i].generation != generation
    ensures Counted(readers, generation, total) && Closed(readers) ==>
              Counted(Left(readers, i), generation, total) && Closed(Left(readers, i))
    ensures Slotted(readers, generation, slots) ==> Slotted(Left(readers, i), generation, slots)
    ensures Slotted(readers, generation, slots) && !slots.IsOpen(readers[i].parquet, readers[i].handle) ==>
              Slotted(Left(readers, i), generation, slots.Set(readers[i].parquet, readers[i].handle, Slot(false, false)))
  {
    CountChange(readers, i, readers[i].(handle := 0), generation);
    if Slotted(readers, generation, slots) && !slots.IsOpen(readers[i].parquet, readers[i].handle) {
      var left, now := Left(readers, i), slots.Set(readers[i].parquet, readers[i].handle, Slot(false, false));
      forall j | 0 <= j < |left| && Live(left[j], generation)
        ensures now.IsOpen(left[j].parquet, left[j].handle)
      {
        assert left[j] == readers[j] && slots.IsOpen(readers[j].parquet, readers[j].handle);
      }
    }
  }

  /** `onClose` of a reader that holds no handle, and whose `onClose` had not run. */
  lemma ShutStep(readers: seq<Reader>, i: nat, generation: nat, total: int, slots: Slots)
    requires i < |readers| && readers[i].handle != 0 && readers[i].closes == 0
    requires Counted(Left(readers, i), generation, total) && Closed(Left(readers, i))
    ensures var now := readers[i := Shut(readers[i])];
            Counted(now, generation, total) && Closed(now) && (Slotted(Left(readers, i), generation, slots) ==> Slotted(now, generation, slots))
  {
    CountChange(Left(readers, i), i, Shut(readers[i]), generation);
    assert Left(readers, i)[i := Shut(readers[i])] == readers[i := Shut(readers[i])];
  }

  /** A constructor returns its reader. */
  lemma OutStep(readers: seq<Reader>, i: nat, generation: nat, total: int, slots: Slots)
    requires i < |readers| && Counted(readers, generation, total) && Closed(readers)
    ensures var now := readers[i := readers[i].(out := true)];
            Counted(now, generation, total) && Closed(now) && (Slotted(readers, generation, slots) ==> Slotted(now, generation, slots))
  {
    CountChange(readers, i, readers[i].(out := true), generation);
  }

  lemma NoneLive(readers: seq<Reader>, generation: nat, total: int)
    ensures Counted(readers, generation, total) ==>
              CountLive(readers, generation + 1) == 0 && forall i :: 0 <= i < |readers| ==> !Live(readers[i], generation + 1)
  {
    if Counted(readers, generation, total) {
      CountNone(readers, generation + 1);
    }
  }
}
