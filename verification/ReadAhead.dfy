/** `python/src/parquet.rs`, `crates/dta-ffi/src/parquet_native.rs`, `js/src/node.ts`: the block read ahead of a file. */
module ReadAhead {
  import opened Wrappers
  import opened Bits

  const BLOCK_BYTES: nat := 0x10_0000

  /** A thread's block: which file's it is (0 is none's), where it starts, and its bytes. */
  datatype Block = Block(id: nat, start: nat, bytes: seq<byte>)

  /** A read, or the end of a file, on some thread. */
  datatype Action = Read(thread: nat, id: nat, offset: nat, length: nat) | Drop(thread: nat, id: nat)

  /** A read this short, inside the file, goes through the block. */
  predicate Small(length: nat, offset: nat, size: nat): (small: bool)
    ensures small <==> length < 262_144 && offset + length <= size
  {
    length < BLOCK_BYTES / 4 && offset + length <= size
  }

  /** The block has all of the range. */
  predicate Serves(b: Block, id: nat, offset: nat, length: nat)
  {
    b.id == id && b.start <= offset && offset + length <= b.start + |b.bytes|
  }

  /** The block's bytes are those of its file, where the file has any. */
  ghost predicate Right(b: Block, files: map<nat, seq<byte>>)
  {
    b.id != 0 ==>
      && b.id in files
      && forall i :: 0 <= i < |b.bytes| && b.start + i < |files[b.id]| ==> b.bytes[i] == files[b.id][b.start + i]
  }

  /** From a right block, what is served is the file's. */
  lemma ServedRight(b: Block, files: map<nat, seq<byte>>, id: nat, offset: nat, length: nat)
    requires Right(b, files) && id != 0 && id in files && offset + length <= |files[id]| && Serves(b, id, offset, length)
    ensures b.bytes[offset - b.start..offset - b.start + length] == files[id][offset..offset + length]
  {
    var got, want := b.bytes[offset - b.start..offset - b.start + length], files[id][offset..offset + length];
    assert forall i :: 0 <= i < length ==> got[i] == want[i];
  }

  /** From a block that is not, some read of one byte is served wrong, with no error. */
  lemma ServedWrong(b: Block, files: map<nat, seq<byte>>) returns (offset: nat)
    requires b.id in files && !Right(b, files)
    ensures Small(1, offset, |files[b.id]|) && Serves(b, b.id, offset, 1)
    ensures b.bytes[offset - b.start..offset - b.start + 1] != files[b.id][offset..offset + 1]
  {
    var i :| 0 <= i < |b.bytes| && b.start + i < |files[b.id]| && b.bytes[i] != files[b.id][b.start + i];
    offset := b.start + i;
    assert b.bytes[i..i + 1][0] == b.bytes[i] && files[b.id][offset..offset + 1][0] == files[b.id][offset];
  }

  /** Whatever a failed fill of `n` bytes leaves, the block stays right. */
  ghost predicate Harmless(b: Block, files: map<nat, seq<byte>>, n: nat)
  {
    forall junk: seq<byte> :: |junk| == n ==> Right(b.(bytes := junk), files)
  }

  /** A failed fill is harmless, whatever it leaves, exactly when there was no block, or no byte of one to overwrite. */
  lemma HarmlessExactly(b: Block, files: map<nat, seq<byte>>, n: nat)
    requires b.id != 0 ==> b.id in files
    ensures Harmless(b, files, n) <==> b.id == 0 || n == 0 || b.start >= |files[b.id]|
  {
    if b.id != 0 && n > 0 && b.start < |files[b.id]| {
      var wrong: byte := if files[b.id][b.start] == 0 then 1 else 0;
      var junk := seq(n, _ => wrong);
      assert junk[0] != files[b.id][b.start + 0];
      assert !Right(b.(bytes := junk), files);
    }
  }

  class Files {
    /** A block for each thread. */
    var blocks: seq<Block>
    /** The bytes of every file opened. */
    var files: map<nat, seq<byte>>
    var nextId: nat

    constructor (threads: nat)
      ensures Valid() && AllRight() && |blocks| == threads && files == map[]
    {
      blocks, files, nextId := seq(threads, _ => Block(0, 0, [])), map[], 1;
    }

    ghost predicate Valid()
      reads this
    {
      nextId > 0 && forall id :: id in files ==> 0 < id < nextId
    }

    ghost predicate AllRight()
      reads this
    {
      forall t :: 0 <= t < |blocks| ==> Right(blocks[t], files)
    }

    method Open(content: seq<byte>) returns (id: nat)
      requires Valid() && AllRight()
      modifies this`files, this`nextId
      ensures Valid() && AllRight() && id !in old(files) && files == old(files)[id := content]
    {
      id := nextId;
      nextId := nextId + 1;
      files := files[id := content];
    }

    /** Read into a buffer of `n` bytes: the file's bytes, or an error and anything. */
    method Fill(id: nat, offset: nat, n: nat, works: bool) returns (ok: bool, bytes: seq<byte>)
      requires id in files
      ensures |bytes| == n && (ok ==> offset + n <= |files[id]| && bytes == files[id][offset..offset + n])
      ensures works && offset + n <= |files[id]| ==> ok
    {
      var right := *;
      if (works || right) && offset + n <= |files[id]| {
        return true, files[id][offset..offset + n];
      }
      var junk: seq<byte> := *;
      return false, if |junk| == n then junk else seq(n, _ => 0);
    }

    /** Read through the thread's block. `spoiled` when filling the block failed, which leaves it as the last clauses say. */
    method ReadWith(t: nat, id: nat, offset: nat, length: nat, works: bool) returns (r: Option<seq<byte>>, spoiled: bool)
      requires Valid() && AllRight() && t < |blocks| && id in files
      modifies this`blocks
      ensures Valid() && |blocks| == |old(blocks)|
      ensures r != None ==> offset + length <= |files[id]| && r.value == files[id][offset..offset + length]
      ensures works && offset + length <= |files[id]| ==> r != None && !spoiled
      ensures !spoiled ==> AllRight() && blocks == if r == None then old(blocks) else AfterRead(old(blocks), files, t, id, offset, length)
      ensures blocks == old(blocks)[t := blocks[t]]
      ensures r != None && Small(length, offset, |files[id]|) ==> Serves(blocks[t], id, offset, length)
      ensures spoiled ==> r == None && Small(length, offset, |files[id]|)
      ensures spoiled ==> |blocks[t].bytes| == FillSize(offset, |files[id]|)
      ensures spoiled ==> blocks == old(blocks)[t := old(blocks)[t].(bytes := blocks[t].bytes)]
    {
      if !Small(length, offset, |files[id]|) {
        var ok, bytes := Fill(id, offset, length, works);
        return if ok then Some(bytes) else None, false;
      }
      if !Serves(blocks[t], id, offset, length) {
        var ok, bytes := Fill(id, offset, FillSize(offset, |files[id]|), works);
        if !ok {
          blocks := blocks[t := blocks[t].(bytes := bytes)];
          return None, true;
        }
        blocks := blocks[t := Block(id, offset, bytes)];
      }
      ServedRight(blocks[t], files, id, offset, length);
      var at := offset - blocks[t].start;
      return Some(blocks[t].bytes[at..at + length]), false;
    }

    /** A file is closed on a thread: its block there, if it has one, is let go. */
    method Close(t: nat, id: nat)
      requires Valid() && AllRight() && t < |blocks|
      modifies this`blocks
      ensures Valid() && AllRight()
      ensures blocks == if old(blocks[t].id) == id then old(blocks)[t := Block(0, 0, [])] else old(blocks)
    {
      if blocks[t].id == id {
        blocks := blocks[t := Block(0, 0, [])];
      }
    }

    /** With every fill succeeding, any reads of any files on any threads, and closes among them, give what direct reads would. */
    method Run(actions: seq<Action>) returns (results: seq<Option<seq<byte>>>)
      requires Valid() && AllRight()
      requires forall i :: 0 <= i < |actions| ==> actions[i].thread < |blocks| && actions[i].id in files
      modifies this`blocks
      ensures Valid() && AllRight() && |results| == |actions|
      ensures forall i :: 0 <= i < |actions| ==> results[i] == Direct(actions[i], files)
      ensures blocks == AfterAll(old(blocks), files, actions)
    {
      results := [];
      assert actions[..0] == [];
      var i := 0;
      while i < |actions|
        invariant i <= |actions| && |results| == i && Valid() && AllRight() && |blocks| == |old(blocks)|
        invariant forall k :: 0 <= k < i ==> results[k] == Direct(actions[k], files)
        invariant blocks == AfterAll(old(blocks), files, actions[..i])
      {
        assert actions[..i + 1][..i] == actions[..i];
        match actions[i] {
          case Read(t, id, offset, length) =>
            var r, _ := ReadWith(t, id, offset, length, true);
            results := results + [r];
          case Drop(t, id) =>
            Close(t, id);
            results := results + [None];
        }
        i := i + 1;
      }
      assert actions[..i] == actions;
    }
  }

  /** The threads' blocks after a read that the file answers. */
  function AfterRead(blocks: seq<Block>, files: map<nat, seq<byte>>, t: nat, id: nat, offset: nat, length: nat): (now: seq<Block>)
    requires t < |blocks| && id in files && offset + length <= |files[id]|
    ensures |now| == |blocks|
  {
    if !Small(length, offset, |files[id]|) || Serves(blocks[t], id, offset, length) then blocks
    else blocks[t := Block(id, offset, files[id][offset..offset + FillSize(offset, |files[id]|)])]
  }

  /** The threads' blocks after actions whose reads all end as direct ones. */
  function AfterAll(blocks: seq<Block>, files: map<nat, seq<byte>>, actions: seq<Action>): (now: seq<Block>)
    requires forall i :: 0 <= i < |actions| ==> actions[i].thread < |blocks| && actions[i].id in files
    ensures |now| == |blocks|
  {
    if actions == [] then blocks else
    var was := AfterAll(blocks, files, actions[..|actions| - 1]);
    match actions[|actions| - 1]
    case Read(t, id, offset, length) => if offset + length <= |files[id]| then AfterRead(was, files, t, id, offset, length) else was
    case Drop(t, id) => if was[t].id == id then was[t := Block(0, 0, [])] else was
  }

  /** How much is read ahead. */
  function FillSize(offset: nat, size: nat): (n: nat)
    requires offset <= size
    ensures n <= 1_048_576 && offset + n <= size && (n == 1_048_576 || offset + n == size)
  {
    if BLOCK_BYTES < size - offset then BLOCK_BYTES else size - offset
  }

  /** What a read straight from the file gives. */
  function Direct(a: Action, files: map<nat, seq<byte>>): Option<seq<byte>>
    requires a.id in files
  {
    match a
    case Read(_, id, offset, length) =>
      if offset + length <= |files[id]| then Some(files[id][offset..offset + length]) else None
    case Drop(_, _) => None
  }
}
