/** The scratch arena with its chunk objects and data arrays, as the source updates them. */
module ArenaRuntime {
  import opened Text
  import opened Arena
  import opened ArenaRuns

  class ChunkObject {
    const data: array<Byte>
    var used: nat

    /** `allocate_chunk`: memory as `malloc` returns it. */
    constructor (capacity: nat)
      ensures fresh(data) && data.Length == capacity && used == 0
    {
      data := new Byte[capacity];
      used := 0;
    }
  }

  /** `memset(data + from, 0, n)` */
  method Clear(data: array<Byte>, from: nat, n: nat)
    requires from + n <= data.Length
    modifies data
    ensures data[..] == old(data[..from]) + Zeros(n) + old(data[from + n..])
  {
    var i := 0;
    while i < n
      invariant i <= n
      invariant forall j :: 0 <= j < data.Length ==> data[j] == if from <= j < from + i then 0 else old(data[j])
    {
      data[from + i] := 0;
      i := i + 1;
    }
  }

  class ScratchArena {
    var chunks: seq<ChunkObject>   // the `next` chain
    var current: Option<nat>

    ghost predicate Shape()
      reads this
    {
      forall i, j :: 0 <= i < j < |chunks| ==> chunks[i] != chunks[j] && chunks[i].data != chunks[j].data
    }

    ghost function Arrays(): (s: set<array<Byte>>)
      reads this
    {
      set c | c in chunks :: c.data
    }

    ghost function State(): (a: ArenaState)
      reads this, chunks, Arrays()
    {
      ArenaState(seq(|chunks|, i requires 0 <= i < |chunks| reads this, chunks, Arrays() =>
                   Chunk(chunks[i].used, chunks[i].data[..])), current)
    }

    ghost predicate Valid()
      reads this, chunks, Arrays()
    {
      Shape() && ArenaInv(State())
    }

    constructor ()
      ensures chunks == [] && State() == ArenaState([], None) && Valid()
    {
      chunks, current := [], None;
    }

    /** `arksh_scratch_arena_reset` */
    method Reset()
      requires Valid()
      modifies this, chunks
      ensures chunks == old(chunks) && Valid()
      ensures State() == Rollback(old(State()), None, 0)
    {
      EmptyFrom(0);
      current := if chunks == [] then None else Some(0);
      assert State() == Rollback(old(State()), None, 0);
      RollbackInv(old(State()), None, 0);
    }

    /** The loops that set `used` to zero along the chain. */
    method EmptyFrom(from: nat)
      requires Shape() && from <= |chunks|
      modifies chunks
      ensures State() == old(State()).(chunks := Emptied(old(State()).chunks, from))
    {
      var i := from;
      while i < |chunks|
        invariant from <= i <= |chunks|
        invariant forall j :: 0 <= j < |chunks| ==> chunks[j].used == if from <= j < i then 0 else old(chunks[j].used)
      {
        chunks[i].used := 0;
        i := i + 1;
      }
    }

    /** The rollback of `arksh_scratch_frame_end` to a saved chunk and fill level. */
    method RollbackTo(chunk: Option<nat>, used: nat)
      requires Valid() && (chunk.Some? ==> chunk.value < |chunks| && used <= chunks[chunk.value].data.Length)
      modifies this, chunks
      ensures chunks == old(chunks) && Valid()
      ensures State() == Rollback(old(State()), chunk, used)
    {
      match chunk
      case None => Reset();
      case Some(c) =>
        EmptyFrom(c + 1);
        chunks[c].used := used;
        current := Some(c);
        assert State().chunks == Rollback(old(State()), chunk, used).chunks;
        RollbackInv(old(State()), chunk, used);
    }

    /** Takes `bytes` at the next aligned offset of chunk `i` and clears them. */
    method PlaceAt(i: nat, bytes: nat) returns (b: Block)
      requires Shape() && i < |chunks| && AlignUp(chunks[i].used) >= 0 && Fits(State().chunks[i], bytes)
      modifies this, chunks[i], chunks[i].data
      ensures chunks == old(chunks)
      ensures State() == ArenaState(old(State()).chunks[i := Place(old(State()).chunks[i], bytes)], Some(i))
      ensures b == Block(i, AlignUp(old(chunks[i].used)), bytes)
    {
      var offset := AlignUp(chunks[i].used);
      Clear(chunks[i].data, offset, bytes);
      chunks[i].used := offset + bytes;
      current := Some(i);
      assert State().chunks == old(State()).chunks[i := Place(old(State()).chunks[i], bytes)];
      return Block(i, offset, bytes);
    }

    /** Appends a chunk of raw memory and makes it current. */
    method AddChunk(capacity: nat) returns (ghost memory: seq<Byte>)
      requires Shape()
      modifies this
      ensures Shape() && |memory| == capacity
      ensures |chunks| == |old(chunks)| + 1 && old(chunks) <= chunks && fresh(chunks[|old(chunks)|])
      ensures fresh(chunks[|old(chunks)|].data)
      ensures State() == ArenaState(old(State()).chunks + [Chunk(0, memory)], Some(|old(chunks)|))
    {
      var c := new ChunkObject(capacity);
      memory := c.data[..];
      chunks := chunks + [c];
      current := Some(|chunks| - 1);
      assert State().chunks == old(State()).chunks + [Chunk(0, memory)];
    }

    /** A new chunk for this request, and its first bytes. */
    method PlaceInNew(bytes: nat) returns (b: Block, ghost memory: seq<Byte>)
      requires Shape()
      modifies this
      ensures Shape() && |memory| == ChunkCapacity(bytes)
      ensures State() ==
              ArenaState(old(State()).chunks + [Chunk(bytes, Zeros(bytes) + memory[bytes..])], Some(|old(chunks)|))
      ensures b == Block(|old(chunks)|, 0, bytes)
      ensures |chunks| == |old(chunks)| + 1 && old(chunks) <= chunks && fresh(chunks[|old(chunks)|])
      ensures fresh(chunks[|old(chunks)|].data)
    {
      var n := |chunks|;
      ghost var before := State();
      memory := AddChunk(ChunkCapacity(bytes));
      FirstFits(memory, bytes);
      assert State().chunks[n] == Chunk(0, memory);
      b := PlaceAt(n, bytes);
      assert State().chunks == before.chunks + [Place(Chunk(0, memory), bytes)];
    }

    /** The loop over the chain: the first chunk from `start` on with room, or the last one. */
    method FindRoom(start: nat, bytes: nat) returns (i: nat)
      requires Valid() && current == Some(start)
      modifies this`current, chunks
      ensures chunks == old(chunks) && start <= i < |chunks| && State() == old(State()).(current := Some(i))
      ensures forall j :: start <= j < i ==> !Fits(State().chunks[j], bytes)
      ensures Fits(State().chunks[i], bytes) || i + 1 == |chunks|
    {
      i := start;
      while !Fits(Chunk(chunks[i].used, chunks[i].data[..]), bytes) && i + 1 < |chunks|
        invariant start <= i < |chunks| && State() == old(State()).(current := Some(i))
        invariant forall j :: start <= j < i ==> !Fits(State().chunks[j], bytes)
        decreases |chunks| - i
      {
        assert State().chunks[i] == Chunk(chunks[i].used, chunks[i].data[..]);
        i := i + 1;
        EmptyChunk(i);
      }
      assert State().chunks[i] == Chunk(chunks[i].used, chunks[i].data[..]);
    }

    /** The walk from the current chunk on: a chunk with room, or a new one behind the last. */
    method WalkChunks(
        start: nat, bytes: nat, available: bool) returns (r: Option<Block>, ghost memory: Option<seq<Byte>>)
      requires Valid() && current == Some(start) && bytes > 0 && (available ==> ChunkCapacity(bytes) <= OBJECT_MAX)
      modifies this, chunks, Arrays()
      ensures Valid()
      ensures memory.Some? ==> |memory.value| == ChunkCapacity(bytes) <= OBJECT_MAX
      ensures (State(), r) == Walk(old(State()), start, bytes, memory)
      ensures old(chunks) <= chunks && |chunks| <= |old(chunks)| + 1
      ensures |chunks| > |old(chunks)| ==> fresh(chunks[|old(chunks)|]) && fresh(chunks[|old(chunks)|].data)
    {
      ghost var s := State();
      var i := FindRoom(start, bytes);
      memory := None;
      AlignUpRounds(chunks[i].used);
      if Fits(Chunk(chunks[i].used, chunks[i].data[..]), bytes) {
        WalkReaches(s, start, i, bytes, None);
        var b := PlaceAt(i, bytes);
        r := Some(b);
        assert chunks == old(chunks);
      } else if !available {
        WalkReaches(s, start, i, bytes, None);
        r := None;
      } else {
        var b, m := PlaceInNew(bytes);
        r, memory := Some(b), Some(m);
        WalkReaches(s, start, i, bytes, memory);
        assert |chunks| == |old(chunks)| + 1;
      }
      assert (State(), r) == Walk(s, start, bytes, memory);
      WalkKeeps(s, start, bytes, memory);
    }

    /** `chunk->used = 0; arena->current = chunk` on the way. */
    method EmptyChunk(i: nat)
      requires Shape() && i < |chunks| && State().chunks[i].used == 0
      modifies this`current, chunks[i]
      ensures State() == old(State()).(current := Some(i))
    {
      chunks[i].used := 0;
      current := Some(i);
      assert State().chunks == old(State()).chunks;
    }

    /** `arksh_scratch_alloc_zero`; `available` says whether `malloc` succeeds if it is called. */
    method AllocZero(
        count: nat, itemSize: nat, available: bool) returns (r: Option<Block>, ghost memory: Option<seq<Byte>>)
      requires Valid()
      requires var n := Bytes(count, itemSize);
               n.Some? && available ==> Unwrapped(n.value) && ChunkCapacity(n.value) <= OBJECT_MAX
      modifies this, chunks, Arrays()
      ensures Valid()
      ensures Bytes(count, itemSize) == None ==> r == None && State() == old(State())
      ensures Bytes(count, itemSize).Some? ==>
        (memory.Some? ==> |memory.value| == ChunkCapacity(Bytes(count, itemSize).value) <= OBJECT_MAX) &&
        (State(), r) == Alloc(old(State()), Bytes(count, itemSize).value, memory)
      ensures old(chunks) <= chunks && |chunks| <= |old(chunks)| + 1
      ensures |chunks| > |old(chunks)| ==> fresh(chunks[|old(chunks)|]) && fresh(chunks[|old(chunks)|].data)
    {
      memory := None;
      if Bytes(count, itemSize) == None { return None, None; }
      var bytes := count * itemSize;
      if current == None {
        if !available { return None, None; }
        ghost var before := State().chunks;
        var b, m := PlaceInNew(bytes);
        assert before == [] && before + [State().chunks[0]] == [State().chunks[0]];
        return Some(b), Some(m);
      }
      r, memory := WalkChunks(current.value, bytes, available);
    }
  }

  /** A saved frame (`ArkshScratchFrame`); an arena stands for its shell. */
  class FrameObject {
    var shell: ScratchArena?
    var previous: ScratchArena?
    var chunk: Option<nat>
    var used: nat
    var active: bool
  }

  /** The global that names the active shell. */
  class ActiveScratch {
    var shell: ScratchArena?

    /** `arksh_scratch_frame_begin` */
    method FrameBegin(target: ScratchArena?, frame: FrameObject)
      requires target != null ==> target.Valid()
      modifies this, frame
      ensures shell == target && frame.active
      ensures frame.shell == target && frame.previous == old(shell)
      ensures target == null ==> frame.chunk == None && frame.used == 0
      ensures target != null ==>
        frame.chunk == target.current &&
        frame.used == if target.current.Some? then target.State().chunks[target.current.value].used else 0
      ensures target != null ==> Rollback(target.State(), frame.chunk, frame.used) == target.State()
    {
      if target != null { MarkIsNow(target.State()); }
      frame.shell, frame.previous := target, shell;
      frame.chunk, frame.used := None, 0;
      if target != null {
        frame.chunk := target.current;
        frame.used := if target.current.Some? then target.chunks[target.current.value].used else 0;
      }
      shell := target;
      frame.active := true;
      if target != null { assert target.State() == old(target.State()); }
    }

    /** `arksh_scratch_frame_end`; a frame that is not active is left alone. */
    method FrameEnd(frame: FrameObject)
      requires frame.active && frame.shell != null ==>
        frame.shell.Valid() &&
        (frame.chunk.Some? ==>
          frame.chunk.value < |frame.shell.chunks| && frame.used <= frame.shell.chunks[frame.chunk.value].data.Length)
      modifies this, frame, frame.shell, if frame.shell == null then {} else set c | c in frame.shell.chunks
      ensures !frame.active
      ensures shell == if old(frame.active) then old(frame.previous) else old(shell)
      ensures old(frame.active) && old(frame.shell) != null ==>
        old(frame.shell).Valid() &&
        old(frame.shell).State() == Rollback(old(frame.shell.State()), old(frame.chunk), old(frame.used))
      ensures !old(frame.active) && old(frame.shell) != null ==>
        old(frame.shell).State() == old(frame.shell.State())
    {
      if !frame.active { return; }
      shell := frame.previous;
      frame.active := false;
      if frame.shell != null {
        assert frame.shell.State() == old(frame.shell.State());
        frame.shell.RollbackTo(frame.chunk, frame.used);
      }
    }
  }

  /** Chunks without room are passed over. */
  lemma {:induction false} WalkReaches(a: ArenaState, start: nat, i: nat, bytes: nat, memory: Option<seq<Byte>>)
    requires ArenaInv(a) && a.current == Some(start) && start <= i < |a.chunks|
    requires forall j :: start <= j < i ==> !Fits(a.chunks[j], bytes)
    requires memory.Some? ==> |memory.value| == ChunkCapacity(bytes)
    ensures Walk(a, start, bytes, memory) == Walk(a.(current := Some(i)), i, bytes, memory)
    decreases i - start
  {
    if start < i {
      assert a.chunks[start + 1 := a.chunks[start + 1].(used := 0)] == a.chunks;
      WalkReaches(a.(current := Some(start + 1)), start + 1, i, bytes, memory);
    }
  }

  /** The mark of a frame that begins now is the state that the arena is in. */
  lemma MarkIsNow(a: ArenaState)
    requires ArenaInv(a)
    ensures Rollback(a, a.current, if a.current.Some? then a.chunks[a.current.value].used else 0) == a
  {
    if a.current.Some? {
      var b := Rollback(a, a.current, a.chunks[a.current.value].used);
      assert forall i :: 0 <= i < |a.chunks| ==> b.chunks[i] == a.chunks[i];
    }
  }

  lemma RollbackInv(a: ArenaState, chunk: Option<nat>, used: nat)
    requires ArenaInv(a) && (chunk.Some? ==> chunk.value < |a.chunks| && used <= a.chunks[chunk.value].Capacity())
    ensures ArenaInv(Rollback(a, chunk, used))
  {
  }

  /** A new chunk always has room for the request it was made for. */
  lemma FirstFits(m: seq<Byte>, bytes: nat)
    requires |m| == ChunkCapacity(bytes)
    ensures AlignUp(0) == 0 && Fits(Chunk(0, m), bytes)
    ensures Place(Chunk(0, m), bytes) == Chunk(bytes, Zeros(bytes) + m[bytes..])
  {
    AlignUpRounds(0);
    assert m[..0] + Zeros(bytes) == Zeros(bytes);
  }
}
