/** Where the arena puts a block: in the first chunk with room, counted in bytes, or in a new one behind them. */
module ArenaPlacement {
  import opened Text
  import opened Arena

  /** The first multiple of 32 that is not below what is in use. */
  predicate StartsAt(c: Chunk, offset: nat) { offset % 32 == 0 && c.used <= offset < c.used + 32 }

  /** Room for `bytes` from the first multiple of 32 on. */
  ghost predicate HasRoom(c: Chunk, bytes: nat) {
    exists offset: nat :: StartsAt(c, offset) && offset + bytes <= |c.data|
  }

  /** `d` is `c` with `bytes` zeros at `offset`, in use up to their end. */
  predicate Taken(c: Chunk, offset: nat, bytes: nat, d: Chunk) {
    offset + bytes <= |c.data| == |d.data| && d.used == offset + bytes &&
    forall k :: 0 <= k < |c.data| ==> d.data[k] == if offset <= k < offset + bytes then 0 else c.data[k]
  }

  /** No chunk from `i` up to `k` has room. */
  ghost predicate FullFrom(chunks: seq<Chunk>, i: nat, k: nat, bytes: nat) {
    forall j :: i <= j < k && j < |chunks| ==> !HasRoom(chunks[j], bytes)
  }

  /** What an allocation from chunk `i` on comes to: the chunks, the current one and the block, if any. */
  ghost predicate Places(
      chunks: seq<Chunk>, i: nat, bytes: nat, memory: Option<seq<Byte>>, b: ArenaState, r: Option<Block>) {
    if !FullFrom(chunks, i, |chunks|, bytes) then
      exists k: nat, offset: nat, d ::
        i <= k < |chunks| && FullFrom(chunks, i, k, bytes) && StartsAt(chunks[k], offset) &&
        Taken(chunks[k], offset, bytes, d) &&
        b == ArenaState(chunks[k := d], Some(k)) && r == Some(Block(k, offset, bytes))
    else if memory.Some? then
      exists d ::
        Taken(Chunk(0, memory.value), 0, bytes, d) && b == ArenaState(chunks + [d], Some(|chunks|)) &&
        r == Some(Block(|chunks|, 0, bytes))
    else b == ArenaState(chunks, if chunks == [] then None else Some(|chunks| - 1)) && r == None
  }

  lemma RoomIs(c: Chunk, bytes: nat)
    ensures HasRoom(c, bytes) <==> Fits(c, bytes)
    ensures forall offset: nat :: StartsAt(c, offset) <==> offset == AlignUp(c.used)
  {
    AlignUpRounds(c.used);
    var start: nat := AlignUp(c.used);
    assert StartsAt(c, start);
    forall offset: nat | StartsAt(c, offset) ensures offset == AlignUp(c.used) {
      assert -32 < offset - AlignUp(c.used) < 32 && (offset - AlignUp(c.used)) % 32 == 0;
    }
  }

  lemma TakenOnce(c: Chunk, offset: nat, bytes: nat, d: Chunk)
    ensures Taken(c, offset, bytes, d) <==>
            (offset + bytes <= |c.data|
             && d == Chunk(offset + bytes, c.data[..offset] + Zeros(bytes) + c.data[offset + bytes..]))
  {
    if offset + bytes <= |c.data| && Taken(c, offset, bytes, d) {
      assert d.data == c.data[..offset] + Zeros(bytes) + c.data[offset + bytes..];
    }
  }

  lemma {:induction false} WalkPlaces(
      a: ArenaState, i: nat, bytes: nat, memory: Option<seq<Byte>>, b: ArenaState, r: Option<Block>)
    requires ArenaInv(a) && a.current == Some(i)
    requires memory.Some? ==> |memory.value| == ChunkCapacity(bytes)
    ensures (b, r) == Walk(a, i, bytes, memory) <==> Places(a.chunks, i, bytes, memory, b, r)
    decreases |a.chunks| - i
  {
    var c := a.chunks[i];
    RoomIs(c, bytes);
    AlignUpRounds(c.used);
    if Fits(c, bytes) {
      WalkHere(a, i, bytes, memory, b, r);
    } else if i + 1 < |a.chunks| {
      var next := i + 1;
      var a' := ArenaState(a.chunks[next := a.chunks[next].(used := 0)], Some(next));
      assert a'.chunks == a.chunks;
      WalkPlaces(a', next, bytes, memory, b, r);
      NotHere(a.chunks, i, next, bytes, memory, b, r);
    } else {
      assert FullFrom(a.chunks, i, |a.chunks|, bytes);
      if memory.Some? { NewPlaced(memory.value, bytes); }
    }
  }

  lemma NewPlaced(memory: seq<Byte>, bytes: nat)
    requires |memory| == ChunkCapacity(bytes)
    ensures forall d :: Taken(Chunk(0, memory), 0, bytes, d) <==> d == Chunk(bytes, Zeros(bytes) + memory[bytes..])
  {
    forall d ensures Taken(Chunk(0, memory), 0, bytes, d) <==> d == Chunk(bytes, Zeros(bytes) + memory[bytes..]) {
      TakenOnce(Chunk(0, memory), 0, bytes, d);
      assert memory[..0] + Zeros(bytes) == Zeros(bytes);
    }
  }

  lemma WalkHere(a: ArenaState, i: nat, bytes: nat, memory: Option<seq<Byte>>, b: ArenaState, r: Option<Block>)
    requires ArenaInv(a) && a.current == Some(i) && AlignUp(a.chunks[i].used) >= 0 && Fits(a.chunks[i], bytes)
    requires memory.Some? ==> |memory.value| == ChunkCapacity(bytes)
    ensures (b, r) == Walk(a, i, bytes, memory) <==> Places(a.chunks, i, bytes, memory, b, r)
  {
    var c, offset := a.chunks[i], AlignUp(a.chunks[i].used);
    RoomIs(c, bytes);
    assert !FullFrom(a.chunks, i, |a.chunks|, bytes) && FullFrom(a.chunks, i, i, bytes);
    if (b, r) == Walk(a, i, bytes, memory) {
      var d := Place(c, bytes);
      TakenOnce(c, offset, bytes, d);
      assert StartsAt(a.chunks[i], offset) && Taken(a.chunks[i], offset, bytes, d);
    }
    if Places(a.chunks, i, bytes, memory, b, r) {
      var k: nat, start: nat, d :|
        i <= k < |a.chunks| && FullFrom(a.chunks, i, k, bytes) && StartsAt(a.chunks[k], start) &&
        Taken(a.chunks[k], start, bytes, d) &&
        b == ArenaState(a.chunks[k := d], Some(k)) && r == Some(Block(k, start, bytes));
      assert k == i;
      TakenOnce(c, offset, bytes, d);
    }
  }

  lemma NotHere(
      chunks: seq<Chunk>, i: nat, next: nat, bytes: nat, memory: Option<seq<Byte>>, b: ArenaState, r: Option<Block>)
    requires next == i + 1 < |chunks| && !HasRoom(chunks[i], bytes)
    ensures Places(chunks, i, bytes, memory, b, r) <==> Places(chunks, next, bytes, memory, b, r)
  {
    forall k: nat ensures FullFrom(chunks, i, k, bytes) <==> FullFrom(chunks, next, k, bytes) { }
  }

  /**
  An allocation takes the first multiple of 32 not in use in the first chunk, from the current one
  on, that has room behind it; if none has, it takes the bottom of the memory obtained, in a chunk
  behind the others; if there is none, it fails.
  */
  lemma AllocPlaces(a: ArenaState, bytes: nat, memory: Option<seq<Byte>>, b: ArenaState, r: Option<Block>)
    requires ArenaInv(a) && (memory.Some? ==> |memory.value| == ChunkCapacity(bytes))
    ensures (b, r) == Alloc(a, bytes, memory) <==>
            Places(a.chunks, if a.current == None then 0 else a.current.value, bytes, memory, b, r)
  {
    if a.current == None {
      if memory.Some? { NewPlaced(memory.value, bytes); }
      assert a == ArenaState([], None) && FullFrom(a.chunks, 0, |a.chunks|, bytes);
      assert forall d: Chunk :: a.chunks + [d] == [d];
    } else {
      WalkPlaces(a, a.current.value, bytes, memory, b, r);
    }
  }

  /** The memory obtained is 64 kilobytes, or what is asked for and 32 bytes if that is more. */
  lemma CapacityIs(bytes: nat)
    ensures var n := ChunkCapacity(bytes); n >= 65536 && n >= bytes + 32 && (n == 65536 || n == bytes + 32)
  {
  }

  /** A request fails on the spot exactly when it is for nothing or its size is no number of 64 bits. */
  lemma BytesAre(count: nat, itemSize: nat)
    ensures Bytes(count, itemSize) ==
            if 0 < count * itemSize <= 18446744073709551615 then Some(count * itemSize) else None
  {
    if count > 0 && itemSize > 0 { assert count * itemSize > 0; }
  }
}
