/**
The scratch arena: chunks filled from the bottom. This module gives what an allocation does to
an arena and what it keeps; frames and whole runs are in `ArenaRuns`.

Addresses are (chunk, offset) pairs; alignment is relative to the start of a chunk's data.
*/
module Arena {
  import opened Text
  import Bits

  const ALIGN := 32                          // sizeof(max_align_t) on x86-64
  const HEADER := 24                         // sizeof(ArkshScratchChunk)
  const DEFAULT_CHUNK := 65536
  const SIZE_MAX := 0xFFFF_FFFF_FFFF_FFFF
  const OBJECT_MAX := 0x7FFF_FFFF_FFFF_FFFF  // no object is larger than PTRDIFF_MAX

  type Byte = b: nat | b < 256

  datatype Chunk = Chunk(used: nat, data: seq<Byte>) {
    function Capacity(): (n: nat) { |data| }
  }

  /** The chunk list; `current` is None only while there is no chunk. */
  datatype ArenaState = ArenaState(chunks: seq<Chunk>, current: Option<nat>)

  datatype Block = Block(chunk: nat, offset: nat, size: nat)

  // ---------------------------------------------------------------- alignment

  /** `align_up` for a power of two. */
  function AlignUp(value: nat): (r: int) {
    Bits.And(value + (ALIGN - 1), Bits.Not(ALIGN - 1))
  }

  /** The smallest multiple of the alignment that is not below `value`. */
  lemma AlignUpRounds(value: nat)
    ensures AlignUp(value) % ALIGN == 0
    ensures value <= AlignUp(value) < value + ALIGN
  {
    Bits.Mask32(value + 31);
  }

  // ---------------------------------------------------------------- allocation

  function ChunkCapacity(bytes: nat): (n: nat) {
    if bytes + ALIGN > DEFAULT_CHUNK then bytes + ALIGN else DEFAULT_CHUNK
  }

  /** Nothing wraps around on the way to the memory of a new chunk. */
  predicate Unwrapped(bytes: nat) { HEADER + bytes + ALIGN <= SIZE_MAX }

  /** The capacity as the source computes it, in 64 bits. */
  function WrappedCapacity(bytes: nat): (n: nat) {
    var need := (bytes + ALIGN) % (SIZE_MAX + 1);
    if need > DEFAULT_CHUNK then need else DEFAULT_CHUNK
  }

  /** What `malloc` is asked for: the header of a chunk and its capacity, in 64 bits. */
  function MallocSize(bytes: nat): (n: nat) { (HEADER + WrappedCapacity(bytes)) % (SIZE_MAX + 1) }

  /** The source's test on a chunk made for the request: does the capacity suffice? */
  predicate PassesTest(bytes: nat) { bytes <= WrappedCapacity(bytes) }

  /** Does the memory obtained for the chunk hold the block behind the header? */
  predicate HoldsBlock(bytes: nat) { HEADER + bytes <= MallocSize(bytes) }

  /**
  A chunk made for a request takes it, within the memory obtained, exactly when header, size and
  alignment do not wrap around. If size and alignment alone do, no chunk that memory can hold
  passes the test, and the source makes one after the other until memory runs out. If only the
  header makes the sum wrap, the chunk passes the test with less memory than its header takes.
  */
  lemma NewChunkHoldsIff(bytes: nat)
    requires 0 < bytes <= SIZE_MAX
    ensures PassesTest(bytes) && HoldsBlock(bytes) <==> Unwrapped(bytes)
    ensures Unwrapped(bytes) ==>
      WrappedCapacity(bytes) == ChunkCapacity(bytes) && MallocSize(bytes) == HEADER + ChunkCapacity(bytes)
    ensures bytes + ALIGN > SIZE_MAX ==>
      !PassesTest(bytes) && forall c: Chunk :: c.Capacity() <= OBJECT_MAX ==> !Fits(c, bytes)
    ensures bytes + ALIGN <= SIZE_MAX && !Unwrapped(bytes) ==> PassesTest(bytes) && MallocSize(bytes) < HEADER
  {
    if bytes + ALIGN > SIZE_MAX {
      forall c: Chunk | c.Capacity() <= OBJECT_MAX ensures !Fits(c, bytes) { AlignUpRounds(c.used); }
    }
  }

  /** An instance: a request whose chunk passes the test with 15 bytes of memory, header included. */
  lemma ShortChunk()
    ensures PassesTest(SIZE_MAX - 40) && MallocSize(SIZE_MAX - 40) == 15
  {
  }

  function Zeros(n: nat): (s: seq<Byte>) { seq(n, i => 0) }

  function Fits(c: Chunk, bytes: nat): (b: bool) {
    AlignUp(c.used) <= c.Capacity() && bytes <= c.Capacity() - AlignUp(c.used)
  }

  /** `bytes` zeroed at the next aligned offset of a chunk that has room. */
  function Place(c: Chunk, bytes: nat): (r: Chunk)
    requires Fits(c, bytes) && AlignUp(c.used) >= 0
    ensures |r.data| == |c.data|
  {
    var offset := AlignUp(c.used);
    Chunk(offset + bytes, c.data[..offset] + Zeros(bytes) + c.data[offset + bytes..])
  }

  /**
  The walk of `arksh_scratch_alloc_zero` from chunk `i`: the first chunk with room, emptied
  if it lies behind the current one, or else a new chunk made of `memory`, if there is any.
  */
  function Walk(a: ArenaState, i: nat, bytes: nat, memory: Option<seq<Byte>>): (r: (ArenaState, Option<Block>))
    requires i < |a.chunks|
    requires memory.Some? ==> |memory.value| == ChunkCapacity(bytes)
    decreases |a.chunks| - i
  {
    AlignUpRounds(a.chunks[i].used);
    if Fits(a.chunks[i], bytes) then
      (ArenaState(a.chunks[i := Place(a.chunks[i], bytes)], Some(i)), Some(Block(i, AlignUp(a.chunks[i].used), bytes)))
    else if i + 1 < |a.chunks| then
      Walk(ArenaState(a.chunks[i + 1 := a.chunks[i + 1].(used := 0)], Some(i + 1)), i + 1, bytes, memory)
    else if memory == None then (ArenaState(a.chunks, Some(i)), None)
    else
      (ArenaState(a.chunks + [Chunk(bytes, Zeros(bytes) + memory.value[bytes..])], Some(i + 1)),
        Some(Block(i + 1, 0, bytes)))
  }

  /** The whole allocation, for a byte count already multiplied out. */
  function Alloc(a: ArenaState, bytes: nat, memory: Option<seq<Byte>>): (r: (ArenaState, Option<Block>))
    requires ArenaInv(a)
    requires memory.Some? ==> |memory.value| == ChunkCapacity(bytes)
  {
    if a.current == None then
      if memory == None then (a, None)
      else (ArenaState([Chunk(bytes, Zeros(bytes) + memory.value[bytes..])], Some(0)), Some(Block(0, 0, bytes)))
    else Walk(a, a.current.value, bytes, memory)
  }

  /** The bytes that `count` items ask for, None if that is nothing or too many to count. */
  function Bytes(count: nat, itemSize: nat): (n: Option<nat>) {
    if count == 0 || itemSize == 0 || count * itemSize > SIZE_MAX then None else Some(count * itemSize)
  }

  // ---------------------------------------------------------------- what an arena keeps

  /** Chunks are within their size, and all chunks behind the current one are empty. */
  predicate ArenaInv(a: ArenaState) {
    (forall i :: 0 <= i < |a.chunks| ==> a.chunks[i].used <= a.chunks[i].Capacity() <= OBJECT_MAX) &&
    (if a.current == None then a.chunks == []
     else a.current.value < |a.chunks| && forall i :: a.current.value < i < |a.chunks| ==> a.chunks[i].used == 0)
  }

  /** `b` ends at or before offset `used` of chunk `chunk`. */
  predicate Below(b: Block, chunk: nat, used: nat) {
    b.chunk < chunk || (b.chunk == chunk && b.offset + b.size <= used)
  }

  /** `b` lies in the used part of its chunk, at an aligned offset. */
  predicate Placed(a: ArenaState, b: Block) {
    a.current.Some? && b.chunk <= a.current.value < |a.chunks| &&
    b.offset + b.size <= a.chunks[b.chunk].used && b.offset % ALIGN == 0 && b.size > 0
  }

  /** Blocks in the order they were made, each behind the one before. */
  predicate Ordered(live: seq<Block>) {
    forall i, j :: 0 <= i < j < |live| ==> Below(live[i], live[j].chunk, live[j].offset)
  }

  predicate LiveInv(a: ArenaState, live: seq<Block>) {
    ArenaInv(a) && Ordered(live) && forall i :: 0 <= i < |live| ==> Placed(a, live[i])
  }

  /** No byte belongs to both. */
  predicate Disjoint(x: Block, y: Block) {
    x.chunk != y.chunk || x.offset + x.size <= y.offset || y.offset + y.size <= x.offset
  }

  function Contents(a: ArenaState, b: Block): (s: seq<Byte>)
    requires ArenaInv(a) && Placed(a, b)
  {
    a.chunks[b.chunk].data[b.offset..b.offset + b.size]
  }

  /** What lies up to the fill level `used` of chunk `at` is the same in `b`, which has no chunk less. */
  predicate Extends(a: ArenaState, b: ArenaState, at: nat, used: nat) {
    at < |a.chunks| <= |b.chunks| && used <= a.chunks[at].used &&
    (forall j :: 0 <= j < |a.chunks| ==> |b.chunks[j].data| == |a.chunks[j].data|) &&
    (forall j :: 0 <= j < at ==> b.chunks[j] == a.chunks[j]) &&
    used <= b.chunks[at].used && used <= |a.chunks[at].data| && b.chunks[at].data[..used] == a.chunks[at].data[..used]
  }

  /** `b` and `r` are a fair outcome of allocating `bytes` in `a` while chunk `i` is current. */
  predicate Allocated(a: ArenaState, i: nat, bytes: nat, b: ArenaState, r: Option<Block>) {
    ArenaInv(b) && i < |a.chunks| && Extends(a, b, i, a.chunks[i].used) && b.current.Some? && b.current.value >= i &&
    (r.Some? ==> GoodBlock(b, r.value, bytes) && (r.value.chunk == i ==> a.chunks[i].used <= r.value.offset))
  }

  /** A block just handed out: in place, aligned, in the current chunk, and all zero. */
  predicate GoodBlock(b: ArenaState, r: Block, bytes: nat)
    requires ArenaInv(b)
  {
    Placed(b, r) && r.size == bytes && r.chunk == b.current.value && Contents(b, r) == Zeros(bytes)
  }

  lemma PlacedHere(a: ArenaState, i: nat, bytes: nat)
    requires ArenaInv(a) && a.current == Some(i) && bytes > 0 && AlignUp(a.chunks[i].used) >= 0
    requires Fits(a.chunks[i], bytes)
    ensures var offset := AlignUp(a.chunks[i].used);
            Allocated(a, i, bytes, ArenaState(a.chunks[i := Place(a.chunks[i], bytes)], Some(i)),
              Some(Block(i, offset, bytes)))
  {
    var c := a.chunks[i];
    AlignUpRounds(c.used);
    var offset := AlignUp(c.used);
    var d := Place(c, bytes);
    assert d.data[offset..offset + bytes] == Zeros(bytes);
    assert d.data[..c.used] == c.data[..c.used];
  }

  lemma PlacedInNew(a: ArenaState, i: nat, bytes: nat, memory: seq<Byte>)
    requires ArenaInv(a) && a.current == Some(i) && i + 1 == |a.chunks| && bytes > 0
    requires |memory| == ChunkCapacity(bytes) <= OBJECT_MAX
    ensures Allocated(a, i, bytes, ArenaState(a.chunks + [Chunk(bytes, Zeros(bytes) + memory[bytes..])], Some(i + 1)),
      Some(Block(i + 1, 0, bytes)))
  {
    assert (Zeros(bytes) + memory[bytes..])[0..bytes] == Zeros(bytes);
  }

  /** One allocation of at least one byte, from the current chunk on. */
  lemma {:induction false} WalkKeeps(a: ArenaState, i: nat, bytes: nat, memory: Option<seq<Byte>>)
    requires ArenaInv(a) && a.current == Some(i) && bytes > 0
    requires memory.Some? ==> |memory.value| == ChunkCapacity(bytes) <= OBJECT_MAX
    ensures var (b, r) := Walk(a, i, bytes, memory); Allocated(a, i, bytes, b, r)
    decreases |a.chunks| - i
  {
    AlignUpRounds(a.chunks[i].used);
    if Fits(a.chunks[i], bytes) {
      PlacedHere(a, i, bytes);
    } else if i + 1 < |a.chunks| {
      var a' := ArenaState(a.chunks[i + 1 := a.chunks[i + 1].(used := 0)], Some(i + 1));
      assert a'.chunks == a.chunks;
      WalkKeeps(a', i + 1, bytes, memory);
      var (b, r) := Walk(a', i + 1, bytes, memory);
      assert Allocated(a', i + 1, bytes, b, r);
    } else if memory.Some? {
      PlacedInNew(a, i, bytes, memory.value);
    }
  }

  /** An allocation leaves earlier blocks alone and puts the new one behind them. */
  lemma AllocKeeps(a: ArenaState, live: seq<Block>, bytes: nat, memory: Option<seq<Byte>>)
    requires LiveInv(a, live) && bytes > 0
    requires memory.Some? ==> |memory.value| == ChunkCapacity(bytes) <= OBJECT_MAX
    ensures var (b, r) := Alloc(a, bytes, memory);
            ArenaInv(b) &&
            (r.Some? ==> LiveInv(b, live + [r.value]) && GoodBlock(b, r.value, bytes)) &&
            (r == None ==> LiveInv(b, live)) &&
            forall i :: 0 <= i < |live| ==> Placed(b, live[i]) && Contents(b, live[i]) == Contents(a, live[i])
  {
    var (b, r) := Alloc(a, bytes, memory);
    if a.current == None {
      assert live == [] by { assert |live| > 0 ==> Placed(a, live[0]); }
      if memory.Some? {
        assert (Zeros(bytes) + memory.value[bytes..])[0..bytes] == Zeros(bytes);
      }
    } else {
      var c := a.current.value;
      WalkKeeps(a, c, bytes, memory);
      forall i | 0 <= i < |live| ensures Placed(b, live[i]) && Contents(b, live[i]) == Contents(a, live[i]) {
        BlockKept(a, b, c, a.chunks[c].used, live[i]);
      }
    }
  }

  lemma BlockKept(a: ArenaState, b: ArenaState, at: nat, used: nat, x: Block)
    requires ArenaInv(a) && ArenaInv(b) && Extends(a, b, at, used) && b.current.Some? && b.current.value >= at
    requires Placed(a, x) && Below(x, at, used)
    ensures Placed(b, x) && Contents(b, x) == Contents(a, x)
  {
    if x.chunk == at {
      assert b.chunks[at].data[..used][x.offset..x.offset + x.size] == b.chunks[at].data[x.offset..x.offset + x.size];
      assert a.chunks[at].data[..used][x.offset..x.offset + x.size] == a.chunks[at].data[x.offset..x.offset + x.size];
    }
  }
}
