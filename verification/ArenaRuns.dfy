/**
Frames over the scratch arenas of several shells, and what every run of allocations, writes
and well-nested frames keeps.
*/
module ArenaRuns {
  import opened Text
  import opened Arena

  /** A frame as saved by `arksh_scratch_frame_begin`, with the number of blocks its shell had then. */
  datatype Frame = Frame(shell: Option<nat>, previous: Option<nat>, chunk: Option<nat>, used: nat, live: nat)

  /** All shells, the active one, the open frames (innermost last), and the live blocks of each shell. */
  datatype State = State(arenas: seq<ArenaState>, active: Option<nat>, frames: seq<Frame>, live: seq<seq<Block>>)

  datatype Op =
    | AllocOp(shell: nat, count: nat, itemSize: nat, memory: Option<seq<Byte>>)
    | Write(shell: nat, block: nat, bytes: seq<Byte>)   // a client fills one of its blocks
    | Begin(target: Option<nat>)
    | End

  function Emptied(chunks: seq<Chunk>, from: nat): (r: seq<Chunk>)
    ensures |r| == |chunks|
  {
    seq(|chunks|, i requires 0 <= i < |chunks| => if i < from then chunks[i] else chunks[i].(used := 0))
  }

  /** The arena after `arksh_scratch_frame_end`. */
  function Rollback(a: ArenaState, chunk: Option<nat>, used: nat): (r: ArenaState) {
    match chunk
    case None => ArenaState(Emptied(a.chunks, 0), if a.chunks == [] then None else Some(0))
    case Some(c) =>
      if c >= |a.chunks| then a
      else ArenaState(Emptied(a.chunks, c + 1)[c := a.chunks[c].(used := used)], Some(c))
  }

  function Filled(a: ArenaState, b: Block, bytes: seq<Byte>): (r: ArenaState)
    requires ArenaInv(a) && Placed(a, b) && |bytes| == b.size
  {
    var c := a.chunks[b.chunk];
    a.(chunks := a.chunks[b.chunk := c.(data := c.data[..b.offset] + bytes + c.data[b.offset + b.size..])])
  }

  /**
  What an operation needs: an existing shell, a frame to end, and for a request that memory is
  obtained for, the size that makes the memory hold it (`NewChunkHoldsIff`).
  */
  predicate Enabled(s: State, op: Op)
    requires |s.live| == |s.arenas|
  {
    match op
    case AllocOp(k, count, itemSize, memory) =>
      k < |s.arenas| &&
      (var n := Bytes(count, itemSize);
       n.Some? && memory.Some? ==> Unwrapped(n.value) && |memory.value| == ChunkCapacity(n.value) <= OBJECT_MAX)
    case Write(k, i, bytes) => k < |s.arenas| && i < |s.live[k]| && |bytes| == s.live[k][i].size
    case Begin(target) => target.Some? ==> target.value < |s.arenas|
    case End => s.frames != []
  }

  function FrameOf(s: State, target: Option<nat>): (f: Frame)
    requires |s.live| == |s.arenas| && (target.Some? ==> target.value < |s.arenas|)
  {
    match target
    case None => Frame(None, s.active, None, 0, 0)
    case Some(k) =>
      var a := s.arenas[k];
      Frame(target, s.active, a.current,
            if a.current.Some? && a.current.value < |a.chunks| then a.chunks[a.current.value].used else 0, |s.live[k]|)
  }

  function Step(s: State, op: Op): (r: State)
    requires Inv(s) && Enabled(s, op)
    ensures |r.live| == |r.arenas| == |s.arenas|
  {
    match op
    case AllocOp(k, count, itemSize, memory) =>
      var n := Bytes(count, itemSize);
      if n == None then s
      else
        var (a, b) := Alloc(s.arenas[k], n.value, memory);
        s.(arenas := s.arenas[k := a], live := if b == None then s.live else s.live[k := s.live[k] + [b.value]])
    case Write(k, i, bytes) => s.(arenas := s.arenas[k := Filled(s.arenas[k], s.live[k][i], bytes)])
    case Begin(target) => s.(active := target, frames := s.frames + [FrameOf(s, target)])
    case End =>
      var f := s.frames[|s.frames| - 1];
      var t := s.(active := f.previous, frames := s.frames[..|s.frames| - 1]);
      if f.shell == None then t
      else
        var k := f.shell.value;
        assert FrameInv(s, |s.frames| - 1);
        t.(arenas := s.arenas[k := Rollback(s.arenas[k], f.chunk, f.used)], live := s.live[k := s.live[k][..f.live]])
  }

  // ---------------------------------------------------------------- the invariant

  /** The frame's mark is within the arena and above every block that was live when it began. */
  predicate FrameOk(a: ArenaState, live: seq<Block>, f: Frame) {
    f.live <= |live| &&
    match f.chunk
    case None => f.live == 0
    case Some(c) =>
      a.current.Some? && c <= a.current.value < |a.chunks| && f.used <= a.chunks[c].used &&
      forall i :: 0 <= i < f.live ==> Below(live[i], c, f.used)
  }

  /** An inner frame of the same shell marks no less than an outer one. */
  predicate Nested(outer: Frame, inner: Frame) {
    outer.live <= inner.live &&
    (outer.chunk.Some? ==>
      inner.chunk.Some? &&
      (outer.chunk.value < inner.chunk.value || (outer.chunk == inner.chunk && outer.used <= inner.used)))
  }

  function Top(frames: seq<Frame>): (k: Option<nat>) {
    if frames == [] then None else frames[|frames| - 1].shell
  }

  predicate Inv(s: State) {
    |s.live| == |s.arenas| && s.active == Top(s.frames) &&
    (forall k :: 0 <= k < |s.arenas| ==> LiveInv(s.arenas[k], s.live[k])) &&
    (forall i :: 0 <= i < |s.frames| ==> FrameInv(s, i)) &&
    (forall i, j :: 0 <= i < j < |s.frames| && s.frames[i].shell == s.frames[j].shell ==>
      Nested(s.frames[i], s.frames[j]))
  }

  predicate FrameInv(s: State, i: nat)
    requires i < |s.frames| && |s.live| == |s.arenas|
  {
    var f := s.frames[i];
    f.previous == Top(s.frames[..i]) &&
    match f.shell
    case None => f.chunk == None && f.live == 0
    case Some(k) => k < |s.arenas| && FrameOk(s.arenas[k], s.live[k], f)
  }

  function Initial(shells: nat): (s: State) {
    State(seq(shells, i => ArenaState([], None)), None, [], seq(shells, i => []))
  }

  lemma InitialInv(shells: nat)
    ensures Inv(Initial(shells))
  {
  }

  // ---------------------------------------------------------------- every step keeps it

  /** The state with the arena and the live blocks of shell `k` replaced. */
  function With(s: State, k: nat, a: ArenaState, live: seq<Block>): (r: State)
    requires k < |s.arenas| == |s.live|
  {
    s.(arenas := s.arenas[k := a], live := s.live[k := live])
  }

  lemma WithInv(s: State, k: nat, a: ArenaState, live: seq<Block>)
    requires Inv(s) && k < |s.arenas| && LiveInv(a, live)
    requires forall i :: 0 <= i < |s.frames| && s.frames[i].shell == Some(k) ==> FrameOk(a, live, s.frames[i])
    ensures Inv(With(s, k, a, live))
  {
    var t := With(s, k, a, live);
    forall i | 0 <= i < |t.frames| ensures FrameInv(t, i) { assert FrameInv(s, i); }
  }

  /** Marks stay good when the arena only grows above its fill level. */
  lemma FramesStayOk(s: State, k: nat, a: ArenaState, live: seq<Block>)
    requires Inv(s) && k < |s.arenas| && s.live[k] <= live
    requires a == s.arenas[k] || (a.current.Some? && a.current.value < |a.chunks|)
    requires s.arenas[k].current.Some? && a != s.arenas[k] ==>
      Extends(s.arenas[k], a, s.arenas[k].current.value, s.arenas[k].chunks[s.arenas[k].current.value].used) &&
      s.arenas[k].current.value <= a.current.value
    ensures forall i :: 0 <= i < |s.frames| && s.frames[i].shell == Some(k) ==> FrameOk(a, live, s.frames[i])
  {
    forall i | 0 <= i < |s.frames| && s.frames[i].shell == Some(k) ensures FrameOk(a, live, s.frames[i]) {
      assert FrameInv(s, i);
      forall j | 0 <= j < s.frames[i].live ensures live[j] == s.live[k][j] {}
    }
  }

  lemma AllocInv(s: State, op: Op)
    requires Inv(s) && op.AllocOp? && Enabled(s, op)
    ensures Inv(Step(s, op))
  {
    var n := Bytes(op.count, op.itemSize);
    if n.Some? {
      var k := op.shell;
      var (a, b) := Alloc(s.arenas[k], n.value, op.memory);
      var live := if b == None then s.live[k] else s.live[k] + [b.value];
      assert Step(s, op) == With(s, k, a, live);
      assert LiveInv(a, live) by { AllocKeeps(s.arenas[k], s.live[k], n.value, op.memory); }
      if s.arenas[k].current.Some? { WalkKeeps(s.arenas[k], s.arenas[k].current.value, n.value, op.memory); }
      FramesStayOk(s, k, a, live);
      WithInv(s, k, a, live);
    }
  }

  /** A write changes one block and nothing else. */
  lemma FilledKeeps(a: ArenaState, live: seq<Block>, i: nat, bytes: seq<Byte>)
    requires LiveInv(a, live) && i < |live| && |bytes| == live[i].size
    ensures LiveInv(Filled(a, live[i], bytes), live)
    ensures forall j :: 0 <= j < |live| ==>
      Contents(Filled(a, live[i], bytes), live[j]) == if j == i then bytes else Contents(a, live[j])
  {
    var b := Filled(a, live[i], bytes);
    var x := live[i];
    assert LiveInv(b, live);
    forall j | 0 <= j < |live| ensures Contents(b, live[j]) == if j == i then bytes else Contents(a, live[j]) {
      if j != i && live[j].chunk == x.chunk {
        FilledOutside(a.chunks[x.chunk].data, x.offset, bytes, live[j].offset, live[j].size);
      }
    }
  }

  lemma FilledOutside(d: seq<Byte>, offset: nat, bytes: seq<Byte>, from: nat, size: nat)
    requires offset + |bytes| <= |d| && from + size <= |d| && (from + size <= offset || offset + |bytes| <= from)
    ensures (d[..offset] + bytes + d[offset + |bytes|..])[from..from + size] == d[from..from + size]
  {
    var e := d[..offset] + bytes + d[offset + |bytes|..];
    assert |e| == |d|;
    forall k | from <= k < from + size ensures e[k] == d[k] {}
  }

  lemma WriteInv(s: State, op: Op)
    requires Inv(s) && op.Write? && Enabled(s, op)
    ensures Inv(Step(s, op))
  {
    var k := op.shell;
    var a := Filled(s.arenas[k], s.live[k][op.block], op.bytes);
    FilledKeeps(s.arenas[k], s.live[k], op.block, op.bytes);
    assert s.live[k := s.live[k]] == s.live;
    forall i | 0 <= i < |s.frames| && s.frames[i].shell == Some(k) ensures FrameOk(a, s.live[k], s.frames[i]) {
      assert FrameInv(s, i);
    }
    WithInv(s, k, a, s.live[k]);
  }

  lemma BeginInv(s: State, op: Op)
    requires Inv(s) && op.Begin? && Enabled(s, op)
    ensures Inv(Step(s, op))
  {
    var t := Step(s, op);
    var n := |s.frames|;
    forall i | 0 <= i < |t.frames| ensures FrameInv(t, i) {
      if i < n {
        assert FrameInv(s, i) && t.frames[..i] == s.frames[..i];
      } else {
        assert t.frames[..n] == s.frames;
        if op.target.Some? { NewFrameOk(s, op.target.value); }
      }
    }
    forall i | 0 <= i < n && s.frames[i].shell == op.target ensures Nested(s.frames[i], t.frames[n]) {
      assert FrameInv(s, i);
    }
  }

  lemma NewFrameOk(s: State, k: nat)
    requires Inv(s) && k < |s.arenas|
    ensures FrameOk(s.arenas[k], s.live[k], FrameOf(s, Some(k)))
  {
    var a := s.arenas[k];
    assert a.current == None && s.live[k] != [] ==> Placed(a, s.live[k][0]);
  }

  /** Rolling back to a mark keeps every block below it and empties all chunks behind the mark. */
  lemma RollbackKeeps(a: ArenaState, live: seq<Block>, f: Frame)
    requires LiveInv(a, live) && FrameOk(a, live, f)
    ensures LiveInv(Rollback(a, f.chunk, f.used), live[..f.live])
    ensures forall j :: 0 <= j < f.live ==>
      Contents(Rollback(a, f.chunk, f.used), live[j]) == Contents(a, live[j])
  {
    var b := Rollback(a, f.chunk, f.used);
    forall j | 0 <= j < f.live ensures Placed(b, live[j]) {
      assert Placed(a, live[j]) && Below(live[j], f.chunk.value, f.used);
    }
  }

  lemma OuterFrameOk(a: ArenaState, live: seq<Block>, outer: Frame, f: Frame)
    requires LiveInv(a, live) && FrameOk(a, live, f) && FrameOk(a, live, outer) && Nested(outer, f)
    ensures FrameOk(Rollback(a, f.chunk, f.used), live[..f.live], outer)
  {
  }

  lemma EndInv(s: State, op: Op)
    requires Inv(s) && op.End? && Enabled(s, op)
    ensures Inv(Step(s, op))
  {
    var n := |s.frames| - 1;
    var f := s.frames[n];
    var t := s.(active := f.previous, frames := s.frames[..n]);
    assert FrameInv(s, n);
    forall i | 0 <= i < n ensures FrameInv(t, i) {
      assert FrameInv(s, i) && t.frames[..i] == s.frames[..i];
    }
    assert Inv(t);
    if f.shell.Some? {
      var k := f.shell.value;
      RollbackKeeps(s.arenas[k], s.live[k], f);
      var a := Rollback(s.arenas[k], f.chunk, f.used);
      forall i | 0 <= i < n && t.frames[i].shell == Some(k) ensures FrameOk(a, s.live[k][..f.live], t.frames[i]) {
        assert FrameInv(s, i);
        OuterFrameOk(s.arenas[k], s.live[k], s.frames[i], f);
      }
      WithInv(t, k, a, s.live[k][..f.live]);
    }
  }

  lemma StepInv(s: State, op: Op)
    requires Inv(s) && Enabled(s, op)
    ensures Inv(Step(s, op))
  {
    match op
    case AllocOp(_, _, _, _) => AllocInv(s, op);
    case Write(_, _, _) => WriteInv(s, op);
    case Begin(_) => BeginInv(s, op);
    case End => EndInv(s, op);
  }

  // ---------------------------------------------------------------- runs

  /** Every operation of the run is enabled when its turn comes. */
  predicate Runnable(s: State, ops: seq<Op>)
    requires Inv(s)
    decreases |ops|
  {
    ops == [] || (Enabled(s, ops[0]) && (StepInv(s, ops[0]); Runnable(Step(s, ops[0]), ops[1..])))
  }

  function Run(s: State, ops: seq<Op>): (r: State)
    requires Inv(s) && Runnable(s, ops)
    ensures Inv(r)
    decreases |ops|
  {
    if ops == [] then s else StepInv(s, ops[0]); Run(Step(s, ops[0]), ops[1..])
  }

  lemma {:induction false} RunSplits(s: State, p: seq<Op>, q: seq<Op>)
    requires Inv(s) && Runnable(s, p + q)
    ensures Runnable(s, p) && Runnable(Run(s, p), q) && Run(s, p + q) == Run(Run(s, p), q)
    decreases |p|
  {
    if p == [] {
      assert p + q == q;
    } else {
      assert (p + q)[0] == p[0] && (p + q)[1..] == p[1..] + q;
      StepInv(s, p[0]);
      RunSplits(Step(s, p[0]), p[1..], q);
    }
  }

  /**
   * In every reachable state live blocks are in bounds, aligned, and share no byte; chunks behind the
   * current one are empty.
   */
  lemma ReachableBlocksAreSafe(shells: nat, ops: seq<Op>, k: nat, i: nat, j: nat)
    requires (InitialInv(shells); Runnable(Initial(shells), ops))
    requires (InitialInv(shells); k < |Run(Initial(shells), ops).arenas| && i < |Run(Initial(shells), ops).live[k]|
      && j < |Run(Initial(shells), ops).live[k]|)
    ensures (InitialInv(shells);
      var s := Run(Initial(shells), ops);
      var a, x, y := s.arenas[k], s.live[k][i], s.live[k][j];
      (i != j ==> Disjoint(x, y)) &&
      x.chunk < |a.chunks| && x.offset + x.size <= a.chunks[x.chunk].Capacity() && x.offset % ALIGN == 0 &&
      forall c :: a.current.Some? && a.current.value < c < |a.chunks| ==> a.chunks[c].used == 0)
  {
    InitialInv(shells);
    var s := Run(Initial(shells), ops);
    assert LiveInv(s.arenas[k], s.live[k]);
    assert Placed(s.arenas[k], s.live[k][i]);
  }

  /** A new block is zero when handed out, and no other live block changes. */
  lemma AllocIsFreshAndZero(s: State, op: Op)
    requires Inv(s) && op.AllocOp? && Enabled(s, op)
    ensures var t := Step(s, op); Inv(t)
    ensures var t := Step(s, op);
            t.live[op.shell] == s.live[op.shell] || (
              var b := t.live[op.shell][|t.live[op.shell]| - 1];
              t.live[op.shell] == s.live[op.shell] + [b] && LiveInv(t.arenas[op.shell], t.live[op.shell]) &&
              Some(b.size) == Bytes(op.count, op.itemSize) && Contents(t.arenas[op.shell], b) == Zeros(b.size))
    ensures var t := Step(s, op);
            forall k, i :: 0 <= k < |s.live| && 0 <= i < |s.live[k]| ==>
              Placed(t.arenas[k], s.live[k][i]) &&
              Contents(t.arenas[k], s.live[k][i]) == Contents(s.arenas[k], s.live[k][i])
  {
    AllocInv(s, op);
    var n := Bytes(op.count, op.itemSize);
    if n.Some? {
      AllocKeeps(s.arenas[op.shell], s.live[op.shell], n.value, op.memory);
      var t := Step(s, op);
      assert LiveInv(t.arenas[op.shell], t.live[op.shell]);
    }
  }

  /** The run never writes block `i` of shell `k` and never gives it up. */
  predicate Untouched(s: State, ops: seq<Op>, k: nat, i: nat)
    requires Inv(s) && Runnable(s, ops)
    decreases |ops|
  {
    k < |s.live| && i < |s.live[k]| &&
    (ops == [] ||
     (!(ops[0].Write? && ops[0].shell == k && ops[0].block == i) &&
      (StepInv(s, ops[0]); Untouched(Step(s, ops[0]), ops[1..], k, i))))
  }

  /** Block `i` of shell `k` is the same block with the same contents. */
  predicate SameBlock(s: State, t: State, k: nat, i: nat)
    requires Inv(s) && Inv(t)
  {
    k < |s.live| == |t.live| && i < |s.live[k]| && i < |t.live[k]| && t.live[k][i] == s.live[k][i] &&
    Placed(s.arenas[k], s.live[k][i]) && Placed(t.arenas[k], t.live[k][i]) &&
    LiveInv(s.arenas[k], s.live[k]) && LiveInv(t.arenas[k], t.live[k]) &&
    Contents(t.arenas[k], t.live[k][i]) == Contents(s.arenas[k], s.live[k][i])
  }

  lemma EndKeepsBlock(s: State, k: nat, i: nat)
    requires Inv(s) && s.frames != [] && k < |s.live| && i < |s.live[k]| && i < |Step(s, End).live[k]|
    ensures Inv(Step(s, End)) && SameBlock(s, Step(s, End), k, i)
  {
    StepInv(s, End);
    var t := Step(s, End);
    var f := s.frames[|s.frames| - 1];
    assert FrameInv(s, |s.frames| - 1);
    assert LiveInv(s.arenas[k], s.live[k]) && LiveInv(t.arenas[k], t.live[k]);
    assert Placed(s.arenas[k], s.live[k][i]);
    if f.shell == Some(k) { RollbackKeeps(s.arenas[k], s.live[k], f); }
  }

  lemma StepKeepsBlock(s: State, op: Op, k: nat, i: nat)
    requires Inv(s) && Enabled(s, op) && k < |s.live| && i < |s.live[k]| && i < |Step(s, op).live[k]|
    requires !(op.Write? && op.shell == k && op.block == i)
    ensures Inv(Step(s, op)) && SameBlock(s, Step(s, op), k, i)
  {
    StepInv(s, op);
    var t := Step(s, op);
    assert LiveInv(s.arenas[k], s.live[k]) && LiveInv(t.arenas[k], t.live[k]);
    assert Placed(s.arenas[k], s.live[k][i]);
    match op
    case AllocOp(shell, count, itemSize, memory) =>
      var n := Bytes(count, itemSize);
      if n.Some? && shell == k { AllocKeeps(s.arenas[k], s.live[k], n.value, memory); }
    case Write(shell, j, bytes) => if shell == k { FilledKeeps(s.arenas[k], s.live[k], j, bytes); }
    case Begin(_) =>
    case End => EndKeepsBlock(s, k, i);
  }

  /** Whatever else happens, a live block keeps its place and its contents until its owner writes it. */
  lemma {:induction false} RunKeepsBlock(s: State, ops: seq<Op>, k: nat, i: nat)
    requires Inv(s) && Runnable(s, ops) && Untouched(s, ops, k, i)
    ensures SameBlock(s, Run(s, ops), k, i)
    decreases |ops|
  {
    assert LiveInv(s.arenas[k], s.live[k]);
    assert Placed(s.arenas[k], s.live[k][i]);
    if ops != [] {
      StepInv(s, ops[0]);
      StepKeepsBlock(s, ops[0], k, i);
      RunKeepsBlock(Step(s, ops[0]), ops[1..], k, i);
    }
  }

  // ---------------------------------------------------------------- nesting

  /** Frames begun in `ops` are ended in `ops`, after first ending `depth` frames that were open before. */
  predicate WellNested(ops: seq<Op>, depth: nat)
    decreases |ops|
  {
    if ops == [] then depth == 0
    else if ops[0].Begin? then WellNested(ops[1..], depth + 1)
    else if ops[0].End? then depth > 0 && WellNested(ops[1..], depth - 1)
    else WellNested(ops[1..], depth)
  }

  /** What was live when an outer frame began is still there. */
  ghost predicate MarksKept(s: State, t: State, base: nat)
    requires Inv(s) && Inv(t) && base <= |s.frames|
  {
    |t.live| == |s.live| &&
    forall i, k :: 0 <= i < base && s.frames[i].shell == Some(k) ==>
      k < |s.live| && s.frames[i].live <= |s.live[k]| && s.frames[i].live <= |t.live[k]| &&
      t.live[k][..s.frames[i].live] == s.live[k][..s.frames[i].live]
  }

  lemma LiveAfter(s: State, op: Op, k: nat)
    requires Inv(s) && Enabled(s, op) && k < |s.live|
    ensures !op.End? ==> s.live[k] <= Step(s, op).live[k]
    ensures op.End? ==>
      var f := s.frames[|s.frames| - 1];
      if f.shell == Some(k) then f.live <= |s.live[k]| && Step(s, op).live[k] == s.live[k][..f.live]
      else Step(s, op).live[k] == s.live[k]
  {
    if op.End? { assert FrameInv(s, |s.frames| - 1); }
  }

  lemma StepKeepsMarks(s: State, op: Op, base: nat)
    requires Inv(s) && Enabled(s, op) && base <= |s.frames| && (op.End? ==> base < |s.frames|)
    ensures Inv(Step(s, op)) && MarksKept(s, Step(s, op), base)
    ensures base <= |Step(s, op).frames| && Step(s, op).frames[..base] == s.frames[..base]
  {
    StepInv(s, op);
    var t := Step(s, op);
    forall i, k | 0 <= i < base && s.frames[i].shell == Some(k)
      ensures k < |s.live| && s.frames[i].live <= |s.live[k]| && s.frames[i].live <= |t.live[k]| &&
              t.live[k][..s.frames[i].live] == s.live[k][..s.frames[i].live]
    {
      assert FrameInv(s, i);
      LiveAfter(s, op, k);
    }
  }

  lemma MarksSelf(s: State, base: nat)
    requires Inv(s) && base <= |s.frames|
    ensures MarksKept(s, s, base)
  {
    forall i, k | 0 <= i < base && s.frames[i].shell == Some(k)
      ensures k < |s.live| && s.frames[i].live <= |s.live[k]|
    {
      assert FrameInv(s, i);
    }
  }

  lemma MarksCompose(s: State, s': State, t: State, base: nat)
    requires Inv(s) && Inv(s') && Inv(t) && base <= |s.frames| && base <= |s'.frames|
    requires s'.frames[..base] == s.frames[..base]
    requires MarksKept(s, s', base) && MarksKept(s', t, base)
    ensures MarksKept(s, t, base)
  {
    forall i, k | 0 <= i < base && s.frames[i].shell == Some(k)
      ensures k < |s.live| && s.frames[i].live <= |s.live[k]| && s.frames[i].live <= |t.live[k]| &&
              t.live[k][..s.frames[i].live] == s.live[k][..s.frames[i].live]
    {
      assert s'.frames[..base][i] == s.frames[..base][i];
    }
  }

  lemma {:induction false} NestedRunKeepsMarks(s: State, ops: seq<Op>, base: nat, depth: nat)
    requires Inv(s) && Runnable(s, ops) && WellNested(ops, depth) && |s.frames| == base + depth
    ensures var t := Run(s, ops); t.frames == s.frames[..base] && MarksKept(s, t, base)
    decreases |ops|
  {
    if ops == [] {
      MarksSelf(s, base);
    } else {
      StepKeepsMarks(s, ops[0], base);
      var s' := Step(s, ops[0]);
      var depth' := if ops[0].Begin? then depth + 1 else if ops[0].End? then depth - 1 else depth;
      assert |s'.frames| == base + depth' && WellNested(ops[1..], depth');
      NestedRunKeepsMarks(s', ops[1..], base, depth');
      MarksCompose(s, s', Run(s, ops), base);
    }
  }

  /** What ending the innermost frame does. */
  lemma EndEffect(s: State, k: nat)
    requires Inv(s) && s.frames != [] && s.frames[|s.frames| - 1].shell == Some(k)
    ensures var f, t := s.frames[|s.frames| - 1], Step(s, End);
            k < |s.live| == |t.live| && f.live <= |s.live[k]| && t.live[k] == s.live[k][..f.live] &&
            t.active == f.previous && t.frames == s.frames[..|s.frames| - 1] && FilledTo(t.arenas[k], f.chunk, f.used)
  {
    assert FrameInv(s, |s.frames| - 1);
  }

  /** The arena is filled up to the mark and empty behind it, or all empty if there was no chunk to mark. */
  predicate FilledTo(a: ArenaState, chunk: Option<nat>, used: nat) {
    (chunk.Some? ==> a.current == chunk && chunk.value < |a.chunks| && a.chunks[chunk.value].used == used)
    && forall i :: (if chunk.Some? then chunk.value + 1 else 0) <= i < |a.chunks| ==> a.chunks[i].used == 0
  }

  /** The state just before a frame ends: the frame is on top, and what was live before it is still there. */
  lemma FrameInside(s: State, target: Option<nat>, ops: seq<Op>) returns (s2: State)
    requires Inv(s) && Runnable(s, [Begin(target)] + ops + [End]) && WellNested(ops, 0)
    ensures Inv(s2) && Enabled(s2, End) && Run(s, [Begin(target)] + ops + [End]) == Step(s2, End)
    ensures |s2.live| == |s.live| == |s.arenas| && (target.Some? ==> target.value < |s.arenas|)
    ensures s2.frames == s.frames + [FrameOf(s, target)]
    ensures target.Some? ==> |s.live[target.value]| <= |s2.live[target.value]|
    ensures target.Some? ==> s2.live[target.value][..|s.live[target.value]|] == s.live[target.value]
  {
    BracketRuns(s, target, ops);
    var s1, n := Step(s, Begin(target)), |s.frames| + 1;
    s2 := Run(s1, ops);
    NestedRunKeepsMarks(s1, ops, n, 0);
    assert s1.frames[..n] == s1.frames;
    if target.Some? {
      var k := target.value;
      assert s1.frames[n - 1].shell == Some(k) && s1.frames[n - 1].live == |s.live[k]|;
      assert s1.live[k][..|s.live[k]|] == s.live[k];
    }
  }

  /**
  A frame and any well-nested run inside it: afterwards the active shell, the open frames and
  the shell's live blocks are what they were, and its arena is filled as before.
  */
  lemma FrameRestores(s: State, target: Option<nat>, ops: seq<Op>)
    requires Inv(s) && Runnable(s, [Begin(target)] + ops + [End]) && WellNested(ops, 0)
    ensures var t := Run(s, [Begin(target)] + ops + [End]);
            t.active == s.active && t.frames == s.frames
    ensures var t := Run(s, [Begin(target)] + ops + [End]);
            target.Some? ==>
              target.value < |s.live| == |t.live| && t.live[target.value] == s.live[target.value] &&
              FilledTo(t.arenas[target.value], FrameOf(s, target).chunk, FrameOf(s, target).used)
  {
    var s2 := FrameInside(s, target, ops);
    var n := |s.frames|;
    assert s2.frames[n] == FrameOf(s, target) && s2.frames[..n] == s.frames;
    if target.Some? { EndEffect(s2, target.value); }
  }

  lemma BracketRuns(s: State, target: Option<nat>, ops: seq<Op>)
    requires Inv(s) && Runnable(s, [Begin(target)] + ops + [End])
    ensures Enabled(s, Begin(target)) && Inv(Step(s, Begin(target))) && Runnable(Step(s, Begin(target)), ops)
    ensures var s2 := Run(Step(s, Begin(target)), ops);
            Enabled(s2, End) && Run(s, [Begin(target)] + ops + [End]) == Step(s2, End)
  {
    var op := Begin(target);
    assert [op] + ops + [End] == [op] + (ops + [End]);
    RunSplits(s, [op], ops + [End]);
    StepInv(s, op);
    RunOne(s, op);
    RunSplits(Step(s, op), ops, [End]);
    RunOne(Run(Step(s, op), ops), End);
  }

  lemma RunOne(s: State, op: Op)
    requires Inv(s) && Runnable(s, [op])
    ensures Enabled(s, op) && Run(s, [op]) == Step(s, op)
  {
    assert [op][1..] == [];
  }
}
