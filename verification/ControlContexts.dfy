/**
`break n` and `continue n` anywhere in a command: how many loops they leave, whatever these
loops are, whatever round they are in and whatever stands before and behind the signal.
*/
module ControlContexts {
  import opened Text
  import opened Control
  import opened ControlLaws

  // ---------------------------------------------------------------- contexts

  /** A command with a hole: in a list, in a branch, in the body of a loop. */
  datatype Frame =
    | InList(before: seq<ListEntry>, condition: Condition, after: seq<ListEntry>)
    | InThen(value: nat, test: Command, no: Option<Command>)
    | InElse(value: nat, test: Command, yes: Command)
    | InLoop(until: bool, value: nat, cond: Command)
    | InFor(items: seq<nat>)

  predicate IsLoop(f: Frame) { f.InLoop? || f.InFor? }

  function Fill(f: Frame, c: Command): (r: Command) {
    match f
    case InList(before, condition, after) => Sequence(before + ([ListEntry(condition, c)] + after))
    case InThen(value, test, no) => If(value, test, c, no)
    case InElse(value, test, yes) => If(value, test, yes, Some(c))
    case InLoop(until, value, cond) => Loop(until, value, cond, c)
    case InFor(items) => For(items, c)
  }

  /** The command `c` in all the frames, the first one outermost. */
  function Plug(k: seq<Frame>, c: Command): (r: Command) {
    if k == [] then c else Fill(k[0], Plug(k[1..], c))
  }

  /** The number of loops around the hole. */
  function Loops(k: seq<Frame>): (d: nat) {
    if k == [] then 0 else Loops(k[1..]) + if IsLoop(k[0]) then 1 else 0
  }

  /** The n-th loop around the hole, from inside, and what it and all inside it make of `c`. */
  lemma {:induction false} NthLoop(k: seq<Frame>, n: nat, c: Command) returns (i: nat)
    requires 1 <= n <= Loops(k)
    ensures i < |k| && IsLoop(k[i]) && Loops(k[i..]) == n && Plug(k, c) == Plug(k[..i], Plug(k[i..], c))
  {
    var rest := k[1..];
    if Loops(rest) >= n {
      var j := NthLoop(rest, n, c);
      i := j + 1;
      assert rest[j..] == k[i..] && k[..i][1..] == rest[..j];
    } else {
      i := 0;
      assert k[..0] == [] && k[0..] == k;
    }
  }

  function JumpOf(brk: bool, n: nat): (c: Command) { if brk then Break(n) else Continue(n) }

  // ---------------------------------------------------------------- getting there

  /** The scene in which the hole is reached, and what the buffer holds when the command is left from there. */
  datatype Arrival = Arrival(scene: Scene, output: string)

  /** The round of a loop in which the hole is reached: the buffer before its body, and the rounds left. */
  datatype Visit = Visit(at: Arrival, out: string, fuel: nat, items: seq<nat>)

  function Held(out: string, a: Option<Arrival>): (r: Option<Arrival>) {
    if a == None then None
    else match Append(out, a.value.output) case None => None case Some(all) => Some(a.value.(output := all))
  }

  function HeldIn(v: Option<Visit>): (r: Option<Arrival>) {
    if v == None then None else Held(v.value.out, Some(v.value.at))
  }

  /** Running `Plug(k, c)` gets to `c`, at a moment when all the buffers have room for what has been printed. */
  function Arrive(
      fx: Effects, o: Options, k: seq<Frame>, c: Command, s: Scene, p: Place, fuel: nat): (r: Option<Arrival>)
    decreases fuel, |k|, 0
  {
    if k == [] then Some(Arrival(s, ""))
    else
      var rest, all := k[1..], Plug(k, c);
      match k[0]
      case InList(before, condition, _) =>
        (match RunList(fx, o, all.entries, |before|, s, p, fuel)
         case None => None
         case Some((b, cut)) =>
           if cut || !Admits(condition, b.status) then None
           else Held(b.output, Arrive(fx, o, rest, c, b.scene, EntryPlace(all.entries, |before| + 1, p), fuel)))
      case InThen(value, test, _) =>
        ArriveBranch(fx, o, rest, c, RunTest(fx, o, value, test, s, p, fuel), true, p, fuel)
      case InElse(value, test, _) =>
        ArriveBranch(fx, o, rest, c, RunTest(fx, o, value, test, s, p, fuel), false, p, fuel)
      case InLoop(_, _, _) => HeldIn(ArriveLoop(fx, o, rest, c, all, s, p, "", fuel))
      case InFor(items) => HeldIn(ArriveFor(fx, o, rest, c, items, s, p, "", fuel))
  }

  /** In the branch for success or for failure of the condition, which ended with `t`. */
  function ArriveBranch(
      fx: Effects, o: Options, rest: seq<Frame>, c: Command, t: Option<Out>, success: bool, p: Place, fuel: nat)
      : (r: Option<Arrival>)
    decreases fuel, |rest|, 1
  {
    if t == None then None
    else
      match Append("", t.value.output)
      case None => None
      case Some(out) =>
        if !Goes(t.value) || (t.value.status == 0) != success then None
        else Held(out, Arrive(fx, o, rest, c, t.value.scene, p, fuel))
  }

  /** In the body of the loop `l`, in this round or a later one. */
  function ArriveLoop(
      fx: Effects, o: Options, rest: seq<Frame>, c: Command, l: Command, s: Scene, p: Place, out: string, fuel: nat)
      : (r: Option<Visit>)
    requires l.Loop?
    decreases fuel, |rest|, 1
  {
    if !s.world.running || fuel == 0 then None
    else
      match RunTest(fx, o, l.value, l.cond, s, Entered(p), fuel - 1)
      case None => None
      case Some(t) =>
        match Append(out, t.output)
        case None => None
        case Some(out') =>
          if !Goes(t) || (t.status == 0) == l.until then None
          else
            match Arrive(fx, o, rest, c, t.scene, BodyPlace(p), fuel - 1)
            case Some(a) => Some(Visit(a, out', fuel - 1, []))
            case None =>
              match Run(fx, o, l.body, t.scene, BodyPlace(p), fuel - 1)
              case None => None
              case Some(b) =>
                match Append(out', b.output)
                case None => None
                case Some(out'') =>
                  if React(p.depth + 1, b).Stop? then None
                  else ArriveLoop(fx, o, rest, c, l, b.scene, p, out'', fuel - 1)
  }

  /** In the body of a `for` loop over `items`, with one of them. */
  function ArriveFor(
      fx: Effects, o: Options, rest: seq<Frame>, c: Command, items: seq<nat>, s: Scene, p: Place, out: string,
      fuel: nat)
      : (r: Option<Visit>)
    decreases fuel, |rest|, 1, |items|
  {
    if items == [] || !s.world.running || !fx.bind(items[0], s.world.data).Bound? then None
    else
      var s' := WithData(s, fx.bind(items[0], s.world.data).data);
      match Arrive(fx, o, rest, c, s', BodyPlace(p), fuel)
      case Some(a) => Some(Visit(a, out, fuel, items[1..]))
      case None =>
        match Run(fx, o, Plug(rest, c), s', BodyPlace(p), fuel)
        case None => None
        case Some(b) =>
          match Append(out, b.output)
          case None => None
          case Some(out') =>
            if React(p.depth + 1, b).Stop? then None
            else ArriveFor(fx, o, rest, c, items[1..], b.scene, p, out', fuel)
  }

  // ---------------------------------------------------------------- getting out

  /** A jump that leads `n` loops out of `d`, all of them counted. */
  function Leaving(a: Arrival, brk: bool, n: nat, d: nat, p: Place): (r: Out) {
    Out(a.scene, Exit(brk, p.depth + d - n + 1), 0, a.output)
  }

  predicate Accepted(n: nat, k: seq<Frame>, p: Place) { Loops(k) < n <= MAX_COUNT && Loops(k) + p.nest > 0 }

  /** Where the count is above the number of loops around it, a jump leaves the whole command. */
  lemma {:induction false} Escapes(
      fx: Effects, o: Options, k: seq<Frame>, brk: bool, n: nat, s: Scene, p: Place, fuel: nat)
    requires Accepted(n, k, p) && Arrive(fx, o, k, JumpOf(brk, n), s, p, fuel).Some?
    ensures Run(fx, o, Plug(k, JumpOf(brk, n)), s, p, fuel)
         == Some(Leaving(Arrive(fx, o, k, JumpOf(brk, n), s, p, fuel).value, brk, n, Loops(k), p))
    decreases fuel, |k|, 0
  {
    if k != [] {
      if IsLoop(k[0]) {
        LoopEnds(fx, o, k, brk, n, s, p, fuel);
      } else if k[0].InList? {
        ListEscapes(fx, o, k, brk, n, s, p, fuel);
      } else {
        BranchEscapes(fx, o, k, brk, n, s, p, fuel);
      }
    }
  }

  lemma {:induction false} ListEscapes(
      fx: Effects, o: Options, k: seq<Frame>, brk: bool, n: nat, s: Scene, p: Place, fuel: nat)
    requires k != [] && k[0].InList?
    requires Accepted(n, k, p) && Arrive(fx, o, k, JumpOf(brk, n), s, p, fuel).Some?
    ensures Run(fx, o, Plug(k, JumpOf(brk, n)), s, p, fuel)
         == Some(Leaving(Arrive(fx, o, k, JumpOf(brk, n), s, p, fuel).value, brk, n, Loops(k), p))
    decreases fuel, |k| - 1, 1
  {
    var c, rest, i := JumpOf(brk, n), k[1..], |k[0].before|;
    var entries := Plug(k, c).entries;
    var b := RunList(fx, o, entries, i, s, p, fuel).value.0;
    var q := EntryPlace(entries, i + 1, p);
    Escapes(fx, o, rest, brk, n, b.scene, q, fuel);
    var a := Arrive(fx, o, rest, c, b.scene, q, fuel).value;
    EntryCuts(fx, o, entries, i, i + 1, s, p, b, Leaving(a, brk, n, Loops(rest), q), fuel);
  }

  /** An entry that ends with a jump ends the list. */
  lemma EntryCuts(
      fx: Effects, o: Options, entries: seq<ListEntry>, i: nat, next: nat, s: Scene, p: Place, b: Out, r: Out,
      fuel: nat)
    requires i < |entries| && next == i + 1 && r.flow.Exit? && Append(b.output, r.output).Some?
    requires RunList(fx, o, entries, i, s, p, fuel) == Some((b, false)) && Admits(entries[i].condition, b.status)
    requires Run(fx, o, entries[i].command, b.scene, EntryPlace(entries, next, p), fuel) == Some(r)
    ensures RunNode(fx, o, Sequence(entries), s, p, fuel)
         == Some(r.(output := Append(b.output, r.output).value))
  {
    assert RunList(fx, o, entries, next, s, p, fuel) == Some(Link(b.output, r));
    ChainStays(fx, o, entries, next, s, p, fuel);
  }

  lemma {:induction false} BranchEscapes(
      fx: Effects, o: Options, k: seq<Frame>, brk: bool, n: nat, s: Scene, p: Place, fuel: nat)
    requires k != [] && (k[0].InThen? || k[0].InElse?)
    requires Accepted(n, k, p) && Arrive(fx, o, k, JumpOf(brk, n), s, p, fuel).Some?
    ensures Run(fx, o, Plug(k, JumpOf(brk, n)), s, p, fuel)
         == Some(Leaving(Arrive(fx, o, k, JumpOf(brk, n), s, p, fuel).value, brk, n, Loops(k), p))
    decreases fuel, |k| - 1, 1
  {
    var c, rest, all := JumpOf(brk, n), k[1..], Plug(k, JumpOf(brk, n));
    var t := RunTest(fx, o, all.value, all.test, s, p, fuel).value;
    var out := Append("", t.output).value;
    var r := Run(fx, o, Plug(rest, c), t.scene, p, fuel);
    assert RunNode(fx, o, all, s, p, fuel) == Behind(out, r);
    assert Arrive(fx, o, k, c, s, p, fuel) == Held(out, Arrive(fx, o, rest, c, t.scene, p, fuel));
    Escapes(fx, o, rest, brk, n, t.scene, p, fuel);
  }

  /** A loop gets to the round of the visit, and its body ends with the jump. */
  lemma {:induction false} LoopVisits(
      fx: Effects, o: Options, rest: seq<Frame>, brk: bool, n: nat, l: Command, s: Scene, p: Place, last: int,
      out: string, fuel: nat)
    requires l.Loop? && l.body == Plug(rest, JumpOf(brk, n)) && Loops(rest) < n <= MAX_COUNT
    requires ArriveLoop(fx, o, rest, JumpOf(brk, n), l, s, p, out, fuel).Some?
    ensures var v := ArriveLoop(fx, o, rest, JumpOf(brk, n), l, s, p, out, fuel).value;
            RunLoop(fx, o, l, s, p, last, out, fuel) ==
            RunNext(fx, o, l, Leaving(v.at, brk, n, Loops(rest), BodyPlace(p)), p, v.out, v.fuel)
    decreases fuel, |rest|, 1
  {
    var c, q, less := JumpOf(brk, n), BodyPlace(p), fuel - 1;
    var t := RunTest(fx, o, l.value, l.cond, s, Entered(p), less).value;
    var out' := Append(out, t.output).value;
    if Arrive(fx, o, rest, c, t.scene, q, less).Some? {
      Escapes(fx, o, rest, brk, n, t.scene, q, less);
    } else {
      var b := Run(fx, o, l.body, t.scene, q, less).value;
      var last', out'' := React(p.depth + 1, b).last, Append(out', b.output).value;
      LoopVisits(fx, o, rest, brk, n, l, b.scene, p, last', out'', less);
      assert RunNext(fx, o, l, b, p, out', less) == RunLoop(fx, o, l, b.scene, p, last', out'', less);
      assert RunBody(fx, o, l, t, p, last, out, fuel) == RunNext(fx, o, l, b, p, out', less);
    }
  }

  lemma {:induction false} ForVisits(
      fx: Effects, o: Options, rest: seq<Frame>, brk: bool, n: nat, items: seq<nat>, s: Scene, p: Place, last: int,
      out: string, fuel: nat)
    requires Loops(rest) < n <= MAX_COUNT
    requires ArriveFor(fx, o, rest, JumpOf(brk, n), items, s, p, out, fuel).Some?
    ensures var v := ArriveFor(fx, o, rest, JumpOf(brk, n), items, s, p, out, fuel).value;
            RunFor(fx, o, items, Plug(rest, JumpOf(brk, n)), s, p, last, out, fuel) ==
            RunItem(fx, o, v.items, Plug(rest, JumpOf(brk, n)), Leaving(v.at, brk, n, Loops(rest), BodyPlace(p)), p,
              v.out, fuel)
    decreases fuel, |rest|, 1, |items|
  {
    var c, q := JumpOf(brk, n), BodyPlace(p);
    var s' := WithData(s, fx.bind(items[0], s.world.data).data);
    if Arrive(fx, o, rest, c, s', q, fuel).Some? {
      Escapes(fx, o, rest, brk, n, s', q, fuel);
    } else {
      var b := Run(fx, o, Plug(rest, c), s', q, fuel).value;
      ForVisits(fx, o, rest, brk, n, items[1..], b.scene, p, React(p.depth + 1, b).last, Append(out, b.output).value,
        fuel);
    }
  }

  /** What a loop makes of a jump out of its body that leaves `d` loops inside it. */
  lemma NextLeaves(
      fx: Effects, o: Options, l: Command, at: Arrival, brk: bool, n: nat, d: nat, p: Place, out: string, fuel: nat)
    requires l.Loop? && d < n && Append(out, at.output).Some?
    ensures var a := Arrival(at.scene, Append(out, at.output).value);
            RunNext(fx, o, l, Leaving(at, brk, n, d, BodyPlace(p)), p, out, fuel) ==
            if d + 1 < n then Some(Leaving(a, brk, n, d + 1, p))
            else if brk then Some(Out(a.scene, Normal, 0, a.output))
            else RunLoop(fx, o, l, a.scene, p, 0, a.output, fuel)
  {
  }

  lemma ItemLeaves(
      fx: Effects, o: Options, items: seq<nat>, body: Command, at: Arrival, brk: bool, n: nat, d: nat, p: Place,
      out: string, fuel: nat)
    requires d < n && Append(out, at.output).Some?
    ensures var a := Arrival(at.scene, Append(out, at.output).value);
            RunItem(fx, o, items, body, Leaving(at, brk, n, d, BodyPlace(p)), p, out, fuel) ==
            if d + 1 < n then Some(Leaving(a, brk, n, d + 1, p))
            else if brk then Some(Out(a.scene, Normal, 0, a.output))
            else RunFor(fx, o, items, body, a.scene, p, 0, a.output, fuel)
  {
  }

  /** The rounds of the loop `k[0]` after the one in which the hole is reached, starting with status 0. */
  function LaterRounds(
      fx: Effects, o: Options, k: seq<Frame>, c: Command, s: Scene, p: Place, fuel: nat): (r: Option<Out>)
    requires k != [] && IsLoop(k[0]) && Arrive(fx, o, k, c, s, p, fuel).Some?
  {
    var a, rest := Arrive(fx, o, k, c, s, p, fuel).value, k[1..];
    if k[0].InLoop? then
      var v := ArriveLoop(fx, o, rest, c, Plug(k, c), s, p, "", fuel).value;
      RunLoop(fx, o, Plug(k, c), a.scene, p, 0, a.output, v.fuel)
    else
      var v := ArriveFor(fx, o, rest, c, k[0].items, s, p, "", fuel).value;
      RunFor(fx, o, v.items, Plug(rest, c), a.scene, p, 0, a.output, fuel)
  }

  function Ended(o: Options, p: Place, r: Option<Out>): (r': Option<Out>) {
    if r == None then None else Some(EndLine(o, p, r.value))
  }

  /** A jump that leaves every loop inside the loop `k[0]` leaves it too, ends it, or starts its next round. */
  lemma {:induction false} LoopEnds(
      fx: Effects, o: Options, k: seq<Frame>, brk: bool, n: nat, s: Scene, p: Place, fuel: nat)
    requires k != [] && IsLoop(k[0]) && Loops(k) <= n <= MAX_COUNT
    requires Arrive(fx, o, k, JumpOf(brk, n), s, p, fuel).Some?
    ensures var a := Arrive(fx, o, k, JumpOf(brk, n), s, p, fuel).value;
            Run(fx, o, Plug(k, JumpOf(brk, n)), s, p, fuel) ==
            if Loops(k) < n then Some(Leaving(a, brk, n, Loops(k), p))
            else if brk then Some(Out(a.scene, Normal, 0, a.output))
            else Ended(o, p, LaterRounds(fx, o, k, JumpOf(brk, n), s, p, fuel))
    decreases fuel, |k| - 1, 2
  {
    var c, rest := JumpOf(brk, n), k[1..];
    if k[0].InLoop? {
      var l := Plug(k, c);
      var v := ArriveLoop(fx, o, rest, c, l, s, p, "", fuel).value;
      LoopVisits(fx, o, rest, brk, n, l, s, p, 0, "", fuel);
      NextLeaves(fx, o, l, v.at, brk, n, Loops(rest), p, v.out, v.fuel);
    } else {
      var body := Plug(rest, c);
      var v := ArriveFor(fx, o, rest, c, k[0].items, s, p, "", fuel).value;
      ForVisits(fx, o, rest, brk, n, k[0].items, s, p, 0, "", fuel);
      ItemLeaves(fx, o, v.items, body, v.at, brk, n, Loops(rest), p, v.out, fuel);
    }
  }

  // ---------------------------------------------------------------- the executor

  /** The shell `sh` in the scene of the arrival, without a signal. */
  function At(sh: Shell, a: Arrival): (r: Shell) {
    sh.(world := a.scene.world,
      counters := sh.counters.(loopDepth := sh.counters.loopDepth + a.scene.leaked))
  }

  /**
  The count of `break n` and `continue n` is exact, in any loop, round and surroundings. With
  more loops to leave than there are, they leave the whole command with the rest of the count
  pending; `break n` ends the n-th loop around it with status 0; `continue n` goes on with the
  next round of that loop. Nothing in between is run, and `errexit` does not matter.
  */
  lemma LoopCountIsExact(fx: Effects, k: seq<Frame>, brk: bool, n: nat, sh: Shell, fuel: nat)
    requires Quiet(sh) && 1 <= n <= MAX_COUNT && Loops(k) > 0
    requires Arrive(fx, sh.options, k, JumpOf(brk, n), Start(sh), PlaceOf(sh), fuel).Some?
    ensures var a := Arrive(fx, sh.options, k, JumpOf(brk, n), Start(sh), PlaceOf(sh), fuel).value;
            var r := Exec(fx, Plug(k, JumpOf(brk, n)), sh, fuel);
            (n > Loops(k) ==>
              var signal := if brk then BreakSignal else ContinueSignal;
              r == Some(Done(At(sh, a).(signal := signal, levels := n - Loops(k)), 0, a.output))) &&
            (n == Loops(k) && IsLoop(k[0]) && brk ==> r == Some(Done(At(sh, a), 0, a.output))) &&
            (n == Loops(k) && IsLoop(k[0]) && !brk ==>
              var more := LaterRounds(fx, sh.options, k, JumpOf(brk, n), Start(sh), PlaceOf(sh), fuel);
              r == LiftAll(sh, PlaceOf(sh), Ended(sh.options, PlaceOf(sh), more)))
  {
    var c, o, s, p := JumpOf(brk, n), sh.options, Start(sh), PlaceOf(sh);
    ExecRefines(fx, Plug(k, c), sh, p, s, fuel);
    if n > Loops(k) {
      Escapes(fx, o, k, brk, n, s, p, fuel);
    } else if n == Loops(k) && IsLoop(k[0]) {
      LoopEnds(fx, o, k, brk, n, s, p, fuel);
    }
  }
}
