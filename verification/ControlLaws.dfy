/**
The signal-based executor against a structured semantics. There, every loop around a command
has a label (1 for the outermost), `break n` names the label of the loop it leaves, lists are
read as left-associated chains, and the guards against `errexit` are a matter of position.
Two exits on too much output, which do not put the counters right, are told apart and counted.
*/
module ControlLaws {
  import opened Text
  import opened Control

  // ---------------------------------------------------------------- structured semantics

  /** How a command ends: at its end, by leaving for the loop with that label, or by returning. */
  datatype Flow = Normal | Exit(brk: bool, target: int) | Returning

  /**
  The world, with two counts since the beginning: loops left without lowering `loop_depth`,
  and loops that a jump left without being counted by it.
  */
  datatype Scene = Scene(world: World, leaked: nat, missed: nat)

  datatype Out = Out(scene: Scene, flow: Flow, status: int, output: string)

  /** Where a command stands: labelled loops around it, loops counted by the shell, guarded against `errexit`. */
  datatype Place = Place(depth: int, nest: nat, guarded: bool)

  predicate Goes(r: Out) { r.scene.world.running && r.flow == Normal }

  function EndLine(o: Options, p: Place, r: Out): (r': Out) {
    if r.status != 0 && !p.guarded && o.errexit
    then r.(scene := r.scene.(world := r.scene.world.(running := false))) else r
  }

  /** `break n` where `p.depth` loops are labelled: to the loop that is the n-th from inside. */
  function Jump(p: Place, s: Scene, brk: bool, n: nat): (r: Out) {
    var nest := p.nest + s.leaked;
    if nest == 0 then
      Out(s, Normal, 1, if brk then "break is only valid inside loops" else "continue is only valid inside loops")
    else if n < 1 || n > 1024 then
      Out(s, Normal, 1, if brk then "usage: break [positive-count]" else "usage: continue [positive-count]")
    else Out(s, Exit(brk, p.depth - n + 1), 0, "")
  }

  function WithData(s: Scene, data: Data): (s': Scene) { s.(world := s.world.(data := data)) }

  function Run(fx: Effects, o: Options, c: Command, s: Scene, p: Place, fuel: nat): (r: Option<Out>)
    ensures r.Some? && r.value.flow.Exit? ==> r.value.flow.target <= p.depth
    decreases fuel, c, 3
  {
    match c
    case Break(n) => Some(Jump(p, s, true, n))
    case Continue(n) => Some(Jump(p, s, false, n))
    case Return =>
      Some(if o.inFunction then Out(s, Returning, 0, "")
           else Out(s, Normal, 1, "return is only valid inside shell functions"))
    case _ => match RunNode(fx, o, c, s, p, fuel) case None => None case Some(r) => Some(EndLine(o, p, r))
  }

  /** A condition: true as a value is status 0. */
  function RunTest(fx: Effects, o: Options, value: nat, c: Command, s: Scene, p: Place, fuel: nat): (r: Option<Out>)
    ensures r.Some? && r.value.flow.Exit? ==> r.value.flow.target <= p.depth
    decreases fuel, c, 4
  {
    var reading := fx.read(value, s.world.data);
    var s' := WithData(s, reading.data);
    match reading.truth
    case Some(truth) => Some(Out(s', Normal, if truth then 0 else 1, ""))
    case None => Run(fx, o, c, s', p.(guarded := true), fuel)
  }

  function RunNode(fx: Effects, o: Options, c: Command, s: Scene, p: Place, fuel: nat): (r: Option<Out>)
    requires !c.Break? && !c.Continue? && !c.Return?
    ensures r.Some? && r.value.flow.Exit? ==> r.value.flow.target <= p.depth
    decreases fuel, c, 2
  {
    match c
    case Simple(id) =>
      var e := fx.run(id, s.world.data);
      Some(Out(s.(world := World(e.data, s.world.running && !e.stop)), Normal, e.status, e.output))
    case Sequence(entries) =>
      (match RunList(fx, o, entries, |entries|, s, p, fuel) case None => None case Some((r, _)) => Some(r))
    case If(value, test, yes, no) =>
      (match RunTest(fx, o, value, test, s, p, fuel)
       case None => None
       case Some(r) =>
         match Append("", r.output)
         case None => Some(TooLarge(r))
         case Some(out) =>
           if !Goes(r) then Some(r.(output := out))
           else if r.status == 0 then Behind(out, Run(fx, o, yes, r.scene, p, fuel))
           else if no.Some? then Behind(out, Run(fx, o, no.value, r.scene, p, fuel))
           else Some(Out(r.scene, Normal, 0, out)))
    case Loop(_, _, _, _) => RunLoop(fx, o, c, s, p, 0, "", fuel)
    case For(items, body) => RunFor(fx, o, items, body, s, p, 0, "", fuel)
  }

  /** The buffer around could not hold the output: the outcome is otherwise the same. */
  function TooLarge(r: Out): (r': Out) { r.(status := 1, output := "combined command output too large") }

  function Behind(out: string, r: Option<Out>): (r': Option<Out>) {
    if r == None then None
    else
      match Append(out, r.value.output)
      case None => Some(TooLarge(r.value))
      case Some(all) => Some(r.value.(output := all))
  }

  /** After a chain with this status: an entry behind `&&` runs if it is 0, one behind `||` if it is not. */
  predicate Admits(c: Condition, status: int) { c == Always || (c == OnSuccess) == (status == 0) }

  /** In front of `&&` or `||` an entry is guarded; `next` is the one behind it. */
  function EntryPlace(entries: seq<ListEntry>, next: nat, p: Place): (q: Place) {
    var followed := next < |entries| && (entries[next].condition == OnSuccess || entries[next].condition == OnFailure);
    p.(guarded := p.guarded || followed)
  }

  /**
  The first `n` entries as one left-associated chain: the status of the chain so far decides
  about the next entry. The flag says that the chain was cut short.
  */
  function RunList(
      fx: Effects, o: Options, entries: seq<ListEntry>, n: nat, s: Scene, p: Place, fuel: nat): (r: Option<(Out, bool)>)
    requires n <= |entries|
    ensures r.Some? && r.value.0.flow.Exit? ==> r.value.0.flow.target <= p.depth
    ensures r.Some? && !r.value.1 ==> r.value.0.flow == Normal
    decreases fuel, entries, n
  {
    if n == 0 then Some((Out(s, Normal, 0, ""), false))
    else
      match RunList(fx, o, entries, n - 1, s, p, fuel)
      case None => None
      case Some((before, cut)) =>
        var e := entries[n - 1];
        assert e.command < e;
        if cut || !Admits(e.condition, before.status) then Some((before, cut))
        else
          match Run(fx, o, e.command, before.scene, EntryPlace(entries, n, p), fuel)
          case None => None
          case Some(r) => Some(Link(before.output, r))
  }

  /** An entry that has run, behind the output of the chain before it. */
  function Link(out: string, r: Out): (l: (Out, bool))
    ensures l.0.flow == r.flow && (!l.1 ==> r.flow == Normal)
  {
    match Append(out, r.output)
    case None => (TooLarge(r), true)
    case Some(out') => (r.(output := out'), !Goes(r))
  }

  /** What a loop with label `mine` makes of the way its body ended. */
  datatype Reaction = Stop(flow: Flow, status: int) | Again(last: int)

  function React(mine: int, r: Out): (a: Reaction) {
    match r.flow
    case Normal => Again(r.status)
    case Returning => Stop(Returning, r.status)
    case Exit(brk, target) =>
      if target != mine then Stop(r.flow, r.status) else if brk then Stop(Normal, 0) else Again(0)
  }

  /** Inside a loop: the shell counts it, and its body stands inside its label. */
  function Entered(p: Place): (p': Place) { p.(nest := p.nest + 1) }

  function BodyPlace(p: Place): (p': Place) { p.(nest := p.nest + 1, depth := p.depth + 1) }

  /** The condition of a loop printed too much: the loop is left and still counted by the shell. */
  function Leak(r: Out): (r': Out) { TooLarge(r.(scene := r.scene.(leaked := r.scene.leaked + 1))) }

  /** The body of a loop printed too much: a jump out of it misses the loop, and leads to one further out. */
  function Miss(r: Out): (r': Out) {
    if r.flow.Exit? then
      TooLarge(r.(scene := r.scene.(missed := r.scene.missed + 1), flow := Exit(r.flow.brk, r.flow.target - 1)))
    else TooLarge(r)
  }

  /** A loop labelled `p.depth + 1`; its condition stands outside that label. */
  function RunLoop(
      fx: Effects, o: Options, c: Command, s: Scene, p: Place, last: int, out: string, fuel: nat): (r: Option<Out>)
    requires c.Loop?
    ensures r.Some? && r.value.flow.Exit? ==> r.value.flow.target <= p.depth
    decreases fuel, c, 1
  {
    if !s.world.running then Some(Out(s, Normal, last, out))
    else if fuel == 0 then None
    else
      match RunTest(fx, o, c.value, c.cond, s, Entered(p), fuel - 1)
      case None => None
      case Some(t) => RunBody(fx, o, c, t, p, last, out, fuel)
  }

  /** The round after its condition ended with `t`. */
  function RunBody(
      fx: Effects, o: Options, c: Command, t: Out, p: Place, last: int, out: string, fuel: nat): (r: Option<Out>)
    requires c.Loop? && fuel > 0 && (t.flow.Exit? ==> t.flow.target <= p.depth)
    ensures r.Some? && r.value.flow.Exit? ==> r.value.flow.target <= p.depth
    decreases fuel, c, 0
  {
    match Append(out, t.output)
    case None => Some(Leak(t))
    case Some(out') =>
      if !Goes(t) then Some(t.(output := out'))
      else if (t.status == 0) == c.until then Some(Out(t.scene, Normal, last, out'))
      else
        match Run(fx, o, c.body, t.scene, BodyPlace(p), fuel - 1)
        case None => None
        case Some(b) => RunNext(fx, o, c, b, p, out', fuel - 1)
  }

  /** The round after its body ended with `b`. */
  function RunNext(fx: Effects, o: Options, c: Command, b: Out, p: Place, out: string, fuel: nat): (r: Option<Out>)
    requires c.Loop? && (b.flow.Exit? ==> b.flow.target <= p.depth + 1)
    ensures r.Some? && r.value.flow.Exit? ==> r.value.flow.target <= p.depth
    decreases fuel, c, 2
  {
    match Append(out, b.output)
    case None => Some(Miss(b))
    case Some(out') =>
      match React(p.depth + 1, b)
      case Stop(flow, status) => Some(Out(b.scene, flow, status, out'))
      case Again(last) => RunLoop(fx, o, c, b.scene, p, last, out', fuel)
  }

  function RunFor(
      fx: Effects, o: Options, items: seq<nat>, body: Command, s: Scene, p: Place, last: int, out: string, fuel: nat)
      : (r: Option<Out>)
    ensures r.Some? && r.value.flow.Exit? ==> r.value.flow.target <= p.depth
    decreases fuel, body, 4, |items|, 0
  {
    if items == [] || !s.world.running then Some(Out(s, Normal, last, out))
    else
      match fx.bind(items[0], s.world.data)
      case Unprepared => Some(Out(s.(leaked := s.leaked + 1), Normal, 1, "unable to prepare for-loop item"))
      case Unassigned(data, message) => Some(Out(WithData(s, data), Normal, 1, message))
      case Bound(data) =>
        match Run(fx, o, body, WithData(s, data), BodyPlace(p), fuel)
        case None => None
        case Some(b) => RunItem(fx, o, items[1..], body, b, p, out, fuel)
  }

  function RunItem(
      fx: Effects, o: Options, items: seq<nat>, body: Command, b: Out, p: Place, out: string, fuel: nat)
      : (r: Option<Out>)
    requires b.flow.Exit? ==> b.flow.target <= p.depth + 1
    ensures r.Some? && r.value.flow.Exit? ==> r.value.flow.target <= p.depth
    decreases fuel, body, 4, |items|, 1
  {
    match Append(out, b.output)
    case None => Some(Miss(b))
    case Some(out') =>
      match React(p.depth + 1, b)
      case Stop(flow, status) => Some(Out(b.scene, flow, status, out'))
      case Again(last) => RunFor(fx, o, items, body, b.scene, p, last, out', fuel)
  }

  // ---------------------------------------------------------------- the signals tell the same

  predicate Quiet(sh: Shell) { sh.signal == NoSignal && sh.levels == 0 }

  /** The shell, without a pending signal, stands at `p` in `s`. */
  predicate Fits(sh: Shell, p: Place, s: Scene) {
    Quiet(sh) && sh.world == s.world && sh.counters.loopDepth == p.nest + s.leaked
    && p.guarded == (sh.counters.inCondition > 0 || sh.counters.suppressed > 0)
  }

  /** How a call from `sh` ends when its command, at `p`, ended with `r`. */
  function Lift(sh: Shell, p: Place, r: Out): (d: Done) {
    var s := sh.(world := r.scene.world, counters := sh.counters.(loopDepth := p.nest + r.scene.leaked));
    match r.flow
    case Normal => Done(s.(signal := NoSignal, levels := 0), r.status, r.output)
    case Returning => Done(s.(signal := ReturnSignal, levels := 1), r.status, r.output)
    case Exit(brk, t) =>
      Done(s.(signal := if brk then BreakSignal else ContinueSignal, levels := Levels(p.depth, t)), r.status, r.output)
  }

  /** Loops to leave from `depth` to reach the end of the loop labelled `target`. */
  function Levels(depth: int, target: int): (n: nat) { if target <= depth then depth - target + 1 else 0 }

  function LiftAll(sh: Shell, p: Place, r: Option<Out>): (res: Result) {
    if r == None then None else Some(Lift(sh, p, r.value))
  }

  /** The shells differ in the world, `loop_depth` and the signal only. */
  predicate Alike(sh0: Shell, sh: Shell) {
    sh.options == sh0.options && sh.counters == sh0.counters.(loopDepth := sh.counters.loopDepth)
  }

  lemma LiftAlike(sh0: Shell, sh: Shell, p: Place, r: Option<Out>)
    requires Alike(sh0, sh)
    ensures LiftAll(sh, p, r) == LiftAll(sh0, p, r)
  {
  }

  /**
  Refinement: from a shell without a pending signal, executing a command does exactly what the
  structured semantics says. `in_condition` and `errexit_suppressed` come back as they were,
  and `loop_depth` raised by the number of loops that were left while still counted.
  */
  lemma {:induction false} ExecRefines(fx: Effects, c: Command, sh: Shell, p: Place, s: Scene, fuel: nat)
    requires Fits(sh, p, s)
    ensures Exec(fx, c, sh, fuel) == LiftAll(sh, p, Run(fx, sh.options, c, s, p, fuel))
    decreases fuel, c, 3
  {
    match c
    case Break(n) => RaiseRefines(sh, p, s, true, n);
    case Continue(n) => RaiseRefines(sh, p, s, false, n);
    case Return =>
    case _ =>
      NodeRefines(fx, c, sh, p, s, fuel);
      var r := RunNode(fx, sh.options, c, s, p, fuel);
      if r.Some? { LineRefines(sh, p, r.value); }
  }

  lemma LineRefines(sh: Shell, p: Place, r: Out)
    requires p.guarded == (sh.counters.inCondition > 0 || sh.counters.suppressed > 0)
    ensures var d := Lift(sh, p, r);
            d.(shell := AfterLine(d.shell, d.status)) == Lift(sh, p, EndLine(sh.options, p, r))
  {
  }

  lemma RaiseRefines(sh: Shell, p: Place, s: Scene, brk: bool, n: nat)
    requires Fits(sh, p, s)
    ensures Raise(sh, if brk then BreakSignal else ContinueSignal, n) == Lift(sh, p, Jump(p, s, brk, n))
  {
  }

  /** The same for a shell that is like `sh0`. */
  lemma {:induction false} ExecFromAlike(
      fx: Effects, c: Command, sh0: Shell, sh: Shell, p: Place, s: Scene, fuel: nat)
    requires Fits(sh, p, s) && Alike(sh0, sh)
    ensures Exec(fx, c, sh, fuel) == LiftAll(sh0, p, Run(fx, sh0.options, c, s, p, fuel))
    decreases fuel, c, 4
  {
    ExecRefines(fx, c, sh, p, s, fuel);
    LiftAlike(sh0, sh, p, Run(fx, sh0.options, c, s, p, fuel));
  }

  /** A condition runs with `in_condition` raised. */
  function Tested(r: Result): (r': Result) {
    match r case None => None case Some(d) => Some(d.(shell := LeaveCondition(d.shell)))
  }

  lemma {:induction false} TestRefines(fx: Effects, value: nat, c: Command, sh: Shell, p: Place, s: Scene, fuel: nat)
    requires Fits(sh, p, s)
    ensures Tested(Test(fx, value, c, EnterCondition(sh), fuel))
         == LiftAll(sh, p, RunTest(fx, sh.options, value, c, s, p, fuel))
    decreases fuel, c, 5
  {
    var reading := fx.read(value, s.world.data);
    if reading.truth == None {
      var e := EnterCondition(sh);
      var sh' := e.(world := e.world.(data := reading.data));
      var s', q := WithData(s, reading.data), p.(guarded := true);
      ExecFromAlike(fx, c, e, sh', q, s', fuel);
      ConditionLift(sh, p, Run(fx, sh.options, c, s', q, fuel));
    }
  }

  lemma ConditionLift(sh: Shell, p: Place, r: Option<Out>)
    ensures Tested(LiftAll(EnterCondition(sh), p.(guarded := true), r)) == LiftAll(sh, p, r)
  {
  }

  lemma {:induction false} NodeRefines(fx: Effects, c: Command, sh: Shell, p: Place, s: Scene, fuel: nat)
    requires Fits(sh, p, s) && !c.Break? && !c.Continue? && !c.Return?
    ensures Node(fx, c, sh, fuel) == LiftAll(sh, p, RunNode(fx, sh.options, c, s, p, fuel))
    decreases fuel, c, 2
  {
    match c
    case Simple(_) =>
    case Sequence(entries) => ListRefines(fx, entries, 0, Out(s, Normal, 0, ""), sh, sh, p, s, fuel);
    case If(_, _, _, _) => IfRefines(fx, c, sh, p, s, fuel);
    case Loop(_, _, _, _) => LoopRefines(fx, c, sh, EnterLoop(sh), p, s, 0, "", fuel);
    case For(items, body) => ForRefines(fx, items, body, sh, EnterLoop(sh), p, s, 0, "", fuel);
  }

  lemma {:induction false} IfRefines(fx: Effects, c: Command, sh: Shell, p: Place, s: Scene, fuel: nat)
    requires Fits(sh, p, s) && c.If?
    ensures Node(fx, c, sh, fuel) == LiftAll(sh, p, RunNode(fx, sh.options, c, s, p, fuel))
    decreases fuel, c, 1
  {
    var o := sh.options;
    TestRefines(fx, c.value, c.test, sh, p, s, fuel);
    var t := RunTest(fx, o, c.value, c.test, s, p, fuel);
    if t.Some? && Append("", t.value.output).Some? && Goes(t.value) {
      var out := Append("", t.value.output).value;
      var sh', s' := Lift(sh, p, t.value).shell, t.value.scene;
      if t.value.status == 0 {
        ExecFromAlike(fx, c.then', sh, sh', p, s', fuel);
        BehindLift(out, sh, p, Run(fx, o, c.then', s', p, fuel));
      } else if c.else'.Some? {
        ExecFromAlike(fx, c.else'.value, sh, sh', p, s', fuel);
        BehindLift(out, sh, p, Run(fx, o, c.else'.value, s', p, fuel));
      }
    }
  }

  lemma BehindLift(out: string, sh: Shell, p: Place, r: Option<Out>)
    ensures Joined(out, LiftAll(sh, p, r)) == LiftAll(sh, p, Behind(out, r))
  {
  }

  // ---------------------------------------------------------------- lists

  /** The outcome of the first `i` entries decides the outcome of all once the chain is cut or stuck. */
  lemma {:induction false} ChainStays(
      fx: Effects, o: Options, entries: seq<ListEntry>, i: nat, s: Scene, p: Place, fuel: nat)
    requires i <= |entries|
    requires var r := RunList(fx, o, entries, i, s, p, fuel); r == None || r.value.1
    ensures RunList(fx, o, entries, |entries|, s, p, fuel) == RunList(fx, o, entries, i, s, p, fuel)
    decreases |entries| - i
  {
    if i < |entries| { ChainStays(fx, o, entries, i + 1, s, p, fuel); }
  }

  lemma SuppressLift(g: bool, sh: Shell, p: Place, r: Out)
    ensures Unsuppress(g, Lift(Suppress(g, sh), p.(guarded := p.guarded || g), r).shell) == Lift(sh, p, r).shell
  {
  }

  function Chain(r: Option<(Out, bool)>): (o: Option<Out>) { if r == None then None else Some(r.value.0) }

  /** From entry `i` on, with the chain before it run from `sh0` to `before` and not cut. */
  lemma {:induction false} ListRefines(
      fx: Effects, entries: seq<ListEntry>, i: nat, before: Out, sh0: Shell, sh: Shell, p: Place, s: Scene, fuel: nat)
    requires i <= |entries| && Fits(sh, p, before.scene) && Alike(sh0, sh) && before.flow == Normal
    requires RunList(fx, sh0.options, entries, i, s, p, fuel) == Some((before, false))
    ensures ExecList(fx, entries, i, before.status, before.output, sh, fuel)
         == LiftAll(sh0, p, Chain(RunList(fx, sh0.options, entries, |entries|, s, p, fuel)))
    decreases fuel, entries, |entries| - i
  {
    if i < |entries| {
      assert entries[i].command < entries[i];
      if !ShouldRun(entries[i].condition, before.status) {
        ListRefines(fx, entries, i + 1, before, sh0, sh, p, s, fuel);
      } else {
        EntryRefines(fx, entries, i, before, sh0, sh, p, s, fuel);
      }
    }
  }

  lemma {:induction false} EntryRefines(
      fx: Effects, entries: seq<ListEntry>, i: nat, before: Out, sh0: Shell, sh: Shell, p: Place, s: Scene, fuel: nat)
    requires i < |entries| && Fits(sh, p, before.scene) && Alike(sh0, sh) && before.flow == Normal
    requires ShouldRun(entries[i].condition, before.status)
    requires RunList(fx, sh0.options, entries, i, s, p, fuel) == Some((before, false))
    ensures ExecList(fx, entries, i, before.status, before.output, sh, fuel)
         == LiftAll(sh0, p, Chain(RunList(fx, sh0.options, entries, |entries|, s, p, fuel)))
    decreases fuel, entries, |entries| - i, 0
  {
    var o, e, next := sh0.options, entries[i], i + 1;
    assert e.command < e;
    var q := p.(guarded := p.guarded || Guarded(entries, i));
    ExecRefines(fx, e.command, Suppress(Guarded(entries, i), sh), q, before.scene, fuel);
    var r := Run(fx, o, e.command, before.scene, q, fuel);
    EntryShape(fx, entries, i, next, before, sh0, sh, p, r, fuel);
    if r == None || Link(before.output, r.value).1 {
      ChainStays(fx, o, entries, next, s, p, fuel);
    } else {
      ListRefines(fx, entries, next, Link(before.output, r.value).0, sh0, Lift(sh0, p, r.value).shell, p, s, fuel);
    }
  }

  /** One step of the list, with what the entry does given. */
  lemma EntryShape(
      fx: Effects, entries: seq<ListEntry>, i: nat, next: nat, before: Out, sh0: Shell, sh: Shell, p: Place,
      r: Option<Out>, fuel: nat)
    requires i < |entries| && next == i + 1 && Fits(sh, p, before.scene) && Alike(sh0, sh)
    requires ShouldRun(entries[i].condition, before.status)
    requires var g := Guarded(entries, i);
      Exec(fx, entries[i].command, Suppress(g, sh), fuel)
      == LiftAll(Suppress(g, sh), p.(guarded := p.guarded || g), r)
    ensures ExecList(fx, entries, i, before.status, before.output, sh, fuel) ==
      if r == None then None
      else
        var (after, cut) := Link(before.output, r.value);
        if cut then Some(Lift(sh0, p, after))
        else ExecList(fx, entries, next, after.status, after.output, Lift(sh0, p, r.value).shell, fuel)
  {
    if r.Some? {
      SuppressLift(Guarded(entries, i), sh, p, r.value);
      LiftAlike(sh0, sh, p, r);
    }
  }

  // ---------------------------------------------------------------- loops

  /** What is left to do after a body: the same for counted levels and for labels. */
  predicate SameReaction(sh: Shell, p: Place, r: Out, resolved: (Shell, Action)) {
    match React(p.depth + 1, r)
    case Again(last) =>
      resolved.0 == Lift(sh, Entered(p), Out(r.scene, Normal, last, "")).shell &&
      GoesOn(resolved.1) && last == AfterAction(resolved.1, r.status)
    case Stop(flow, status) =>
      (flow.Exit? ==> flow.target <= p.depth) &&
      LeaveLoop(resolved.0) == Lift(sh, p, Out(r.scene, flow, status, "")).shell &&
      !GoesOn(resolved.1) && status == AfterAction(resolved.1, r.status)
  }

  /** Counting levels down and comparing labels come to the same. */
  lemma ResolveReacts(sh: Shell, p: Place, r: Out)
    requires r.flow.Exit? ==> r.flow.target <= p.depth + 1
    ensures SameReaction(sh, p, r, Resolve(Lift(sh, BodyPlace(p), r).shell))
  {
  }

  /** A loop left on too much output of its body: levels that are not counted down are a label further out. */
  lemma MissLift(sh: Shell, p: Place, r: Out)
    requires r.flow.Exit? ==> r.flow.target <= p.depth + 1
    ensures Done(LeaveLoop(Lift(sh, BodyPlace(p), r).shell), 1, TOO_LARGE) == Lift(sh, p, Miss(r))
  {
  }

  lemma LeaveLift(sh: Shell, p: Place, r: Out)
    requires r.flow.Exit? ==> r.flow.target <= p.depth
    ensures LeaveLoop(Lift(sh, Entered(p), r).shell) == Lift(sh, p, r).shell
    ensures Done(Lift(sh, Entered(p), r).shell, 1, TOO_LARGE) == Lift(sh, p, Leak(r))
  {
  }

  /** A loop in progress, started from `sh0` at `p`. */
  lemma {:induction false} LoopRefines(
      fx: Effects, c: Command, sh0: Shell, sh: Shell, p: Place, s: Scene, last: int, out: string, fuel: nat)
    requires c.Loop? && Fits(sh, Entered(p), s) && Alike(sh0, sh)
    ensures ExecLoop(fx, c, sh, last, out, fuel)
         == LiftAll(sh0, p, RunLoop(fx, sh0.options, c, s, p, last, out, fuel))
    decreases fuel, c, 1
  {
    if !sh.world.running {
      LeaveLift(sh, p, Out(s, Normal, last, out));
    } else if fuel > 0 {
      var q, less := Entered(p), fuel - 1;
      TestRefines(fx, c.value, c.cond, sh, q, s, less);
      var t := RunTest(fx, sh.options, c.value, c.cond, s, q, less);
      LiftAlike(sh0, sh, q, t);
      if t.Some? { BodyRefines(fx, c, sh0, t.value, p, last, out, fuel); }
    }
  }

  lemma {:induction false} BodyRefines(
      fx: Effects, c: Command, sh: Shell, t: Out, p: Place, last: int, out: string, fuel: nat)
    requires c.Loop? && fuel > 0 && (t.flow.Exit? ==> t.flow.target <= p.depth)
    requires p.guarded == (sh.counters.inCondition > 0 || sh.counters.suppressed > 0)
    ensures ExecBody(fx, c, Lift(sh, Entered(p), t), last, out, fuel)
         == LiftAll(sh, p, RunBody(fx, sh.options, c, t, p, last, out, fuel))
    decreases fuel, c, 0
  {
    LeaveLift(sh, p, t);
    var a := Append(out, t.output);
    if a.Some? && Goes(t) && (t.status == 0) != c.until {
      var sh', q, less := Lift(sh, Entered(p), t).shell, BodyPlace(p), fuel - 1;
      ExecFromAlike(fx, c.body, sh, sh', q, t.scene, less);
      var b := Run(fx, sh.options, c.body, t.scene, q, less);
      if b.Some? { NextRefines(fx, c, sh, b.value, p, a.value, less); }
    }
  }

  lemma {:induction false} NextRefines(
      fx: Effects, c: Command, sh: Shell, b: Out, p: Place, out: string, fuel: nat)
    requires c.Loop? && (b.flow.Exit? ==> b.flow.target <= p.depth + 1)
    requires p.guarded == (sh.counters.inCondition > 0 || sh.counters.suppressed > 0)
    ensures NextRound(fx, c, Lift(sh, BodyPlace(p), b), out, fuel)
         == LiftAll(sh, p, RunNext(fx, sh.options, c, b, p, out, fuel))
    decreases fuel, c, 2
  {
    var a := Append(out, b.output);
    if a == None {
      MissLift(sh, p, b);
    } else {
      ResolveReacts(sh, p, b);
      var r := React(p.depth + 1, b);
      if r.Again? {
        var sh' := Lift(sh, Entered(p), Out(b.scene, Normal, r.last, "")).shell;
        LoopRefines(fx, c, sh, sh', p, b.scene, r.last, a.value, fuel);
      }
    }
  }

  lemma {:induction false} ForRefines(
      fx: Effects, items: seq<nat>, body: Command, sh0: Shell, sh: Shell, p: Place, s: Scene, last: int, out: string,
      fuel: nat)
    requires Fits(sh, Entered(p), s) && Alike(sh0, sh)
    ensures ExecFor(fx, items, body, sh, last, out, fuel)
         == LiftAll(sh0, p, RunFor(fx, sh0.options, items, body, s, p, last, out, fuel))
    decreases fuel, body, 5, |items|, 0
  {
    if items == [] || !sh.world.running {
      LeaveLift(sh, p, Out(s, Normal, last, out));
    } else {
      var bound := fx.bind(items[0], s.world.data);
      if bound.Bound? {
        var s', q := WithData(s, bound.data), BodyPlace(p);
        ExecFromAlike(fx, body, sh0, sh.(world := s'.world), q, s', fuel);
        var b := Run(fx, sh0.options, body, s', q, fuel);
        if b.Some? { ItemRefines(fx, items[1..], body, sh0, b.value, p, out, fuel); }
      }
    }
  }

  lemma {:induction false} ItemRefines(
      fx: Effects, items: seq<nat>, body: Command, sh: Shell, b: Out, p: Place, out: string, fuel: nat)
    requires b.flow.Exit? ==> b.flow.target <= p.depth + 1
    requires p.guarded == (sh.counters.inCondition > 0 || sh.counters.suppressed > 0)
    ensures NextItem(fx, items, body, Lift(sh, BodyPlace(p), b), out, fuel)
         == LiftAll(sh, p, RunItem(fx, sh.options, items, body, b, p, out, fuel))
    decreases fuel, body, 5, |items|, 1
  {
    var a := Append(out, b.output);
    if a == None {
      MissLift(sh, p, b);
    } else {
      ItemShape(fx, items, body, sh, b, p, out, a.value, fuel);
      var r := React(p.depth + 1, b);
      if r.Again? {
        var sh' := Lift(sh, Entered(p), Out(b.scene, Normal, r.last, "")).shell;
        ForRefines(fx, items, body, sh, sh', p, b.scene, r.last, a.value, fuel);
      }
    }
  }

  lemma ItemShape(
      fx: Effects, items: seq<nat>, body: Command, sh: Shell, b: Out, p: Place, out: string, out': string, fuel: nat)
    requires (b.flow.Exit? ==> b.flow.target <= p.depth + 1) && Append(out, b.output) == Some(out')
    ensures var next, a := NextItem(fx, items, body, Lift(sh, BodyPlace(p), b), out, fuel), React(p.depth + 1, b);
            next ==
            if a.Stop? then Some(Lift(sh, p, Out(b.scene, a.flow, a.status, out')))
            else
              var sh' := Lift(sh, Entered(p), Out(b.scene, Normal, a.last, "")).shell;
              ExecFor(fx, items, body, sh', a.last, out', fuel)
  {
    ResolveReacts(sh, p, b);
  }

  // ---------------------------------------------------------------- consequences

  function Start(sh: Shell): (s: Scene) { Scene(sh.world, 0, 0) }

  function PlaceOf(sh: Shell): (p: Place) {
    Place(0, sh.counters.loopDepth, sh.counters.inCondition > 0 || sh.counters.suppressed > 0)
  }

  /** What the structured semantics says of a command run outside all labelled loops. */
  function Outcome(fx: Effects, c: Command, sh: Shell, fuel: nat): (r: Option<Out>) {
    Run(fx, sh.options, c, Start(sh), PlaceOf(sh), fuel)
  }

  /**
  `in_condition` and `errexit_suppressed` come back as they were, `loop_depth` with the loops
  added that were left while still counted: all three come back exactly when there are none.
  */
  lemma CountersRestoredIff(fx: Effects, c: Command, sh: Shell, fuel: nat)
    requires Quiet(sh) && Exec(fx, c, sh, fuel).Some?
    ensures Outcome(fx, c, sh, fuel).Some?
    ensures var r, counters := Outcome(fx, c, sh, fuel).value, Exec(fx, c, sh, fuel).value.shell.counters;
            counters == sh.counters.(loopDepth := sh.counters.loopDepth + r.scene.leaked) &&
            (counters == sh.counters <==> r.scene.leaked == 0)
  {
    ExecRefines(fx, c, sh, PlaceOf(sh), Start(sh), fuel);
  }

  /** The condition, as a value or as a line, never prints anything. */
  ghost predicate Silent(fx: Effects, o: Options, value: nat, c: Command) {
    forall s, p, fuel ::
      var t := RunTest(fx, o, value, c, s, p, fuel); t.Some? ==> t.value.output == ""
  }

  /** No loop in `c` can be left while still counted. */
  ghost predicate Tidy(fx: Effects, o: Options, c: Command)
    decreases c
  {
    match c
    case Sequence(entries) => forall i :: 0 <= i < |entries| ==>
      (assert entries[i].command < entries[i]; Tidy(fx, o, entries[i].command))
    case If(_, test, yes, no) => Tidy(fx, o, test) && Tidy(fx, o, yes) && (no.Some? ==> Tidy(fx, o, no.value))
    case Loop(_, value, cond, body) => Silent(fx, o, value, cond) && Tidy(fx, o, cond) && Tidy(fx, o, body)
    case For(items, body) =>
      (forall i, data :: 0 <= i < |items| ==> !fx.bind(items[i], data).Unprepared?) && Tidy(fx, o, body)
    case _ => true
  }

  predicate GoodCount(n: nat, depth: nat) { n <= depth || n > MAX_COUNT }

  /** No `break` or `continue` counts more loops than there are bodies around it. */
  predicate Bounded(c: Command, depth: nat)
    decreases c
  {
    match c
    case Break(n) => GoodCount(n, depth)
    case Continue(n) => GoodCount(n, depth)
    case Sequence(entries) => forall i :: 0 <= i < |entries| ==>
      (assert entries[i].command < entries[i]; Bounded(entries[i].command, depth))
    case If(_, test, yes, no) => Bounded(test, depth) && Bounded(yes, depth) && (no.Some? ==> Bounded(no.value, depth))
    case Loop(_, _, cond, body) => Bounded(cond, depth) && Bounded(body, depth + 1)
    case For(_, body) => Bounded(body, depth + 1)
    case _ => true
  }

  /** Promises about a command: that it is tidy, that it is bounded. */
  datatype Promise = Promise(tidy: bool, bounded: bool)

  ghost predicate Holds(m: Promise, fx: Effects, o: Options, c: Command, p: Place) {
    (m.tidy ==> Tidy(fx, o, c)) && (m.bounded ==> p.depth >= 0 && Bounded(c, p.depth))
  }

  /** What they are good for: no loop is left while still counted, and a jump leads too far out only where it missed. */
  predicate Kept(m: Promise, s: Scene, r: Option<Out>) {
    r.Some? ==>
      (m.tidy ==> r.value.scene.leaked == s.leaked) &&
      (m.bounded && r.value.flow.Exit? ==> r.value.flow.target >= 1 - r.value.scene.missed)
  }

  lemma {:induction false} RunKeeps(
      m: Promise, fx: Effects, o: Options, c: Command, s: Scene, p: Place, fuel: nat)
    requires Holds(m, fx, o, c, p)
    ensures Kept(m, s, Run(fx, o, c, s, p, fuel))
    decreases fuel, c, 3
  {
    match c
    case Sequence(entries) => ListKeeps(m, fx, o, entries, |entries|, s, p, fuel);
    case If(_, _, _, _) => IfKeeps(m, fx, o, c, s, p, fuel);
    case Loop(_, _, _, _) => LoopKeeps(m, fx, o, c, s, p, 0, "", fuel);
    case For(items, body) => ForKeeps(m, fx, o, items, body, s, p, 0, "", fuel);
    case _ =>
  }

  lemma {:induction false} TestKeeps(
      m: Promise, fx: Effects, o: Options, value: nat, c: Command, s: Scene, p: Place, fuel: nat)
    requires Holds(m, fx, o, c, p)
    ensures Kept(m, s, RunTest(fx, o, value, c, s, p, fuel))
    decreases fuel, c, 4
  {
    RunKeeps(m, fx, o, c, WithData(s, fx.read(value, s.world.data).data), p.(guarded := true), fuel);
  }

  lemma {:induction false} IfKeeps(m: Promise, fx: Effects, o: Options, c: Command, s: Scene, p: Place, fuel: nat)
    requires c.If? && Holds(m, fx, o, c, p)
    ensures Kept(m, s, RunNode(fx, o, c, s, p, fuel))
    decreases fuel, c, 2
  {
    TestKeeps(m, fx, o, c.value, c.test, s, p, fuel);
    var t := RunTest(fx, o, c.value, c.test, s, p, fuel);
    if t.Some? {
      RunKeeps(m, fx, o, c.then', t.value.scene, p, fuel);
      if c.else'.Some? { RunKeeps(m, fx, o, c.else'.value, t.value.scene, p, fuel); }
    }
  }

  lemma {:induction false} ListKeeps(
      m: Promise, fx: Effects, o: Options, entries: seq<ListEntry>, n: nat, s: Scene, p: Place, fuel: nat)
    requires n <= |entries| && Holds(m, fx, o, Sequence(entries), p)
    ensures Kept(m, s, Chain(RunList(fx, o, entries, n, s, p, fuel)))
    decreases fuel, entries, n
  {
    if n > 0 {
      ListKeeps(m, fx, o, entries, n - 1, s, p, fuel);
      var before := RunList(fx, o, entries, n - 1, s, p, fuel);
      if before.Some? {
        assert entries[n - 1].command < entries[n - 1];
        RunKeeps(m, fx, o, entries[n - 1].command, before.value.0.scene, EntryPlace(entries, n, p), fuel);
      }
    }
  }

  lemma {:induction false} LoopKeeps(
      m: Promise, fx: Effects, o: Options, c: Command, s: Scene, p: Place, last: int, out: string, fuel: nat)
    requires c.Loop? && Holds(m, fx, o, c, p)
    ensures Kept(m, s, RunLoop(fx, o, c, s, p, last, out, fuel))
    decreases fuel, c, 1
  {
    if s.world.running && fuel > 0 {
      TestKeeps(m, fx, o, c.value, c.cond, s, Entered(p), fuel - 1);
      var t := RunTest(fx, o, c.value, c.cond, s, Entered(p), fuel - 1);
      if t.Some? {
        assert m.tidy ==> t.value.output == "";
        BodyKeeps(m, fx, o, c, t.value, p, last, out, fuel);
      }
    }
  }

  lemma {:induction false} BodyKeeps(
      m: Promise, fx: Effects, o: Options, c: Command, t: Out, p: Place, last: int, out: string, fuel: nat)
    requires c.Loop? && Holds(m, fx, o, c, p) && fuel > 0
    requires (t.flow.Exit? ==> t.flow.target <= p.depth) && (m.tidy ==> t.output == "") && Kept(m, t.scene, Some(t))
    ensures Kept(m, t.scene, RunBody(fx, o, c, t, p, last, out, fuel))
    decreases fuel, c, 0
  {
    var less := fuel - 1;
    RunKeeps(m, fx, o, c.body, t.scene, BodyPlace(p), less);
    var b := Run(fx, o, c.body, t.scene, BodyPlace(p), less);
    var a := Append(out, t.output);
    if b.Some? && a.Some? {
      NextKeeps(m, fx, o, c, b.value, p, a.value, less);
    }
  }

  lemma {:induction false} NextKeeps(
      m: Promise, fx: Effects, o: Options, c: Command, b: Out, p: Place, out: string, fuel: nat)
    requires c.Loop? && Holds(m, fx, o, c, p)
    requires (b.flow.Exit? ==> b.flow.target <= p.depth + 1) && Kept(m, b.scene, Some(b))
    ensures Kept(m, b.scene, RunNext(fx, o, c, b, p, out, fuel))
    decreases fuel, c, 2
  {
    var a, r := Append(out, b.output), React(p.depth + 1, b);
    if a.Some? && r.Again? { LoopKeeps(m, fx, o, c, b.scene, p, r.last, a.value, fuel); }
  }

  lemma {:induction false} ForKeeps(
      m: Promise, fx: Effects, o: Options, items: seq<nat>, body: Command, s: Scene, p: Place, last: int, out: string,
      fuel: nat)
    requires Holds(m, fx, o, For(items, body), p)
    ensures Kept(m, s, RunFor(fx, o, items, body, s, p, last, out, fuel))
    decreases fuel, body, 4, |items|
  {
    if items != [] && s.world.running {
      var bound := fx.bind(items[0], s.world.data);
      if bound.Bound? {
        var s' := WithData(s, bound.data);
        RunKeeps(m, fx, o, body, s', BodyPlace(p), fuel);
        var b := Run(fx, o, body, s', BodyPlace(p), fuel);
        if b.Some? {
          var a, r := Append(out, b.value.output), React(p.depth + 1, b.value);
          if a.Some? && r.Again? { ForKeeps(m, fx, o, items[1..], body, b.value.scene, p, r.last, a.value, fuel); }
        }
      }
    }
  }

  /** Commands whose loops have silent conditions and items that can be prepared restore all counters. */
  lemma TidyRestores(fx: Effects, c: Command, sh: Shell, fuel: nat)
    requires Quiet(sh) && Tidy(fx, sh.options, c) && Exec(fx, c, sh, fuel).Some?
    ensures Exec(fx, c, sh, fuel).value.shell.counters == sh.counters
  {
    CountersRestoredIff(fx, c, sh, fuel);
    RunKeeps(Promise(true, false), fx, sh.options, c, Start(sh), PlaceOf(sh), fuel);
  }

  /**
  A bounded command run outside all loops leaves no `break` or `continue` pending, except for
  as many levels as there were loops that a jump left without being counted by it.
  */
  lemma NoSignalEscapes(fx: Effects, c: Command, sh: Shell, fuel: nat)
    requires Quiet(sh) && Bounded(c, 0) && Exec(fx, c, sh, fuel).Some?
    ensures Outcome(fx, c, sh, fuel).Some?
    ensures var s, r := Exec(fx, c, sh, fuel).value.shell, Outcome(fx, c, sh, fuel).value;
            s.signal == NoSignal || s.signal == ReturnSignal || 1 <= s.levels <= r.scene.missed
  {
    ExecRefines(fx, c, sh, PlaceOf(sh), Start(sh), fuel);
    RunKeeps(Promise(false, true), fx, sh.options, c, Start(sh), PlaceOf(sh), fuel);
  }

  // ---------------------------------------------------------------- too much output

  /** Commands that succeed and print `text`, and conditions that have no value. */
  function Printing(text: string): (fx: Effects) {
    Effects((id, data) => Effect(data, 0, false, text), (id, data) => Reading(data, None), (id, data) => Bound(data))
  }

  lemma ConditionPrints(text: string, o: Options, s: Scene, p: Place, fuel: nat)
    ensures RunTest(Printing(text), o, 0, Simple(0), s, p, fuel) == Some(Out(s, Normal, 0, text))
  {
    var fx := Printing(text);
    assert WithData(s, s.world.data) == s;
    assert RunNode(fx, o, Simple(0), s, p.(guarded := true), fuel) == Some(Out(s, Normal, 0, text));
  }

  /**
  `while print; do :; done`: where two outputs of the condition are too much for the buffer,
  `loop_depth` stays raised.
  */
  lemma LeakyLoop(text: string, sh: Shell, fuel: nat)
    requires Quiet(sh) && sh.world.running && fuel >= 2
    requires |text| < MAX_OUTPUT <= |text| + 1 + |text|
    ensures var r := Exec(Printing(text), Loop(false, 0, Simple(0), Sequence([])), sh, fuel);
            r.Some? && r.value.shell.counters == sh.counters.(loopDepth := sh.counters.loopDepth + 1)
  {
    var fx, o, c, s, p := Printing(text), sh.options, Loop(false, 0, Simple(0), Sequence([])), Start(sh), PlaceOf(sh);
    var t, less := Out(s, Normal, 0, text), fuel - 1;
    ConditionPrints(text, o, s, Entered(p), less);
    ConditionPrints(text, o, s, Entered(p), less - 1);
    assert RunList(fx, o, [], 0, s, BodyPlace(p), less) == Some((Out(s, Normal, 0, ""), false));
    assert Run(fx, o, c.body, s, BodyPlace(p), less) == Some(Out(s, Normal, 0, ""));
    assert RunBody(fx, o, c, t, p, 0, text, less) == Some(Leak(t));
    assert RunLoop(fx, o, c, s, p, 0, text, less) == Some(Leak(t));
    assert RunNext(fx, o, c, Out(s, Normal, 0, ""), p, text, less) == Some(Leak(t));
    assert RunBody(fx, o, c, t, p, 0, "", fuel) == Some(Leak(t));
    assert RunNode(fx, o, c, s, p, fuel) == Some(Leak(t));
    ExecRefines(fx, c, sh, p, s, fuel);
  }

  /**
  `while print; do print; break; done`: where the two outputs are too much for the buffer, the
  loop is left with the `break` still to do one loop further out.
  */
  lemma MissedBreak(text: string, sh: Shell, fuel: nat, body: Command)
    requires Quiet(sh) && sh.world.running && fuel >= 1
    requires |text| < MAX_OUTPUT <= |text| + 1 + |text|
    requires body == Sequence([ListEntry(Always, Simple(0)), ListEntry(Always, Break(1))])
    ensures var r := Exec(Printing(text), Loop(false, 0, Simple(0), body), sh, fuel);
            r.Some? && r.value.shell.signal == BreakSignal && r.value.shell.levels == 1
  {
    var fx, o, c, s, p := Printing(text), sh.options, Loop(false, 0, Simple(0), body), Start(sh), PlaceOf(sh);
    var t, q, less := Out(s, Normal, 0, text), BodyPlace(p), fuel - 1;
    ConditionPrints(text, o, s, Entered(p), less);
    var es := body.entries;
    assert RunNode(fx, o, Simple(0), s, q, less) == Some(t);
    assert RunList(fx, o, es, 0, s, q, less) == Some((Out(s, Normal, 0, ""), false));
    assert RunList(fx, o, es, 1, s, q, less) == Some((t, false));
    var b := Out(s, Exit(true, p.depth + 1), 0, text);
    assert RunList(fx, o, es, 2, s, q, less) == Some((b, true));
    assert Run(fx, o, body, s, q, less) == Some(b);
    assert RunNext(fx, o, c, b, p, text, less) == Some(Miss(b));
    assert RunBody(fx, o, c, t, p, 0, "", fuel) == Some(Miss(b));
    assert RunNode(fx, o, c, s, p, fuel) == Some(Miss(b));
    ExecRefines(fx, c, sh, p, s, fuel);
  }

  // ---------------------------------------------------------------- fuel

  /** A run that ends with some fuel ends the same with more. */
  lemma {:induction false} MoreFuel(fx: Effects, o: Options, c: Command, s: Scene, p: Place, fuel: nat, more: nat)
    requires fuel <= more && Run(fx, o, c, s, p, fuel).Some?
    ensures Run(fx, o, c, s, p, more) == Run(fx, o, c, s, p, fuel)
    decreases fuel, c, 3
  {
    match c
    case Sequence(entries) => MoreFuelList(fx, o, entries, |entries|, s, p, fuel, more);
    case If(_, _, _, _) => MoreFuelIf(fx, o, c, s, p, fuel, more);
    case Loop(_, _, _, _) => MoreFuelLoop(fx, o, c, s, p, 0, "", fuel, more);
    case For(items, body) => MoreFuelFor(fx, o, items, body, s, p, 0, "", fuel, more);
    case _ =>
  }

  lemma {:induction false} MoreFuelTest(
      fx: Effects, o: Options, value: nat, c: Command, s: Scene, p: Place, fuel: nat, more: nat)
    requires fuel <= more && RunTest(fx, o, value, c, s, p, fuel).Some?
    ensures RunTest(fx, o, value, c, s, p, more) == RunTest(fx, o, value, c, s, p, fuel)
    decreases fuel, c, 4
  {
    var reading := fx.read(value, s.world.data);
    if reading.truth == None { MoreFuel(fx, o, c, WithData(s, reading.data), p.(guarded := true), fuel, more); }
  }

  lemma {:induction false} MoreFuelIf(fx: Effects, o: Options, c: Command, s: Scene, p: Place, fuel: nat, more: nat)
    requires fuel <= more && c.If? && RunNode(fx, o, c, s, p, fuel).Some?
    ensures RunNode(fx, o, c, s, p, more) == RunNode(fx, o, c, s, p, fuel)
    decreases fuel, c, 2
  {
    MoreFuelTest(fx, o, c.value, c.test, s, p, fuel, more);
    var t := RunTest(fx, o, c.value, c.test, s, p, fuel).value;
    if Append("", t.output).Some? && Goes(t) {
      if t.status == 0 {
        MoreFuel(fx, o, c.then', t.scene, p, fuel, more);
      } else if c.else'.Some? {
        MoreFuel(fx, o, c.else'.value, t.scene, p, fuel, more);
      }
    }
  }

  lemma {:induction false} MoreFuelList(
      fx: Effects, o: Options, entries: seq<ListEntry>, n: nat, s: Scene, p: Place, fuel: nat, more: nat)
    requires fuel <= more && n <= |entries| && RunList(fx, o, entries, n, s, p, fuel).Some?
    ensures RunList(fx, o, entries, n, s, p, more) == RunList(fx, o, entries, n, s, p, fuel)
    decreases fuel, entries, n
  {
    if n > 0 {
      MoreFuelList(fx, o, entries, n - 1, s, p, fuel, more);
      var (before, cut) := RunList(fx, o, entries, n - 1, s, p, fuel).value;
      var e := entries[n - 1];
      assert e.command < e;
      if !cut && Admits(e.condition, before.status) {
        MoreFuel(fx, o, e.command, before.scene, EntryPlace(entries, n, p), fuel, more);
      }
    }
  }

  lemma {:induction false} MoreFuelLoop(
      fx: Effects, o: Options, c: Command, s: Scene, p: Place, last: int, out: string, fuel: nat, more: nat)
    requires fuel <= more && c.Loop? && RunLoop(fx, o, c, s, p, last, out, fuel).Some?
    ensures RunLoop(fx, o, c, s, p, last, out, more) == RunLoop(fx, o, c, s, p, last, out, fuel)
    decreases fuel, c, 1
  {
    if s.world.running {
      MoreFuelTest(fx, o, c.value, c.cond, s, Entered(p), fuel - 1, more - 1);
      var t := RunTest(fx, o, c.value, c.cond, s, Entered(p), fuel - 1).value;
      MoreFuelBody(fx, o, c, t, p, last, out, fuel, more);
    }
  }

  lemma {:induction false} MoreFuelBody(
      fx: Effects, o: Options, c: Command, t: Out, p: Place, last: int, out: string, fuel: nat, more: nat)
    requires 0 < fuel <= more && c.Loop? && (t.flow.Exit? ==> t.flow.target <= p.depth)
    requires RunBody(fx, o, c, t, p, last, out, fuel).Some?
    ensures RunBody(fx, o, c, t, p, last, out, more) == RunBody(fx, o, c, t, p, last, out, fuel)
    decreases fuel, c, 0
  {
    var a := Append(out, t.output);
    if a.Some? && Goes(t) && (t.status == 0) != c.until {
      var less, less' := fuel - 1, more - 1;
      MoreFuel(fx, o, c.body, t.scene, BodyPlace(p), less, less');
      MoreFuelNext(fx, o, c, Run(fx, o, c.body, t.scene, BodyPlace(p), less).value, p, a.value, less, less');
    }
  }

  lemma {:induction false} MoreFuelNext(
      fx: Effects, o: Options, c: Command, b: Out, p: Place, out: string, fuel: nat, more: nat)
    requires fuel <= more && c.Loop? && (b.flow.Exit? ==> b.flow.target <= p.depth + 1)
    requires RunNext(fx, o, c, b, p, out, fuel).Some?
    ensures RunNext(fx, o, c, b, p, out, more) == RunNext(fx, o, c, b, p, out, fuel)
    decreases fuel, c, 2
  {
    var a, r := Append(out, b.output), React(p.depth + 1, b);
    if a.Some? && r.Again? { MoreFuelLoop(fx, o, c, b.scene, p, r.last, a.value, fuel, more); }
  }

  lemma {:induction false} MoreFuelFor(
      fx: Effects, o: Options, items: seq<nat>, body: Command, s: Scene, p: Place, last: int, out: string, fuel: nat,
      more: nat)
    requires fuel <= more && RunFor(fx, o, items, body, s, p, last, out, fuel).Some?
    ensures RunFor(fx, o, items, body, s, p, last, out, more) == RunFor(fx, o, items, body, s, p, last, out, fuel)
    decreases fuel, body, 4, |items|
  {
    if items != [] && s.world.running && fx.bind(items[0], s.world.data).Bound? {
      var s' := WithData(s, fx.bind(items[0], s.world.data).data);
      MoreFuel(fx, o, body, s', BodyPlace(p), fuel, more);
      var b := Run(fx, o, body, s', BodyPlace(p), fuel).value;
      var a, r := Append(out, b.output), React(p.depth + 1, b);
      if a.Some? && r.Again? { MoreFuelFor(fx, o, items[1..], body, b.scene, p, r.last, a.value, fuel, more); }
    }
  }

  /**
  The outcome of a run does not depend on the fuel, on either side: whenever the executor ends
  with one amount and the structured semantics with another, they end the same. With
  `ExecRefines` at every amount, the one never ends exactly when the other does not.
  */
  lemma OutcomeIsOne(fx: Effects, c: Command, sh: Shell, fuel: nat, fuel': nat)
    requires Quiet(sh) && Exec(fx, c, sh, fuel).Some? && Outcome(fx, c, sh, fuel').Some?
    ensures Exec(fx, c, sh, fuel) == LiftAll(sh, PlaceOf(sh), Outcome(fx, c, sh, fuel'))
    ensures Exec(fx, c, sh, fuel) == Exec(fx, c, sh, fuel')
  {
    var p, s := PlaceOf(sh), Start(sh);
    ExecRefines(fx, c, sh, p, s, fuel);
    ExecRefines(fx, c, sh, p, s, fuel');
    if fuel <= fuel' {
      MoreFuel(fx, sh.options, c, s, p, fuel, fuel');
    } else {
      MoreFuel(fx, sh.options, c, s, p, fuel', fuel);
    }
  }

  /** The executor ends with some fuel exactly when the structured semantics does. */
  lemma EndsAlike(fx: Effects, c: Command, sh: Shell)
    requires Quiet(sh)
    ensures (exists fuel: nat :: Exec(fx, c, sh, fuel).Some?) <==>
            (exists fuel: nat :: Outcome(fx, c, sh, fuel).Some?)
  {
    if fuel: nat :| Exec(fx, c, sh, fuel).Some? {
      ExecRefines(fx, c, sh, PlaceOf(sh), Start(sh), fuel);
      assert Outcome(fx, c, sh, fuel).Some?;
    }
    if fuel: nat :| Outcome(fx, c, sh, fuel).Some? {
      ExecRefines(fx, c, sh, PlaceOf(sh), Start(sh), fuel);
      assert Exec(fx, c, sh, fuel).Some?;
    }
  }
}
