/**
Control flow by signals: lists, conditionals and loops over a shell whose `break`, `continue`
and `return` raise a signal with a level counter that the loops resolve on the way out, and
whose output buffers can be too small for what the commands print.

A line is taken as the command it parses to. What simple commands, conditions read as values
and assignments of loop variables do is a parameter (`Effects`), and so is the number of loop
rounds a run may take (`fuel`): `None` stands for a run that is longer.
*/
module Control {
  import opened Text

  type Data = map<string, string>

  /** What a simple command does: new data, exit status, whether it makes the shell stop running, its output. */
  datatype Effect = Effect(data: Data, status: int, stop: bool, output: string)

  /** What reading a condition as a value does: new data, and whether the value is true, if it has one. */
  datatype Reading = Reading(data: Data, truth: Option<bool>)

  /** What giving an item to the variable of a `for` loop does. */
  datatype Binding =
    | Bound(data: Data)
    | Unprepared
    | Unassigned(data: Data, message: string)

  datatype Effects = Effects(run: (nat, Data) -> Effect, read: (nat, Data) -> Reading, bind: (nat, Data) -> Binding)

  datatype Condition = Always | OnSuccess | OnFailure

  /** A condition has a number as a value and is a command as a line; so have the items of a `for` loop numbers. */
  datatype Command =
    | Simple(id: nat)
    | Break(count: nat)
    | Continue(count: nat)
    | Return
    | Sequence(entries: seq<ListEntry>)
    | If(value: nat, test: Command, then': Command, else': Option<Command>)
    | Loop(until: bool, value: nat, cond: Command, body: Command)
    | For(items: seq<nat>, body: Command)

  datatype ListEntry = ListEntry(condition: Condition, command: Command)

  datatype Signal = NoSignal | BreakSignal | ContinueSignal | ReturnSignal

  /** Counters that surround a command. */
  datatype Counters = Counters(loopDepth: nat, inCondition: nat, suppressed: nat)

  /** Options that do not change during a run: `set -e`, and whether a function body is being run. */
  datatype Options = Options(errexit: bool, inFunction: bool)

  datatype World = World(data: Data, running: bool)

  datatype Shell = Shell(signal: Signal, levels: nat, counters: Counters, options: Options, world: World)

  /** How a call ends: the shell, the exit status and what is in the output buffer. */
  datatype Done = Done(shell: Shell, status: int, output: string)

  type Result = Option<Done>

  const MAX_COUNT := 1024   // largest count that `break` and `continue` accept

  const TOO_LARGE := "combined command output too large"
  const CANNOT_PREPARE := "unable to prepare for-loop item"
  const NO_FUNCTION := "return is only valid inside shell functions"

  // ---------------------------------------------------------------- pieces

  /** `should_run_list_entry` */
  function ShouldRun(c: Condition, previous: int): (b: bool) {
    match c
    case Always => true
    case OnSuccess => previous == 0
    case OnFailure => previous != 0
  }

  /** `append_output_segment`: the segment on a line of its own; None if the buffer cannot hold it. */
  function Append(out: string, segment: string): (r: Option<string>) {
    if segment == "" then Some(out)
    else
      var joined := if out == "" then segment else out + "\n" + segment;
      if |joined| < MAX_OUTPUT then Some(joined) else None
  }

  datatype Action = Nothing | DoBreak | DoContinue | Propagate

  /** `resolve_loop_control` */
  function Resolve(sh: Shell): (r: (Shell, Action)) {
    if sh.signal == NoSignal then (sh, Nothing)
    else if sh.signal == ReturnSignal then (sh, Propagate)
    else
      var levels := if sh.levels > 0 then sh.levels - 1 else 0;
      if levels == 0 then
        (sh.(signal := NoSignal, levels := 0), if sh.signal == BreakSignal then DoBreak else DoContinue)
      else (sh.(levels := levels), Propagate)
  }

  /** Whether a loop goes on after this action, and the status it ends or goes on with. */
  predicate GoesOn(a: Action) { a == Nothing || a == DoContinue }

  function AfterAction(a: Action, status: int): (s: int) { if a == DoBreak || a == DoContinue then 0 else status }

  /** `errexit`: a failing line outside conditions and guarded list entries stops the shell. */
  function AfterLine(sh: Shell, status: int): (r: Shell) {
    if status != 0 && sh.counters.inCondition == 0 && sh.counters.suppressed == 0 && sh.options.errexit
    then sh.(world := sh.world.(running := false)) else sh
  }

  /** The following entry makes this one part of an and-or list. */
  function Guarded(entries: seq<ListEntry>, i: nat): (b: bool) {
    i + 1 < |entries| && entries[i + 1].condition != Always
  }

  // ---------------------------------------------------------------- execution

  /** `arksh_shell_execute_line` on a parsed line. */
  function Exec(fx: Effects, c: Command, sh: Shell, fuel: nat): (r: Result)
    decreases fuel, c, 3
  {
    match c
    case Break(n) => Some(Raise(sh, BreakSignal, n))
    case Continue(n) => Some(Raise(sh, ContinueSignal, n))
    case Return =>
      Some(if sh.options.inFunction then Done(sh.(signal := ReturnSignal, levels := 1), 0, "")
           else Done(sh, 1, NO_FUNCTION))
    case _ =>
      match Node(fx, c, sh, fuel)
      case None => None
      case Some(d) => Some(d.(shell := AfterLine(d.shell, d.status)))
  }

  /** What a `break` or `continue` with this count prints if it is refused. */
  function Refusal(brk: bool, nested: bool): (s: string) {
    if !nested then (if brk then "break is only valid inside loops" else "continue is only valid inside loops")
    else if brk then "usage: break [positive-count]" else "usage: continue [positive-count]"
  }

  /** `handle_loop_control_line` */
  function Raise(sh: Shell, kind: Signal, n: nat): (r: Done) {
    if sh.counters.loopDepth == 0 || n == 0 || n > MAX_COUNT
    then Done(sh, 1, Refusal(kind == BreakSignal, sh.counters.loopDepth > 0))
    else Done(sh.(signal := kind, levels := n), 0, "")
  }

  /** `evaluate_condition_status`: the truth of the condition as a value, or the status of the line. */
  function Test(fx: Effects, value: nat, c: Command, sh: Shell, fuel: nat): (r: Result)
    decreases fuel, c, 4
  {
    var reading := fx.read(value, sh.world.data);
    var sh' := sh.(world := sh.world.(data := reading.data));
    if reading.truth.Some? then Some(Done(sh', if reading.truth.value then 0 else 1, ""))
    else Exec(fx, c, sh', fuel)
  }

  function Node(fx: Effects, c: Command, sh: Shell, fuel: nat): (r: Result)
    requires !c.Break? && !c.Continue? && !c.Return?
    decreases fuel, c, 2
  {
    match c
    case Simple(id) =>
      var e := fx.run(id, sh.world.data);
      Some(Done(sh.(world := World(e.data, sh.world.running && !e.stop)), e.status, e.output))
    case Sequence(entries) => ExecList(fx, entries, 0, 0, "", sh, fuel)
    case If(value, test, yes, no) =>
      (match Test(fx, value, test, EnterCondition(sh), fuel)
       case None => None
       case Some(d) =>
         var s := LeaveCondition(d.shell);
         match Append("", d.output)
         case None => Some(Done(s, 1, TOO_LARGE))
         case Some(out) =>
           if !s.world.running || s.signal != NoSignal then Some(Done(s, d.status, out))
           else if d.status == 0 then Joined(out, Exec(fx, yes, s, fuel))
           else if no.Some? then Joined(out, Exec(fx, no.value, s, fuel))
           else Some(Done(s, 0, out)))
    case Loop(_, _, _, _) => ExecLoop(fx, c, EnterLoop(sh), 0, "", fuel)
    case For(items, body) => ExecFor(fx, items, body, EnterLoop(sh), 0, "", fuel)
  }

  /** The output of a branch behind that of the condition. */
  function Joined(out: string, r: Result): (r': Result) {
    match r
    case None => None
    case Some(d) =>
      match Append(out, d.output)
      case None => Some(Done(d.shell, 1, TOO_LARGE))
      case Some(all) => Some(d.(output := all))
  }

  function Decrement(n: nat): (r: nat) { if n > 0 then n - 1 else 0 }

  function EnterCondition(sh: Shell): (r: Shell) {
    sh.(counters := sh.counters.(inCondition := sh.counters.inCondition + 1))
  }

  function LeaveCondition(sh: Shell): (r: Shell) {
    sh.(counters := sh.counters.(inCondition := Decrement(sh.counters.inCondition)))
  }

  function EnterLoop(sh: Shell): (r: Shell) { sh.(counters := sh.counters.(loopDepth := sh.counters.loopDepth + 1)) }

  function LeaveLoop(sh: Shell): (r: Shell) {
    sh.(counters := sh.counters.(loopDepth := Decrement(sh.counters.loopDepth)))
  }

  function Suppress(guarded: bool, sh: Shell): (r: Shell) {
    if guarded then sh.(counters := sh.counters.(suppressed := sh.counters.suppressed + 1)) else sh
  }

  function Unsuppress(guarded: bool, sh: Shell): (r: Shell) {
    if guarded then sh.(counters := sh.counters.(suppressed := Decrement(sh.counters.suppressed))) else sh
  }

  /** `execute_command_list` from entry `i` on, with `out` in the buffer. */
  function ExecList(
      fx: Effects, entries: seq<ListEntry>, i: nat, previous: int, out: string, sh: Shell, fuel: nat): (r: Result)
    requires i <= |entries|
    decreases fuel, entries, |entries| - i
  {
    if i == |entries| then Some(Done(sh, previous, out))
    else
      assert entries[i].command < entries[i];
      if !ShouldRun(entries[i].condition, previous) then ExecList(fx, entries, i + 1, previous, out, sh, fuel)
      else
        match Exec(fx, entries[i].command, Suppress(Guarded(entries, i), sh), fuel)
        case None => None
        case Some(d) =>
          var s := Unsuppress(Guarded(entries, i), d.shell);
          match Append(out, d.output)
          case None => Some(Done(s, 1, TOO_LARGE))
          case Some(out') =>
            if !s.world.running || s.signal != NoSignal then Some(Done(s, d.status, out'))
            else ExecList(fx, entries, i + 1, d.status, out', s, fuel)
  }

  /** A round of `execute_while_command` or `execute_until_command`; `last` is the status of the last body. */
  function ExecLoop(fx: Effects, c: Command, sh: Shell, last: int, out: string, fuel: nat): (r: Result)
    requires c.Loop?
    decreases fuel, c, 1
  {
    if !sh.world.running then Some(Done(LeaveLoop(sh), last, out))
    else if fuel == 0 then None
    else
      match Test(fx, c.value, c.cond, EnterCondition(sh), fuel - 1)
      case None => None
      case Some(d) => ExecBody(fx, c, d.(shell := LeaveCondition(d.shell)), last, out, fuel)
  }

  /** The round after its condition. Where its output is too much, `loop_depth` stays raised. */
  function ExecBody(fx: Effects, c: Command, tested: Done, last: int, out: string, fuel: nat): (r: Result)
    requires c.Loop? && fuel > 0
    decreases fuel, c, 0
  {
    var sh := tested.shell;
    match Append(out, tested.output)
    case None => Some(Done(sh, 1, TOO_LARGE))
    case Some(out') =>
      if !sh.world.running || sh.signal != NoSignal then Some(Done(LeaveLoop(sh), tested.status, out'))
      else if (tested.status == 0) == c.until then Some(Done(LeaveLoop(sh), last, out'))
      else
        match Exec(fx, c.body, sh, fuel - 1)
        case None => None
        case Some(d) => NextRound(fx, c, d, out', fuel - 1)
  }

  /** The round after its body. Where its output is too much, a signal is left as it is. */
  function NextRound(fx: Effects, c: Command, ran: Done, out: string, fuel: nat): (r: Result)
    requires c.Loop?
    decreases fuel, c, 2
  {
    match Append(out, ran.output)
    case None => Some(Done(LeaveLoop(ran.shell), 1, TOO_LARGE))
    case Some(out') =>
      var (sh, action) := Resolve(ran.shell);
      var s := AfterAction(action, ran.status);
      if GoesOn(action) then ExecLoop(fx, c, sh, s, out', fuel) else Some(Done(LeaveLoop(sh), s, out'))
  }

  /** A round of `execute_for_command`. Where an item cannot be prepared, `loop_depth` stays raised. */
  function ExecFor(
      fx: Effects, items: seq<nat>, body: Command, sh: Shell, last: int, out: string, fuel: nat): (r: Result)
    decreases fuel, body, 4, |items|, 0
  {
    if items == [] || !sh.world.running then Some(Done(LeaveLoop(sh), last, out))
    else
      match fx.bind(items[0], sh.world.data)
      case Unprepared => Some(Done(sh, 1, CANNOT_PREPARE))
      case Unassigned(data, message) =>
        Some(Done(LeaveLoop(sh.(world := sh.world.(data := data))), 1, message))
      case Bound(data) =>
        match Exec(fx, body, sh.(world := sh.world.(data := data)), fuel)
        case None => None
        case Some(d) => NextItem(fx, items[1..], body, d, out, fuel)
  }

  function NextItem(fx: Effects, items: seq<nat>, body: Command, ran: Done, out: string, fuel: nat): (r: Result)
    decreases fuel, body, 4, |items|, 1
  {
    match Append(out, ran.output)
    case None => Some(Done(LeaveLoop(ran.shell), 1, TOO_LARGE))
    case Some(out') =>
      var (sh, action) := Resolve(ran.shell);
      var s := AfterAction(action, ran.status);
      if GoesOn(action) then ExecFor(fx, items, body, sh, s, out', fuel) else Some(Done(LeaveLoop(sh), s, out'))
  }
}
