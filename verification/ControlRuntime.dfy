/** The executor as the source runs it: a shell object whose fields the commands update. */
module ControlRuntime {
  import opened Text
  import opened Control

  /** `append_output_segment` on a buffer; `ok` if there was room. */
  method AppendSegment(buffer: string, segment: string) returns (ok: bool, joined: string)
    ensures Append(buffer, segment) == if ok then Some(joined) else None
  {
    joined := buffer;
    if segment == "" { return true, joined; }
    if joined != "" {
      if |joined| + 1 >= MAX_OUTPUT { return false, joined; }
      joined := joined + "\n";
    }
    if |joined| + |segment| >= MAX_OUTPUT { return false, joined; }
    assert "" + segment == segment;
    return true, joined + segment;
  }

  class ShellObject {
    const fx: Effects
    const options: Options
    var signal: Signal
    var levels: nat
    var loopDepth: nat
    var inCondition: nat
    var suppressed: nat
    var running: bool
    var data: Data

    constructor (fx: Effects, options: Options, data: Data)
      ensures this.fx == fx && State() == Shell(NoSignal, 0, Counters(0, 0, 0), options, World(data, true))
    {
      this.fx, this.options, this.data := fx, options, data;
      signal, levels, loopDepth, inCondition, suppressed, running := NoSignal, 0, 0, 0, 0, true;
    }

    ghost function State(): (sh: Shell)
      reads this
    {
      Shell(signal, levels, Counters(loopDepth, inCondition, suppressed), options, World(data, running))
    }

    /** The call did what `r` says: None means that the fuel ran out. */
    ghost predicate Did(r: Result, status: Option<int>, out: string)
      reads this
    {
      match r
      case None => status == None
      case Some(d) => status.Some? && d == Done(State(), status.value, out)
    }

    /** `resolve_loop_control` */
    method ResolveLoopControl() returns (action: Action)
      modifies this
      ensures (State(), action) == Resolve(old(State()))
    {
      if signal == NoSignal { return Nothing; }
      if signal == ReturnSignal { return Propagate; }
      var kind := signal;
      if levels > 0 { levels := levels - 1; }
      if levels == 0 {
        signal, levels := NoSignal, 0;
        return if kind == BreakSignal then DoBreak else DoContinue;
      }
      return Propagate;
    }

    /** `handle_loop_control_line` */
    method LoopControlLine(kind: Signal, n: nat) returns (status: int, out: string)
      modifies this
      ensures Done(State(), status, out) == Raise(old(State()), kind, n)
    {
      if loopDepth == 0 { return 1, Refusal(kind == BreakSignal, false); }
      if n == 0 || n > MAX_COUNT { return 1, Refusal(kind == BreakSignal, true); }
      signal, levels := kind, n;
      return 0, "";
    }

    /** `arksh_shell_execute_line` */
    method ExecuteLine(c: Command, fuel: nat) returns (status: Option<int>, out: string)
      modifies this
      ensures Did(Exec(fx, c, old(State()), fuel), status, out)
      decreases fuel, c, 3
    {
      match c
      case Break(n) => var s; s, out := LoopControlLine(BreakSignal, n); return Some(s), out;
      case Continue(n) => var s; s, out := LoopControlLine(ContinueSignal, n); return Some(s), out;
      case Return =>
        if !options.inFunction { return Some(1), NO_FUNCTION; }
        signal, levels := ReturnSignal, 1;
        return Some(0), "";
      case _ =>
        status, out := ExecuteNode(c, fuel);
        if status.Some? && status.value != 0 && inCondition == 0 && suppressed == 0 && options.errexit {
          running := false;
        }
    }

    /** `evaluate_condition_status` */
    method EvaluateConditionStatus(value: nat, c: Command, fuel: nat) returns (status: Option<int>, out: string)
      modifies this
      ensures Did(Test(fx, value, c, old(State()), fuel), status, out)
      decreases fuel, c, 4
    {
      var reading := fx.read(value, data);
      data := reading.data;
      if reading.truth.Some? { return Some(if reading.truth.value then 0 else 1), ""; }
      status, out := ExecuteLine(c, fuel);
    }

    /** A condition runs with `in_condition` raised. */
    method TestCondition(value: nat, c: Command, fuel: nat) returns (status: Option<int>, out: string)
      modifies this
      ensures match Test(fx, value, c, EnterCondition(old(State())), fuel)
              case None => status == None
              case Some(d) => status.Some? && d.(shell := LeaveCondition(d.shell)) == Done(State(), status.value, out)
      decreases fuel, c, 5
    {
      inCondition := inCondition + 1;
      status, out := EvaluateConditionStatus(value, c, fuel);
      if status.Some? { inCondition := Decrement(inCondition); }
    }

    method ExecuteNode(c: Command, fuel: nat) returns (status: Option<int>, out: string)
      requires !c.Break? && !c.Continue? && !c.Return?
      modifies this
      ensures Did(Node(fx, c, old(State()), fuel), status, out)
      decreases fuel, c, 2
    {
      match c
      case Simple(id) =>
        var e := fx.run(id, data);
        data, running := e.data, running && !e.stop;
        return Some(e.status), e.output;
      case Sequence(entries) => status, out := ExecuteCommandList(entries, fuel);
      case If(_, _, _, _) => status, out := ExecuteIf(c, fuel);
      case Loop(_, _, _, _) => status, out := ExecuteLoop(c, fuel);
      case For(items, body) => status, out := ExecuteFor(items, body, fuel);
    }

    /** `execute_if_command` */
    method ExecuteIf(c: Command, fuel: nat) returns (status: Option<int>, out: string)
      requires c.If?
      modifies this
      ensures Did(Node(fx, c, old(State()), fuel), status, out)
      decreases fuel, c, 1
    {
      var ok, tested, segment;
      status, segment := TestCondition(c.value, c.test, fuel);
      if status == None { return None, ""; }
      ok, tested := AppendSegment("", segment);
      if !ok { return Some(1), TOO_LARGE; }
      if !running || signal != NoSignal { return status, tested; }
      if status.value == 0 {
        status, segment := ExecuteLine(c.then', fuel);
      } else if c.else'.Some? {
        status, segment := ExecuteLine(c.else'.value, fuel);
      } else {
        return Some(0), tested;
      }
      if status == None { return None, ""; }
      ok, out := AppendSegment(tested, segment);
      if !ok { return Some(1), TOO_LARGE; }
    }

    /** `execute_command_list` */
    method ExecuteCommandList(entries: seq<ListEntry>, fuel: nat) returns (status: Option<int>, out: string)
      modifies this
      ensures Did(ExecList(fx, entries, 0, 0, "", old(State()), fuel), status, out)
      decreases fuel, entries
    {
      ghost var all := ExecList(fx, entries, 0, 0, "", State(), fuel);
      var previous, i := 0, 0;
      out := "";
      while i < |entries|
        invariant i <= |entries| && all == ExecList(fx, entries, i, previous, out, State(), fuel)
      {
        assert entries[i].command < entries[i];
        if ShouldRun(entries[i].condition, previous) {
          var guarded := Guarded(entries, i);
          if guarded { suppressed := suppressed + 1; }
          var segment, ok;
          status, segment := ExecuteLine(entries[i].command, fuel);
          if status == None { return; }
          if guarded { suppressed := Decrement(suppressed); }
          previous := status.value;
          ok, out := AppendSegment(out, segment);
          if !ok { return Some(1), TOO_LARGE; }
          if !running || signal != NoSignal { return; }
        }
        i := i + 1;
      }
      return Some(previous), out;
    }

    /** `execute_while_command` and `execute_until_command` */
    method ExecuteLoop(c: Command, fuel: nat) returns (status: Option<int>, out: string)
      requires c.Loop?
      modifies this
      ensures Did(Node(fx, c, old(State()), fuel), status, out)
      decreases fuel, c, 1
    {
      loopDepth := loopDepth + 1;
      ghost var all := ExecLoop(fx, c, State(), 0, "", fuel);
      var last, left, again := 0, fuel, true;
      out := "";
      while running
        invariant 0 <= left <= fuel && all == ExecLoop(fx, c, State(), last, out, left)
        decreases left
      {
        if left == 0 { return None, out; }
        status, out, again := LoopRound(c, last, out, left);
        if !again { return; }
        last := status.value;
        left := left - 1;
      }
      loopDepth := Decrement(loopDepth);
      return Some(last), out;
    }

    /** A round of a loop; `again` with the new last status if there is a next one. */
    method LoopRound(c: Command, last: int, before: string, fuel: nat)
      returns (status: Option<int>, out: string, again: bool)
      requires c.Loop? && running && fuel > 0
      modifies this
      ensures !again ==> Did(ExecLoop(fx, c, old(State()), last, before, fuel), status, out)
      ensures again ==> status.Some?
      ensures again ==>
        ExecLoop(fx, c, old(State()), last, before, fuel) ==
        ExecLoop(fx, c, State(), status.value, out, fuel - 1)
      decreases fuel, c, 0
    {
      var segment;
      status, segment := TestCondition(c.value, c.cond, fuel - 1);
      if status == None { return None, "", false; }
      status, out, again := LoopBody(c, status.value, segment, last, before, fuel);
    }

    /** The round after its condition. */
    method LoopBody(c: Command, tested: int, segment: string, last: int, before: string, fuel: nat)
      returns (status: Option<int>, out: string, again: bool)
      requires c.Loop? && fuel > 0
      modifies this
      ensures !again ==> Did(ExecBody(fx, c, Done(old(State()), tested, segment), last, before, fuel), status, out)
      ensures again ==> status.Some?
      ensures again ==>
        ExecBody(fx, c, Done(old(State()), tested, segment), last, before, fuel) ==
        ExecLoop(fx, c, State(), status.value, out, fuel - 1)
      decreases fuel, c, 0, 0
    {
      var ok;
      again := false;
      ok, out := AppendSegment(before, segment);
      if !ok { return Some(1), TOO_LARGE, false; }
      if !running || signal != NoSignal {
        loopDepth := Decrement(loopDepth);
        return Some(tested), out, false;
      }
      if (tested == 0) == c.until {
        loopDepth := Decrement(loopDepth);
        return Some(last), out, false;
      }
      var printed;
      status, printed := ExecuteLine(c.body, fuel - 1);
      if status.Some? {
        status, out, again := LoopNext(c, status.value, printed, out, fuel - 1);
      }
    }

    /** The round after its body. */
    method LoopNext(c: Command, ran: int, segment: string, before: string, ghost fuel: nat)
      returns (status: Option<int>, out: string, again: bool)
      requires c.Loop?
      modifies this
      ensures !again ==> Did(NextRound(fx, c, Done(old(State()), ran, segment), before, fuel), status, out)
      ensures again ==> status.Some?
      ensures again ==>
        NextRound(fx, c, Done(old(State()), ran, segment), before, fuel) ==
        ExecLoop(fx, c, State(), status.value, out, fuel)
    {
      var ok, action;
      ok, out := AppendSegment(before, segment);
      if !ok {
        loopDepth := Decrement(loopDepth);
        return Some(1), TOO_LARGE, false;
      }
      action := ResolveLoopControl();
      again := GoesOn(action);
      if !again { loopDepth := Decrement(loopDepth); }
      status := Some(AfterAction(action, ran));
    }

    /** `execute_for_command` */
    method ExecuteFor(items: seq<nat>, body: Command, fuel: nat) returns (status: Option<int>, out: string)
      modifies this
      ensures Did(ExecFor(fx, items, body, EnterLoop(old(State())), 0, "", fuel), status, out)
      decreases fuel, body, 5
    {
      loopDepth := loopDepth + 1;
      ghost var all := ExecFor(fx, items, body, State(), 0, "", fuel);
      var last, i, again := 0, 0, true;
      out := "";
      ghost var left := items;
      while i < |items| && running
        invariant i <= |items| && left == items[i..] && all == ExecFor(fx, left, body, State(), last, out, fuel)
      {
        assert left[0] == items[i] && left[1..] == items[i + 1..];
        status, out, again := ForRound(items[i], left, body, last, out, fuel);
        if !again { return; }
        last, i, left := status.value, i + 1, left[1..];
      }
      loopDepth := Decrement(loopDepth);
      return Some(last), out;
    }

    /** A round with `item`, the first of the items left; `again` if the loop goes on with the others. */
    method ForRound(item: nat, ghost items: seq<nat>, body: Command, last: int, before: string, fuel: nat)
      returns (status: Option<int>, out: string, again: bool)
      requires running && items != [] && items[0] == item
      modifies this
      ensures !again ==> Did(ExecFor(fx, items, body, old(State()), last, before, fuel), status, out)
      ensures again ==> status.Some?
      ensures again ==>
        ExecFor(fx, items, body, old(State()), last, before, fuel) ==
        ExecFor(fx, items[1..], body, State(), status.value, out, fuel)
      decreases fuel, body, 4
    {
      again := false;
      match fx.bind(item, data)
      case Unprepared => return Some(1), CANNOT_PREPARE, false;
      case Unassigned(d, message) =>
        data, loopDepth := d, Decrement(loopDepth);
        return Some(1), message, false;
      case Bound(d) =>
        data := d;
        var segment;
        status, segment := ExecuteLine(body, fuel);
        if status == None { return None, "", false; }
        status, out, again := ItemNext(items[1..], body, status.value, segment, before, fuel);
    }

    /** The round after its body. */
    method ItemNext(ghost rest: seq<nat>, body: Command, ran: int, segment: string, before: string, ghost fuel: nat)
      returns (status: Option<int>, out: string, again: bool)
      modifies this
      ensures !again ==> Did(NextItem(fx, rest, body, Done(old(State()), ran, segment), before, fuel), status, out)
      ensures again ==> status.Some?
      ensures again ==>
        NextItem(fx, rest, body, Done(old(State()), ran, segment), before, fuel) ==
        ExecFor(fx, rest, body, State(), status.value, out, fuel)
    {
      var ok, action;
      ok, out := AppendSegment(before, segment);
      if !ok {
        loopDepth := Decrement(loopDepth);
        return Some(1), TOO_LARGE, false;
      }
      action := ResolveLoopControl();
      again := GoesOn(action);
      if !again { loopDepth := Decrement(loopDepth); }
      status := Some(AfterAction(action, ran));
    }
  }
}
