/**
What the executor does with lists, in terms of exit statuses and printed texts: which entries
behind `&&` and `||` run, what a skipped one leaves, and how the outputs are put together.
*/
module ControlLists {
  import opened Text
  import opened Control
  import F = Fields

  /** Nothing keeps a list from going on to its next entry. */
  predicate Calm(sh: Shell) { sh.world.running && sh.signal == NoSignal }

  /**
  `a && b` and `a || b`: the first command runs guarded against `errexit`. The second one runs,
  with its output below, exactly if the status of the first is 0 (`&&`) or is not 0 (`||`), and
  otherwise shell, status and output are those of the first.
  */
  lemma AndOrRuns(fx: Effects, a: Command, both: bool, b: Command, sh: Shell, fuel: nat)
    ensures var entries := [ListEntry(Always, a), ListEntry(if both then OnSuccess else OnFailure, b)];
            var first := Exec(fx, a, Suppress(true, sh), fuel);
            ExecList(fx, entries, 0, 0, "", sh, fuel) ==
            if first == None then None
            else
              var d := first.value.(shell := Unsuppress(true, first.value.shell));
              if |d.output| >= 8192 then Some(Done(d.shell, 1, "combined command output too large"))
              else if Calm(d.shell) && (d.status == 0 <==> both) then Joined(d.output, Exec(fx, b, d.shell, fuel))
              else Some(d)
  {
    var entries := [ListEntry(Always, a), ListEntry(if both then OnSuccess else OnFailure, b)];
    assert entries[1].command == b && Guarded(entries, 0) && !Guarded(entries, 1);
    var first := Exec(fx, a, Suppress(true, sh), fuel);
    if first.Some? && |first.value.output| < 8192 {
      var d := first.value.(shell := Unsuppress(true, first.value.shell));
      assert Append("", d.output) == Some(d.output);
      if Calm(d.shell) { SecondEntry(fx, entries, d, fuel); }
    }
  }

  lemma SecondEntry(fx: Effects, entries: seq<ListEntry>, d: Done, fuel: nat)
    requires |entries| == 2 && entries[1].condition != Always && Calm(d.shell)
    ensures ExecList(fx, entries, 1, d.status, d.output, d.shell, fuel) ==
            if d.status == 0 <==> entries[1].condition == OnSuccess
            then Joined(d.output, Exec(fx, entries[1].command, d.shell, fuel)) else Some(d)
  {
  }

  /** After success a stretch of `||` entries is skipped, after failure one of `&&` entries, and nothing changes. */
  lemma {:induction false} StretchIsSkipped(
      fx: Effects, entries: seq<ListEntry>, i: nat, j: nat, status: int, out: string, sh: Shell, fuel: nat)
    requires i <= j <= |entries|
    requires forall k :: i <= k < j ==> entries[k].condition == if status == 0 then OnFailure else OnSuccess
    ensures ExecList(fx, entries, i, status, out, sh, fuel) == ExecList(fx, entries, j, status, out, sh, fuel)
    decreases j - i
  {
    if i < j { StretchIsSkipped(fx, entries, i + 1, j, status, out, sh, fuel); }
  }

  /** Any other entry runs: one behind `;`, one behind `&&` after success, one behind `||` after failure. */
  lemma OthersRun(fx: Effects, entries: seq<ListEntry>, i: nat, status: int, out: string, sh: Shell, fuel: nat)
    requires i < |entries| && entries[i].condition != if status == 0 then OnFailure else OnSuccess
    ensures var ran := Exec(fx, entries[i].command, Suppress(Guarded(entries, i), sh), fuel);
            var r := ExecList(fx, entries, i, status, out, sh, fuel);
            if ran == None then r == None
            else
              var d := ran.value.(shell := Unsuppress(Guarded(entries, i), ran.value.shell));
              if Append(out, d.output) == None then r == Some(Done(d.shell, 1, TOO_LARGE))
              else
                var all := Append(out, d.output).value;
                r == if Calm(d.shell) then ExecList(fx, entries, i + 1, d.status, all, d.shell, fuel)
                     else Some(d.(output := all))
  {
  }

  // ---------------------------------------------------------------- the output of a list

  /** The non-empty outputs of simple commands that run one after the other. */
  function Printouts(fx: Effects, ids: seq<nat>, data: Data): (texts: seq<string>) {
    if ids == [] then []
    else
      var e := fx.run(ids[0], data);
      (if e.output == "" then [] else [e.output]) + Printouts(fx, ids[1..], e.data)
  }

  function ListOf(ids: seq<nat>): (entries: seq<ListEntry>) {
    seq(|ids|, i requires 0 <= i < |ids| => ListEntry(Always, Simple(ids[i])))
  }

  predicate NonEmpty(texts: seq<string>) { forall i :: 0 <= i < |texts| ==> texts[i] != "" }

  lemma {:induction false} JoinLast(texts: seq<string>, t: string, c: char)
    ensures F.Join(texts + [t], c) == if texts == [] then t else F.Join(texts, c) + ([c] + t)
  {
    if |texts| == 1 {
      assert texts + [t] == [texts[0], t] && [texts[0], t][1..] == [t];
      Assoc(texts[0], [c], t);
    } else if texts != [] {
      assert (texts + [t])[1..] == texts[1..] + [t];
      JoinLast(texts[1..], t, c);
      Assoc(texts[0] + [c], F.Join(texts[1..], c), [c] + t);
    }
  }

  lemma {:induction false} JoinGrows(texts: seq<string>, more: seq<string>, c: char)
    ensures |F.Join(texts + more, c)| >= |F.Join(texts, c)|
    ensures texts != [] && texts[0] != "" ==> F.Join(texts, c) != ""
    decreases |more|
  {
    if more == [] {
      assert texts + more == texts;
    } else {
      var t, rest := more[0], more[1..];
      assert texts + more == (texts + [t]) + rest;
      JoinLast(texts, t, c);
      JoinGrows(texts + [t], rest, c);
    }
  }

  /** With the outputs `before` in the buffer, from entry `i` on. */
  lemma {:induction false} ListPrintsFrom(
      fx: Effects, ids: seq<nat>, i: nat, status: int, before: seq<string>, sh: Shell, fuel: nat)
    requires i <= |ids| && Calm(sh) && !sh.options.errexit && NonEmpty(before)
    requires forall id, data :: !fx.run(id, data).stop
    requires |F.Join(before, '\n')| < 8192
    ensures var text := F.Join(before + Printouts(fx, ids[i..], sh.world.data), '\n');
            var r := ExecList(fx, ListOf(ids), i, status, F.Join(before, '\n'), sh, fuel);
            r.Some? && r.value.output == if |text| < 8192 then text else "combined command output too large"
    decreases |ids| - i
  {
    var entries, out := ListOf(ids), F.Join(before, '\n');
    if i == |ids| {
      assert ids[i..] == [] && before + [] == before;
    } else {
      var e, rest := fx.run(ids[i], sh.world.data), ids[i + 1..];
      assert ids[i..][0] == ids[i] && ids[i..][1..] == rest;
      var after := before + if e.output == "" then [] else [e.output];
      var more := Printouts(fx, rest, e.data);
      assert before + Printouts(fx, ids[i..], sh.world.data) == after + more;
      var next := i + 1;
      OneMore(fx, ids, i, next, status, before, after, sh, fuel);
      JoinGrows(after, more, '\n');
      if |F.Join(after, '\n')| < 8192 {
        ListPrintsFrom(fx, ids, next, e.status, after, sh.(world := World(e.data, true)), fuel);
      }
    }
  }

  /** One command of the list: its output, if there is one, is below the others if there are any. */
  lemma OneMore(
      fx: Effects, ids: seq<nat>, i: nat, next: nat, status: int, before: seq<string>, after: seq<string>, sh: Shell,
      fuel: nat)
    requires i < |ids| && next == i + 1 && Calm(sh) && !sh.options.errexit && NonEmpty(before)
    requires !fx.run(ids[i], sh.world.data).stop
    requires var text := fx.run(ids[i], sh.world.data).output;
             after == before + (if text == "" then [] else [text]) && |F.Join(before, '\n')| < 8192
    ensures var e, r := fx.run(ids[i], sh.world.data),
              ExecList(fx, ListOf(ids), i, status, F.Join(before, '\n'), sh, fuel);
            if |F.Join(after, '\n')| < 8192
            then r == ExecList(fx, ListOf(ids), next, e.status, F.Join(after, '\n'), sh.(world := World(e.data, true)),
              fuel)
            else r.Some? && r.value.output == "combined command output too large"
  {
    var e, out := fx.run(ids[i], sh.world.data), F.Join(before, '\n');
    JoinLast(before, e.output, '\n');
    JoinGrows(before, [], '\n');
    assert before + [] == before;
    assert out + ("\n" + e.output) == out + "\n" + e.output;
    var entries, done := ListOf(ids), sh.(world := World(e.data, true));
    assert entries[i] == ListEntry(Always, Simple(ids[i])) && !Guarded(entries, i);
    assert Exec(fx, Simple(ids[i]), sh, fuel) == Some(Done(done, e.status, e.output));
    OthersRun(fx, entries, i, status, out, sh, fuel);
    assert Append(out, e.output) ==
      if |F.Join(after, '\n')| < 8192 then Some(F.Join(after, '\n')) else None;
  }

  /**
  A list of commands prints their non-empty outputs in order, each on a line of its own, exactly
  if that is less than 8192 bytes; if not, it says so instead.
  */
  lemma ListPrintsLines(fx: Effects, ids: seq<nat>, sh: Shell, fuel: nat)
    requires Calm(sh) && !sh.options.errexit && forall id, data :: !fx.run(id, data).stop
    ensures var text, r := F.Join(Printouts(fx, ids, sh.world.data), '\n'), Exec(fx, Sequence(ListOf(ids)), sh, fuel);
            r.Some? && r.value.output == if |text| < 8192 then text else "combined command output too large"
  {
    assert ids[0..] == ids && [] + Printouts(fx, ids, sh.world.data) == Printouts(fx, ids, sh.world.data);
    ListPrintsFrom(fx, ids, 0, 0, [], sh, fuel);
  }
}
