/** The evaluator as the source runs it, on arrays whose tails move up as operands are merged. */
module BinaryExprRuntime {
  import opened Text
  import opened BinaryExpr

  /** Move the elements of `a` after `at` and before `n` one place to the front. */
  method ShiftDown<T>(a: array<T>, at: nat, n: nat)
    requires at < n <= a.Length
    modifies a
    ensures a[..n - 1] == old(a[..at]) + old(a[at + 1..n])
  {
    forall k | at <= k < n - 1 { a[k] := a[k + 1]; }
  }

  /** Apply operator `j` to its operands and close the gap. */
  method Merge<V>(
      op: Operation<V>, terms: array<V>, ops: array<char>, nOps: nat, j: nat, ghost t: seq<V>, ghost o: string)
      returns (ok: bool)
    requires j < nOps <= ops.Length && terms.Length == ops.Length + 1 && t == terms[..nOps + 1] && o == ops[..nOps]
    modifies terms, ops
    ensures ok == op(t[j], o[j], t[j + 1]).Some?
    ensures ok ==> terms[..nOps] == t[..j] + [op(t[j], o[j], t[j + 1]).value] + t[j + 2..]
    ensures ok ==> ops[..nOps - 1] == o[..j] + o[j + 1..]
  {
    var r := op(terms[j], ops[j], terms[j + 1]);
    if r.None? { return false; }
    terms[j] := r.value;
    assert terms[..j + 1] == t[..j] + [r.value] && terms[j + 2..nOps + 1] == t[j + 2..];
    ShiftDown(terms, j + 1, nOps + 1);
    assert terms[..nOps] == t[..j] + [r.value] + t[j + 2..];
    assert ops[..j] == o[..j] && ops[j + 1..nOps] == o[j + 1..];
    ShiftDown(ops, j, nOps);
    return true;
  }

  /** The loop that applies the tight operators; `nOps` of all operators are left. */
  method RunFirstPass<V>(op: Operation<V>, terms: array<V>, ops: array<char>) returns (ok: bool, nOps: nat)
    requires terms.Length == ops.Length + 1
    modifies terms, ops
    ensures ok == FirstPass(op, old(terms[..]), old(ops[..]), 0).Some? && nOps <= ops.Length
    ensures ok ==> FirstPass(op, old(terms[..]), old(ops[..]), 0).value == (terms[..nOps + 1], ops[..nOps])
  {
    ghost var first := FirstPass(op, terms[..], ops[..], 0);
    nOps := ops.Length;
    var j := 0;
    assert terms[..] == terms[..nOps + 1] && ops[..] == ops[..nOps];
    while j < nOps
      invariant 0 <= j <= nOps <= ops.Length
      invariant first == FirstPass(op, terms[..nOps + 1], ops[..nOps], j)
      decreases nOps - j
    {
      if BindsTighter(ops[j]) {
        ok := Merge(op, terms, ops, nOps, j, terms[..nOps + 1], ops[..nOps]);
        if !ok { return; }
        nOps := nOps - 1;
      } else {
        j := j + 1;
      }
    }
    ok := true;
  }

  /** The loop that applies what is left. */
  method RunSecondPass<V>(op: Operation<V>, terms: array<V>, ops: array<char>, n: nat) returns (result: Option<V>)
    requires terms.Length == ops.Length + 1 && n <= ops.Length
    modifies terms, ops
    ensures result == SecondPass(op, old(terms[..n + 1]), old(ops[..n]))
  {
    var nOps: nat := n;
    while nOps > 0
      invariant nOps <= ops.Length
      invariant SecondPass(op, terms[..nOps + 1], ops[..nOps]) == old(SecondPass(op, terms[..n + 1], ops[..n]))
    {
      ghost var t, o := terms[..nOps + 1], ops[..nOps];
      var ok := Merge(op, terms, ops, nOps, 0, t, o);
      if !ok { return None; }
      nOps := nOps - 1;
      assert terms[..nOps + 1] == [op(t[0], o[0], t[1]).value] + t[2..] && ops[..nOps] == o[1..];
    }
    return Some(terms[0]);
  }

  /** `evaluate_binary_expr_iterative` on the operands it has evaluated. */
  method EvaluateBinary<V>(op: Operation<V>, terms: array<V>, ops: array<char>) returns (result: Option<V>)
    requires terms.Length == ops.Length + 1
    modifies terms, ops
    ensures result == Expression(op, old(terms[..]), old(ops[..]))
  {
    PassesRefineGrammar(op, terms[..], ops[..]);
    var ok, n := RunFirstPass(op, terms, ops);
    if !ok { return None; }
    result := RunSecondPass(op, terms, ops, n);
  }
}
