/**
 * The operator evaluator of value expressions: two passes over arrays of terms and operators that
 * are shifted in place, against the grammar with `*` and `/` above `+` and `-`.
 */
module BinaryExpr {
  import opened Text

  /** A binary operation on values that may fail; nothing is known about it. */
  type Operation<!V> = (V, char, V) -> Option<V>

  // ---------------------------------------------------------------- the grammar

  /** product := value (('*' | '/') value)*, after its first value: what it comes to and what follows it. */
  function Product<V>(op: Operation<V>, acc: V, ops: string, rest: seq<V>): (r: Option<(V, string, seq<V>)>)
    requires |ops| == |rest|
    ensures r.Some? ==> |r.value.1| == |r.value.2| <= |ops| && (r.value.1 != "" ==> r.value.1[0] !in ['*', '/'])
    decreases |ops|
  {
    if ops == "" || ops[0] !in ['*', '/'] then Some((acc, ops, rest))
    else
      match op(acc, ops[0], rest[0])
      case None => None
      case Some(v) => Product(op, v, ops[1..], rest[1..])
  }

  /** sum := product (('+' | '-') product)*, after its first product. */
  function Sum<V>(op: Operation<V>, acc: V, ops: string, rest: seq<V>): Option<V>
    requires |ops| == |rest|
    decreases |ops|
  {
    if ops == "" then Some(acc)
    else
      match Product(op, rest[0], ops[1..], rest[1..])
      case None => None
      case Some((factor, ops', rest')) =>
        match op(acc, ops[0], factor)
        case None => None
        case Some(v) => Sum(op, v, ops', rest')
  }

  function Expression<V>(op: Operation<V>, terms: seq<V>, ops: string): Option<V>
    requires |terms| == |ops| + 1
  {
    match Product(op, terms[0], ops, terms[1..])
    case None => None
    case Some((first, ops', rest')) => Sum(op, first, ops', rest')
  }

  // ---------------------------------------------------------------- the two passes on sequences

  predicate BindsTighter(c: char) { c == '*' || c == '/' }

  /** The first pass from operator `j`: tight operators are applied and their operands merged. */
  function FirstPass<V>(op: Operation<V>, terms: seq<V>, ops: string, j: nat): (r: Option<(seq<V>, string)>)
    requires |terms| == |ops| + 1 && j <= |ops|
    ensures r.Some? ==> |r.value.0| == |r.value.1| + 1
    decreases |ops| - j
  {
    if j == |ops| then Some((terms, ops))
    else if !BindsTighter(ops[j]) then FirstPass(op, terms, ops, j + 1)
    else
      match op(terms[j], ops[j], terms[j + 1])
      case None => None
      case Some(v) => FirstPass(op, terms[..j] + [v] + terms[j + 2..], ops[..j] + ops[j + 1..], j)
  }

  /** The second pass: what is left, from left to right. */
  function SecondPass<V>(op: Operation<V>, terms: seq<V>, ops: string): Option<V>
    requires |terms| == |ops| + 1
    decreases |ops|
  {
    if ops == "" then Some(terms[0])
    else
      match op(terms[0], ops[0], terms[1])
      case None => None
      case Some(v) => SecondPass(op, [v] + terms[2..], ops[1..])
  }

  function TwoPasses<V>(op: Operation<V>, terms: seq<V>, ops: string): Option<V>
    requires |terms| == |ops| + 1
  {
    match FirstPass(op, terms, ops, 0)
    case None => None
    case Some((terms', ops')) => SecondPass(op, terms', ops')
  }

  // ---------------------------------------------------------------- the first pass, by structure

  /** The products of what follows `acc`, and the operators between them. */
  function Products<V>(op: Operation<V>, acc: V, ops: string, rest: seq<V>): (r: Option<(seq<V>, string)>)
    requires |ops| == |rest|
    ensures r.Some? ==> |r.value.0| == |r.value.1| + 1
    decreases |ops|
  {
    if ops == "" then Some(([acc], ""))
    else if BindsTighter(ops[0]) then
      match op(acc, ops[0], rest[0])
      case None => None
      case Some(v) => Products(op, v, ops[1..], rest[1..])
    else
      match Products(op, rest[0], ops[1..], rest[1..])
      case None => None
      case Some((terms, ops')) => Some(([acc] + terms, [ops[0]] + ops'))
  }

  function Prepend<V>(terms: seq<V>, ops: string, r: Option<(seq<V>, string)>): Option<(seq<V>, string)> {
    match r
    case None => None
    case Some((terms', ops')) => Some((terms + terms', ops + ops'))
  }

  lemma PrependTwice<V>(t1: seq<V>, o1: string, t2: seq<V>, o2: string, r: Option<(seq<V>, string)>)
    ensures Prepend(t1, o1, Prepend(t2, o2, r)) == Prepend(t1 + t2, o1 + o2, r)
  {
    if r.Some? {
      Assoc(t1, t2, r.value.0);
      Assoc(o1, o2, r.value.1);
    }
  }

  /** Merging the operands at `j` leaves what comes before and what comes after. */
  lemma Merged<V>(terms: seq<V>, ops: string, j: nat, v: V)
    requires |terms| == |ops| + 1 && j < |ops|
    ensures var terms', ops' := terms[..j] + [v] + terms[j + 2..], ops[..j] + ops[j + 1..];
      |terms'| == |ops'| + 1 == |ops| && terms'[j] == v && terms'[..j] == terms[..j]
      && terms'[j + 1..] == terms[j + 1..][1..]
      && ops'[..j] == ops[..j] && ops'[j..] == ops[j..][1..]
  {
  }

  lemma {:induction false} FirstPassIsProducts<V>(op: Operation<V>, terms: seq<V>, ops: string, j: nat)
    requires |terms| == |ops| + 1 && j <= |ops|
    ensures FirstPass(op, terms, ops, j) ==
            Prepend(terms[..j], ops[..j], Products(op, terms[j], ops[j..], terms[j + 1..]))
    decreases |ops| - j
  {
    var ops0, rest := ops[j..], terms[j + 1..];
    if j == |ops| {
      assert terms == terms[..j] + [terms[j]] && ops == ops[..j] + "";
    } else if !BindsTighter(ops[j]) {
      FirstPassIsProducts(op, terms, ops, j + 1);
      assert ops0[1..] == ops[j + 1..] && rest[1..] == terms[j + 2..];
      assert terms[..j + 1] == terms[..j] + [terms[j]] && ops[..j + 1] == ops[..j] + [ops[j]];
      PrependTwice(terms[..j], ops[..j], [terms[j]], [ops[j]], Products(op, rest[0], ops0[1..], rest[1..]));
    } else {
      match op(terms[j], ops[j], terms[j + 1])
      case None =>
      case Some(v) =>
        Merged(terms, ops, j, v);
        FirstPassIsProducts(op, terms[..j] + [v] + terms[j + 2..], ops[..j] + ops[j + 1..], j);
    }
  }

  // ---------------------------------------------------------------- the passes refine the grammar

  /** A sum so far, an operator, and the grammar on what follows. */
  function GrammarAfter<V>(op: Operation<V>, sum: V, o: char, acc: V, ops: string, rest: seq<V>): Option<V>
    requires |ops| == |rest|
  {
    match Product(op, acc, ops, rest)
    case None => None
    case Some((factor, ops', rest')) =>
      match op(sum, o, factor)
      case None => None
      case Some(v) => Sum(op, v, ops', rest')
  }

  /** The same with the second pass on the products of what follows. */
  function PassesAfter<V>(op: Operation<V>, sum: V, o: char, acc: V, ops: string, rest: seq<V>): Option<V>
    requires |ops| == |rest|
  {
    match Products(op, acc, ops, rest)
    case None => None
    case Some((terms, ops')) => SecondPass(op, [sum] + terms, [o] + ops')
  }

  lemma SecondPassStep<V>(op: Operation<V>, sum: V, o: char, terms: seq<V>, ops: string)
    requires |terms| == |ops| + 1
    ensures SecondPass(op, [sum] + terms, [o] + ops) ==
            (match op(sum, o, terms[0]) case None => None case Some(v) => SecondPass(op, [v] + terms[1..], ops))
  {
    assert ([sum] + terms)[2..] == terms[1..] && ([o] + ops)[1..] == ops;
  }

  lemma {:induction false} AfterAgree<V>(op: Operation<V>, sum: V, o: char, acc: V, ops: string, rest: seq<V>)
    requires |ops| == |rest|
    ensures GrammarAfter(op, sum, o, acc, ops, rest) == PassesAfter(op, sum, o, acc, ops, rest)
    decreases |ops|
  {
    if ops == "" {
      SecondPassStep(op, sum, o, [acc], "");
    } else if BindsTighter(ops[0]) {
      match op(acc, ops[0], rest[0])
      case None =>
      case Some(v) => AfterAgree(op, sum, o, v, ops[1..], rest[1..]);
    } else {
      match Products(op, rest[0], ops[1..], rest[1..])
      case None =>
        match op(sum, o, acc) {
          case None =>
          case Some(v) => AfterAgree(op, v, ops[0], rest[0], ops[1..], rest[1..]);
        }
      case Some((terms, ops')) =>
        SecondPassStep(op, sum, o, [acc] + terms, [ops[0]] + ops');
        match op(sum, o, acc) {
          case None =>
          case Some(v) =>
            AfterAgree(op, v, ops[0], rest[0], ops[1..], rest[1..]);
            assert ([acc] + terms)[1..] == terms;
        }
    }
  }

  lemma {:induction false} ProductsAgree<V>(op: Operation<V>, acc: V, ops: string, rest: seq<V>)
    requires |ops| == |rest|
    ensures (match Product(op, acc, ops, rest)
             case None => None
             case Some((first, ops', rest')) => Sum(op, first, ops', rest'))
         == (match Products(op, acc, ops, rest)
             case None => None
             case Some((terms, ops')) => SecondPass(op, terms, ops'))
    decreases |ops|
  {
    if ops == "" {
    } else if BindsTighter(ops[0]) {
      match op(acc, ops[0], rest[0])
      case None =>
      case Some(v) => ProductsAgree(op, v, ops[1..], rest[1..]);
    } else {
      AfterAgree(op, acc, ops[0], rest[0], ops[1..], rest[1..]);
    }
  }

  /** The two passes succeed exactly when the grammar does, with the same result, for any partial operation. */
  lemma PassesRefineGrammar<V>(op: Operation<V>, terms: seq<V>, ops: string)
    requires |terms| == |ops| + 1
    ensures TwoPasses(op, terms, ops) == Expression(op, terms, ops)
  {
    FirstPassIsProducts(op, terms, ops, 0);
    assert terms[..0] == [] && ops[..0] == "" && ops[0..] == ops;
    ProductsAgree(op, terms[0], ops, terms[1..]);
    var r := Products(op, terms[0], ops, terms[1..]);
    if r.Some? { assert [] + r.value.0 == r.value.0 && "" + r.value.1 == r.value.1; }
  }
}
