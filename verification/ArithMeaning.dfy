/**
What the operators of C mean, as relations between operands and outcome: sums and differences,
quotients rounded toward zero, bits, powers. The operators of the evaluator are exactly these.
*/
module ArithMeaning {
  import opened Text
  import opened Arith
  import Bits

  /** The outcome is `v` if a 64-bit word can hold it, and the model's error if not. */
  predicate Word(r: Outcome, v: int) {
    r == if -0x8000_0000_0000_0000 <= v <= 0x7FFF_FFFF_FFFF_FFFF then Val(v) else Err(OutOfRange)
  }

  predicate Truth(r: Outcome, b: bool) { r == Val(if b then 1 else 0) }

  function Abs(x: int): (r: nat) { if x < 0 then -x else x }

  /** Dividing `a` by `b` gives `q` with remainder `m`, which has the sign of `a`. */
  predicate Divides(a: int, b: int, q: int, m: int) {
    a == q * b + m && Abs(m) < Abs(b) && (m == 0 || (m > 0 <==> a > 0))
  }

  /** `p` is `base` taken `n` times. */
  ghost predicate Powers(base: int, n: nat, p: int) {
    if n == 0 then p == 1 else exists q :: Powers(base, n - 1, q) && p == base * q
  }

  ghost predicate AndBits(a: int, b: int, v: int) {
    forall k: nat :: Bits.Bit(v, k) == 1 <==> Bits.Bit(a, k) == 1 && Bits.Bit(b, k) == 1
  }

  ghost predicate OrBits(a: int, b: int, v: int) {
    forall k: nat :: Bits.Bit(v, k) == 1 <==> Bits.Bit(a, k) == 1 || Bits.Bit(b, k) == 1
  }

  ghost predicate XorBits(a: int, b: int, v: int) {
    forall k: nat :: Bits.Bit(v, k) == 1 <==> Bits.Bit(a, k) != Bits.Bit(b, k)
  }

  ghost predicate OtherBits(a: int, v: int) { forall k: nat :: Bits.Bit(v, k) != Bits.Bit(a, k) }

  /** `v` is `a` moved down by `n` bits. */
  ghost predicate Halved(a: int, n: nat, v: int) {
    exists p :: Powers(2, n, p) && 0 <= a - v * p < p
  }

  ghost predicate GivesUnary(op: UnaryOp, a: int, r: Outcome) {
    match op
    case Minus => exists v :: a + v == 0 && Word(r, v)
    case Plus => r == Val(a)
    case LogNot => Truth(r, a == 0)
    case BitNot => exists v :: OtherBits(a, v) && r == Val(v)
  }

  ghost predicate Gives(op: BinaryOp, a: int, b: int, r: Outcome) {
    match op
    case LogOr => Truth(r, a != 0 || b != 0)
    case LogAnd => Truth(r, a != 0 && b != 0)
    case BitOr => exists v :: OrBits(a, b, v) && Word(r, v)
    case BitXor => exists v :: XorBits(a, b, v) && Word(r, v)
    case BitAnd => exists v :: AndBits(a, b, v) && Word(r, v)
    case Eq => Truth(r, a == b)
    case Ne => Truth(r, a != b)
    case Lt => Truth(r, a < b)
    case Le => Truth(r, a <= b)
    case Gt => Truth(r, b < a)
    case Ge => Truth(r, b <= a)
    case Shl =>
      if a < 0 || b < 0 || b > 63 then r == Err(OutOfRange) else exists p :: Powers(2, b, p) && Word(r, a * p)
    case Shr => if b < 0 || b > 63 then r == Err(OutOfRange) else exists v :: Halved(a, b, v) && Word(r, v)
    case Add => Word(r, a + b)
    case Sub => exists v :: v + b == a && Word(r, v)
    case Mul => Word(r, a * b)
    case Div =>
      if b == 0 then r == Err(DivisionByZero) else exists q, m :: Divides(a, b, q, m) && Word(r, q)
    case Mod =>
      if b == 0 then r == Err(ModuloByZero)
      else exists q, m :: Divides(a, b, q, m) && Word(r, if Word(Val(q), q) then m else q)
    case Pow => if b < 0 then r == Err(NegativeExponent) else exists p :: Powers(a, b, p) && Word(r, p)
  }

  // ---------------------------------------------------------------- each relation has one outcome

  lemma AtLeast(x: nat, y: nat)
    requires x >= 1
    ensures x * y >= y
  {
    assert x * y == (x - 1) * y + y;
  }

  lemma Signs(x: int, y: int)
    ensures (0 - x) * y == 0 - x * y && x * (0 - y) == 0 - x * y && (0 - x) * (0 - y) == x * y
  {
  }

  /** Different multiples of `b` lie apart. */
  lemma Multiples(q: int, q': int, b: int)
    requires Abs(q * b - q' * b) < Abs(b)
    ensures q == q'
  {
    var x := q - q';
    assert q * b - q' * b == x * b;
    if x != 0 {
      AtLeast(Abs(x), Abs(b));
      Signs(x, b);
    }
  }

  lemma OneQuotient(a: int, b: int, q: int, m: int, q': int, m': int)
    requires Divides(a, b, q, m) && Divides(a, b, q', m')
    ensures q == q' && m == m'
  {
    Multiples(q, q', b);
  }

  lemma QuotientDivides(a: int, b: int)
    requires b != 0
    ensures Divides(a, b, Quotient(a, b), a - Quotient(a, b) * b)
  {
    var q, m := Abs(a) / Abs(b), Abs(a) % Abs(b);
    QuotientIs(a, b, q);
    DivMod(Abs(a), Abs(b), q, m);
    SignedDivides(a, b, q, m, Quotient(a, b));
  }

  lemma QuotientIs(a: int, b: int, q: int)
    requires b != 0 && q == Abs(a) / Abs(b)
    ensures Quotient(a, b) == if a >= 0 <==> b > 0 then q else 0 - q
  {
  }

  lemma SignedDivides(a: int, b: int, q: int, m: int, q': int)
    requires b != 0 && Abs(a) == q * Abs(b) + m && 0 <= m < Abs(b) && q >= 0
    requires q' == if a >= 0 <==> b > 0 then q else 0 - q
    ensures Divides(a, b, q', a - q' * b)
  {
    SignedProduct(a, b, q, q');
    SignedRest(a, b, q * Abs(b), m, q' * b);
  }

  lemma SignedProduct(a: int, b: int, q: int, q': int)
    requires b != 0 && q' == if a >= 0 <==> b > 0 then q else 0 - q
    ensures q' * b == if a >= 0 then q * Abs(b) else 0 - q * Abs(b)
  {
    Signs(q, b);
    if b > 0 {
      assert Abs(b) == b;
    } else {
      assert Abs(b) == 0 - b;
    }
  }

  lemma SignedRest(a: int, b: int, p: int, m: int, p': int)
    requires b != 0 && Abs(a) == p + m && 0 <= m < Abs(b) && p >= 0 && p' == if a >= 0 then p else 0 - p
    ensures Abs(a - p') < Abs(b) && (a == p' || (a - p' > 0 <==> a > 0))
  {
  }

  lemma DivMod(x: int, y: int, q: int, m: int)
    requires y > 0 && q == x / y && m == x % y
    ensures x == q * y + m && 0 <= m < y && (x >= 0 ==> q >= 0)
  {
  }

  lemma {:induction false} PowerPowers(base: int, n: nat, p: int)
    ensures Powers(base, n, p) <==> p == Power(base, n)
    decreases n
  {
    if n > 0 {
      var less := Power(base, n - 1);
      PowerPowers(base, n - 1, less);
      assert less * base == base * less;
      if Powers(base, n, p) {
        var q :| Powers(base, n - 1, q) && p == base * q;
        PowerPowers(base, n - 1, q);
      }
    }
  }

  lemma {:induction false} Pow2Powers(n: nat)
    ensures Powers(2, n, Bits.Pow2(n)) && Bits.Pow2(n) == Power(2, n)
    decreases n
  {
    PowerPowers(2, n, Power(2, n));
    if n > 0 { Pow2Powers(n - 1); }
  }

  function Size(x: int): (n: nat) { if x < 0 then -x - 1 else x }

  /** A number is known by its bits. */
  lemma {:induction false} SameBits(u: int, v: int)
    requires forall k: nat :: Bits.Bit(u, k) == Bits.Bit(v, k)
    ensures u == v
    decreases Size(u) + Size(v)
  {
    assert Bits.Bit(u, 0) == Bits.Bit(v, 0);
    if Size(u) + Size(v) > 0 {
      forall k: nat ensures Bits.Bit(u / 2, k) == Bits.Bit(v / 2, k) {
        assert Bits.Bit(u, k + 1) == Bits.Bit(v, k + 1);
      }
      SameBits(u / 2, v / 2);
    }
  }

  lemma BitOperators(a: int, b: int)
    ensures AndBits(a, b, Bits.And(a, b)) && OrBits(a, b, Bits.Or(a, b)) && XorBits(a, b, Bits.Xor(a, b))
    ensures OtherBits(a, Bits.Not(a))
  {
    forall k: nat
      ensures Bits.Bit(Bits.And(a, b), k) == 1 <==> Bits.Bit(a, k) == 1 && Bits.Bit(b, k) == 1
      ensures Bits.Bit(Bits.Or(a, b), k) == 1 <==> Bits.Bit(a, k) == 1 || Bits.Bit(b, k) == 1
      ensures Bits.Bit(Bits.Xor(a, b), k) == 1 <==> Bits.Bit(a, k) != Bits.Bit(b, k)
      ensures Bits.Bit(Bits.Not(a), k) != Bits.Bit(a, k)
    {
      Bits.BitwiseAnd(a, b, k);
      Bits.BitwiseOr(a, b, k);
      Bits.BitwiseXor(a, b, k);
      Bits.NotBit(a, k);
    }
  }

  /** The bits wanted are those of one number. */
  lemma OneBitwise(a: int, b: int, v: int)
    ensures AndBits(a, b, v) ==> v == Bits.And(a, b)
    ensures OrBits(a, b, v) ==> v == Bits.Or(a, b)
    ensures XorBits(a, b, v) ==> v == Bits.Xor(a, b)
    ensures OtherBits(a, v) ==> v == Bits.Not(a)
  {
    BitOperators(a, b);
    if AndBits(a, b, v) { SameBits(v, Bits.And(a, b)); }
    if OrBits(a, b, v) { SameBits(v, Bits.Or(a, b)); }
    if XorBits(a, b, v) { SameBits(v, Bits.Xor(a, b)); }
    if OtherBits(a, v) { SameBits(v, Bits.Not(a)); }
  }

  lemma HalvedIs(a: int, n: nat, v: int)
    ensures Halved(a, n, v) <==> v == a / Bits.Pow2(n)
  {
    var p, w := Bits.Pow2(n), a / Bits.Pow2(n);
    Pow2Powers(n);
    DivMod(a, p, w, a % p);
    if Halved(a, n, v) {
      var p' :| Powers(2, n, p') && 0 <= a - v * p' < p';
      PowerPowers(2, n, p');
      Multiples(v, w, p);
    }
  }

  // ---------------------------------------------------------------- the evaluator's operators

  lemma UnaryMeans(op: UnaryOp, a: int, r: Outcome)
    ensures GivesUnary(op, a, r) <==> r == ApplyUnary(op, a)
  {
    if op == Minus { assert Word(Fit(0 - a), 0 - a); }
    if op == BitNot { NotMeans(a, r); }
  }

  lemma NotMeans(a: int, r: Outcome)
    ensures (exists v :: OtherBits(a, v) && r == Val(v)) <==> r == Val(Bits.Not(a))
  {
    forall v ensures OtherBits(a, v) <==> v == Bits.Not(a) {
      BitOperators(a, 0);
      OneBitwise(a, 0, v);
    }
  }

  lemma DivisionMeans(op: BinaryOp, a: int, b: int, r: Outcome)
    requires op == Div || op == Mod
    ensures Gives(op, a, b, r) <==> r == ApplyBinary(op, a, b)
  {
    if b != 0 {
      var q, m := Quotient(a, b), a - Quotient(a, b) * b;
      QuotientDivides(a, b);
      Divided(op, a, b, q, m);
      DividesMeans(op, a, b, q, m, r);
    }
  }

  /** What the evaluator makes of quotient and remainder. */
  lemma Divided(op: BinaryOp, a: int, b: int, q: int, m: int)
    requires (op == Div || op == Mod) && b != 0 && q == Quotient(a, b) && m == a - q * b
    ensures ApplyBinary(op, a, b) == if op == Div || Fit(q).Err? then Fit(q) else Fit(m)
  {
  }

  lemma DividesMeans(op: BinaryOp, a: int, b: int, q: int, m: int, r: Outcome)
    requires (op == Div || op == Mod) && b != 0 && Divides(a, b, q, m)
    ensures Gives(op, a, b, r) <==> Word(r, if op == Div || !Word(Val(q), q) then q else m)
  {
    forall q', m' | Divides(a, b, q', m') ensures q' == q && m' == m { OneQuotient(a, b, q, m, q', m'); }
  }

  lemma BitsMean(op: BinaryOp, a: int, b: int, r: Outcome)
    requires op == BitAnd || op == BitOr || op == BitXor
    ensures Gives(op, a, b, r) <==> r == ApplyBinary(op, a, b)
  {
    BitOperators(a, b);
    if Gives(op, a, b, r) {
      var v :| Word(r, v) &&
        (if op == BitAnd then AndBits(a, b, v) else if op == BitOr then OrBits(a, b, v) else XorBits(a, b, v));
      OneBitwise(a, b, v);
    }
  }

  lemma PowersMean(op: BinaryOp, a: int, b: int, r: Outcome)
    requires op == Shl || op == Shr || op == Pow
    ensures Gives(op, a, b, r) <==> r == ApplyBinary(op, a, b)
  {
    if b >= 0 {
      Pow2Powers(b);
      forall p ensures Powers(2, b, p) <==> p == Bits.Pow2(b) { PowerPowers(2, b, p); }
      forall p ensures Powers(a, b, p) <==> p == Power(a, b) { PowerPowers(a, b, p); }
      forall v ensures Halved(a, b, v) <==> v == a / Bits.Pow2(b) { HalvedIs(a, b, v); }
      assert Word(Fit(a * Bits.Pow2(b)), a * Bits.Pow2(b));
      assert Word(Fit(Power(a, b)), Power(a, b));
      assert Word(Fit(a / Bits.Pow2(b)), a / Bits.Pow2(b));
    }
  }

  /** The evaluator's operators are those of C, value for value and error for error. */
  lemma OperatorsMean(op: BinaryOp, a: int, b: int, r: Outcome)
    ensures Gives(op, a, b, r) <==> r == ApplyBinary(op, a, b)
  {
    match op
    case Div | Mod => DivisionMeans(op, a, b, r);
    case BitAnd | BitOr | BitXor => BitsMean(op, a, b, r);
    case Shl | Shr | Pow => PowersMean(op, a, b, r);
    case Sub => assert Word(Fit(a - b), a - b);
    case _ =>
  }
}
