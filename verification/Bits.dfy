/**
Bitwise operators on integers read as two's complement words of unbounded width: a negative
number has ones all the way up. On values that fit a 64-bit word this is what `&`, `|`, `^`
and `~` compute.
*/
module Bits {

  /** Bit `k` of `a`. */
  function Bit(a: int, k: nat): (b: int)
    ensures b == 0 || b == 1
    decreases k
  {
    if k == 0 then a % 2 else Bit(a / 2, k - 1)
  }

  function Not(a: int): (r: int) { -a - 1 }

  function And(a: int, b: int): (r: int)
    decreases if a < 0 then -a else a
  {
    if a == 0 then 0 else if a == -1 then b
    else 2 * And(a / 2, b / 2) + (if a % 2 == 1 && b % 2 == 1 then 1 else 0)
  }

  // Adding two words counts the common bits twice.
  function Or(a: int, b: int): (r: int) { a + b - And(a, b) }

  function Xor(a: int, b: int): (r: int) { a + b - 2 * And(a, b) }

  lemma {:induction false} NotBit(a: int, k: nat)
    ensures Bit(Not(a), k) == 1 - Bit(a, k)
    decreases k
  {
    if k > 0 {
      assert Not(a) / 2 == Not(a / 2);
      NotBit(a / 2, k - 1);
    }
  }

  lemma AndStep(a: int, b: int)
    ensures And(a, b) / 2 == And(a / 2, b / 2)
    ensures And(a, b) % 2 == if a % 2 == 1 && b % 2 == 1 then 1 else 0
  {
  }

  /** Each operator works bit by bit. */
  lemma {:induction false} BitwiseAnd(a: int, b: int, k: nat)
    ensures Bit(And(a, b), k) == Bit(a, k) * Bit(b, k)
    decreases k
  {
    AndStep(a, b);
    if k > 0 { BitwiseAnd(a / 2, b / 2, k - 1); }
  }

  lemma OrStep(a: int, b: int)
    ensures Or(a, b) / 2 == Or(a / 2, b / 2)
    ensures Or(a, b) % 2 == if a % 2 == 1 || b % 2 == 1 then 1 else 0
  {
    AndStep(a, b);
  }

  lemma XorStep(a: int, b: int)
    ensures Xor(a, b) / 2 == Xor(a / 2, b / 2)
    ensures Xor(a, b) % 2 == if a % 2 != b % 2 then 1 else 0
  {
    AndStep(a, b);
  }

  lemma {:induction false} BitwiseOr(a: int, b: int, k: nat)
    ensures Bit(Or(a, b), k) == if Bit(a, k) == 1 || Bit(b, k) == 1 then 1 else 0
    decreases k
  {
    OrStep(a, b);
    if k > 0 { BitwiseOr(a / 2, b / 2, k - 1); }
  }

  lemma {:induction false} BitwiseXor(a: int, b: int, k: nat)
    ensures Bit(Xor(a, b), k) == if Bit(a, k) != Bit(b, k) then 1 else 0
    decreases k
  {
    XorStep(a, b);
    if k > 0 { BitwiseXor(a / 2, b / 2, k - 1); }
  }

  function Pow2(k: nat): (p: nat)
    ensures p > 0
  {
    if k == 0 then 1 else 2 * Pow2(k - 1)
  }

  /** A word of `k + 1` bits, the last of which is its sign. */
  predicate Fits(a: int, k: nat) { 0 - Pow2(k) <= a < Pow2(k) }

  /** A word fits when its upper half does. */
  lemma HalfFits(a: int, k: nat)
    requires k > 0
    ensures Fits(a, k) <==> Fits(a / 2, k - 1)
  {
  }

  /** The bitwise operators stay within the width of their operands. */
  lemma {:induction false} BitwiseFits(a: int, b: int, k: nat)
    requires Fits(a, k) && Fits(b, k)
    ensures Fits(And(a, b), k) && Fits(Or(a, b), k) && Fits(Xor(a, b), k)
    decreases k
  {
    if k > 0 {
      HalfFits(a, k);
      HalfFits(b, k);
      BitwiseFits(a / 2, b / 2, k - 1);
      AndStep(a, b);
      OrStep(a, b);
      XorStep(a, b);
      HalfFits(And(a, b), k);
      HalfFits(Or(a, b), k);
      HalfFits(Xor(a, b), k);
    } else {
      SignBits(a, b);
    }
  }

  lemma SignBits(a: int, b: int)
    requires (a == 0 || a == -1) && (b == 0 || b == -1)
    ensures And(a, b) == (if a == -1 && b == -1 then -1 else 0)
  {
  }

  lemma {:induction false} Pow2Add(a: nat, b: nat)
    ensures Pow2(a + b) == Pow2(a) * Pow2(b)
    decreases b
  {
    if b > 0 {
      Pow2Add(a, b - 1);
      assert Pow2(a) * (2 * Pow2(b - 1)) == 2 * (Pow2(a) * Pow2(b - 1));
    }
  }

  lemma Cubed(k: nat)
    ensures Pow2(3 * k) == Pow2(k) * Pow2(k) * Pow2(k)
  {
    Pow2Add(k, k);
    Pow2Add(2 * k, k);
  }

  lemma Pow2Of63()
    ensures Pow2(63) == 0x8000_0000_0000_0000
  {
    assert Pow2(7) == 128;
    Cubed(7);
    Cubed(21);
  }

  /** Masking with `~(2^k - 1)` rounds down to a multiple of 2^k. */
  lemma {:induction false} MaskRoundsDown(x: int, k: nat)
    ensures And(x, Not(Pow2(k) - 1)) == x - x % Pow2(k)
    decreases k
  {
    var m := Not(Pow2(k) - 1);
    assert m == 0 - Pow2(k);
    if k == 0 {
      AndMinusOne(x);
    } else {
      MaskRoundsDown(x / 2, k - 1);
      assert m / 2 == 0 - Pow2(k - 1) && m % 2 == 0;
      AndStep(x, m);
      HalfMod(x, Pow2(k - 1));
    }
  }

  lemma Mask32(x: int)
    ensures var r := And(x, Not(31)); r % 32 == 0 && x - 32 < r <= x
  {
    assert Pow2(1) == 2 && Pow2(2) == 4 && Pow2(3) == 8;
    assert Pow2(4) == 16;
    assert Pow2(5) == 32;
    MaskRoundsDown(x, 5);
    assert x - x % 32 == 32 * (x / 32);
  }

  lemma {:induction false} AndMinusOne(x: int)
    ensures And(x, -1) == x
    decreases if x < 0 then -x else x
  {
    if x != 0 && x != -1 { AndMinusOne(x / 2); }
  }

  lemma HalfMod(x: int, p: nat)
    requires p > 0
    ensures x - x % (2 * p) == 2 * (x / 2 - x / 2 % p)
  {
    var q, r := x / 2 / p, x / 2 % p;
    assert x / 2 == p * q + r;
    assert x == 2 * (x / 2) + x % 2;
    var r' := 2 * r + x % 2;
    assert x == (2 * p) * q + r' && 0 <= r' < 2 * p;
    ModUnique(x, 2 * p, q, r');
  }

  lemma ModUnique(x: int, d: nat, q: int, r: nat)
    requires d > 0 && x == d * q + r && r < d
    ensures x % d == r
  {
    var q' := x / d;
    assert x == d * q' + x % d;
    if q > q' {
      Distribute(d, q, q');
      AtLeastOnce(d, q - q');
    } else if q < q' {
      Distribute(d, q', q);
      AtLeastOnce(d, q' - q);
    }
  }

  lemma Distribute(d: int, a: int, b: int)
    ensures d * (a - b) == d * a - d * b
  {
  }

  lemma AtLeastOnce(d: nat, t: int)
    requires t >= 1
    ensures d * t >= d
  {
  }
}
