/** Character classes and numerals spelled out: what the readers of numerals are held against. */
module Numerals {
  import opened Text

  /** White space, digits and letters of the C locale, one by one. */
  lemma SpacesAndDigits(c: char)
    ensures IsSpace(c) <==> c in [' ', '\t', '\n', 11 as char, 12 as char, '\r']
    ensures IsDigit(c) <==> c in "0123456789"
  {
    if '0' <= c <= '9' { assert "0123456789"[c as int - 48] == c; }
  }

  const LOWER := "abcdefghijklmnopqrstuvwxyz"
  const UPPER := "ABCDEFGHIJKLMNOPQRSTUVWXYZ"

  lemma Letters(c: char)
    ensures IsAlpha(c) <==> c in LOWER || c in UPPER
    ensures IsNameChar(c) <==> IsAlpha(c) || IsDigit(c) || c == '_'
  {
    forall k | 0 <= k < 26 ensures LOWER[k] as int == 97 + k && UPPER[k] as int == 65 + k { LetterAt(k); }
    if 'a' <= c <= 'z' { assert LOWER[c as int - 97] == c; }
    if 'A' <= c <= 'Z' { assert UPPER[c as int - 65] == c; }
  }

  lemma LetterAt(k: nat)
    requires k < 26
    ensures LOWER[k] as int == 97 + k && UPPER[k] as int == 65 + k
  {
  }

  /** The digit `c` stands for `d`. */
  predicate Stands(c: char, d: nat) {
    d < 16 && (c == "0123456789abcdef"[d] || c == "0123456789ABCDEF"[d])
  }

  lemma HexValueStands(c: char, d: nat)
    ensures HexValue(c) == d <==> Stands(c, d)
  {
    if d < 16 {
      assert d < 10 ==> "0123456789abcdef"[d] as int == d + '0' as int;
      assert d >= 10 ==> "0123456789abcdef"[d] as int == d - 10 + 'a' as int;
      assert d < 10 ==> "0123456789ABCDEF"[d] as int == d + '0' as int;
      assert d >= 10 ==> "0123456789ABCDEF"[d] as int == d - 10 + 'A' as int;
    }
  }

  lemma DigitValueStands(c: char, d: nat)
    ensures IsDigit(c) && DigitValue(c) == d <==> d < 10 && Stands(c, d)
  {
    HexValueStands(c, d);
  }

  /** The digits denote `n` in the positional notation of this base. */
  ghost predicate Denotes(base: nat, digits: string, n: nat) {
    if digits == "" then n == 0
    else
      var k := |digits| - 1;
      exists m: nat, d: nat :: d < base && Stands(digits[k], d) && Denotes(base, digits[..k], m) && n == base * m + d
  }

  /** A numeral of C: hexadecimal behind `0x`, octal behind `0`, otherwise decimal. */
  ghost predicate Numeral(s: string, n: nat) {
    s != "" &&
    if s[0] == '0' && |s| > 1 && (s[1] == 'x' || s[1] == 'X') then |s| > 2 && Denotes(16, s[2..], n)
    else Denotes(if s[0] == '0' then 8 else 10, s, n)
  }

  lemma {:induction false} DecimalDenotes(s: string)
    requires forall i :: 0 <= i < |s| ==> IsDigit(s[i])
    ensures DecimalValue(s) >= 0 && Denotes(10, s, DecimalValue(s))
    decreases |s|
  {
    if s != "" {
      var k := |s| - 1;
      DecimalDenotes(s[..k]);
      DigitValueStands(s[k], DigitValue(s[k]));
    }
  }

  /** Digits denote one number, and are all digits of the base. */
  lemma {:induction false} DenotesOne(base: nat, s: string, n: nat, n': nat)
    requires Denotes(base, s, n) && Denotes(base, s, n')
    ensures n == n'
    decreases |s|
  {
    if s != "" {
      var k := |s| - 1;
      var m: nat, d: nat :| d < base && Stands(s[k], d) && Denotes(base, s[..k], m) && n == base * m + d;
      var m': nat, d': nat :| d' < base && Stands(s[k], d') && Denotes(base, s[..k], m') && n' == base * m' + d';
      HexValueStands(s[k], d);
      HexValueStands(s[k], d');
      DenotesOne(base, s[..k], m, m');
    }
  }

  lemma DecimalIsNumeral(n: nat)
    ensures Numeral(Decimal(n), n)
  {
    var s := Decimal(n);
    DecimalDenotes(s);
    DecimalRoundTrip(n);
    if n == 0 {
      assert s == "0" && s[..0] == "";
      HexValueStands('0', 0);
      assert Denotes(8, "", 0);
      assert Denotes(8, s, 0);
    }
  }

  // ---------------------------------------------------------------- digits from the left

  /** Digits of the base. */
  predicate AllIn(base: nat, d: string) { forall i :: 0 <= i < |d| ==> 0 <= HexValue(d[i]) < base }

  /** Digits taken one by one from the left. */
  function Fold(base: nat, d: string, acc: nat): (n: nat)
    requires AllIn(base, d)
    decreases |d|
  {
    if d == "" then acc else Fold(base, d[1..], acc * base + HexValue(d[0]))
  }

  lemma {:induction false} FoldLast(base: nat, d: string, acc: nat)
    requires AllIn(base, d) && d != ""
    ensures var k := |d| - 1; Fold(base, d, acc) == Fold(base, d[..k], acc) * base + HexValue(d[k])
    decreases |d|
  {
    var k := |d| - 1;
    if k > 0 {
      assert d[1..][..k - 1] == d[..k][1..];
      FoldLast(base, d[1..], acc * base + HexValue(d[0]));
    }
  }

  lemma {:induction false} FoldDenotes(base: nat, d: string)
    requires AllIn(base, d) && base <= 16
    ensures Denotes(base, d, Fold(base, d, 0))
    decreases |d|
  {
    if d != "" {
      var k := |d| - 1;
      FoldLast(base, d, 0);
      FoldDenotes(base, d[..k]);
      HexValueStands(d[k], HexValue(d[k]));
      assert base * Fold(base, d[..k], 0) == Fold(base, d[..k], 0) * base;
    }
  }

  lemma {:induction false} DenotesAllIn(base: nat, d: string, n: nat)
    requires Denotes(base, d, n) && base <= 16
    ensures AllIn(base, d)
    decreases |d|
  {
    if d != "" {
      var k := |d| - 1;
      var m: nat, c: nat :| c < base && Stands(d[k], c) && Denotes(base, d[..k], m) && n == base * m + c;
      var front := d[..k];
      DenotesAllIn(base, front, m);
      HexValueStands(d[k], c);
      forall i | 0 <= i < |d| ensures 0 <= HexValue(d[i]) < base { assert i < k ==> d[i] == front[i]; }
    }
  }

  lemma DenotesDigits(base: nat, d: string, n: nat)
    requires Denotes(base, d, n) && base <= 16
    ensures AllIn(base, d) && n == Fold(base, d, 0)
  {
    DenotesAllIn(base, d, n);
    FoldDenotes(base, d);
    DenotesOne(base, d, n, Fold(base, d, 0));
  }
}
