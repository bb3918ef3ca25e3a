/** The evaluator reads the numerals of C, in its text and in the values of variables. */
module ArithNumerals {
  import opened Text
  import opened Arith
  import N = Numerals

  lemma {:induction false} DigitsFold(base: nat, d: string, k: string, acc: nat)
    requires N.AllIn(base, d) && (k == "" || !IsDigitIn(base, k[0]))
    ensures Digits(base, d + k, acc) == (N.Fold(base, d, acc), k)
    decreases |d|
  {
    if d == "" {
      assert d + k == k;
    } else {
      assert (d + k)[1..] == d[1..] + k;
      DigitsFold(base, d[1..], k, acc * base + HexValue(d[0]));
    }
  }

  /** The digits that are read, and what is left. */
  lemma {:induction false} DigitsTaken(base: nat, s: string, acc: nat) returns (d: string)
    ensures N.AllIn(base, d) && Digits(base, s, acc).0 == N.Fold(base, d, acc) && s == d + Digits(base, s, acc).1
    ensures s != "" && IsDigitIn(base, s[0]) ==> d != "" && d[0] == s[0]
    decreases |s|
  {
    if s != "" && IsDigitIn(base, s[0]) {
      var d' := DigitsTaken(base, s[1..], acc * base + HexValue(s[0]));
      d := [s[0]] + d';
      assert d[1..] == d';
      assert s == [s[0]] + s[1..];
    } else {
      d := "";
    }
  }

  /** No letter or digit follows. */
  predicate Apart(k: string) { k == "" || !IsNameChar(k[0]) }

  lemma NumeralRead(s: string, n: nat, k: string)
    requires N.Numeral(s, n) && Apart(k)
    ensures Unsigned(s + k) == (n, k) && IsDigit((s + k)[0])
  {
    var t := s + k;
    assert forall i :: 0 <= i < |s| ==> t[i] == s[i];
    if s[0] == '0' && |s| > 1 && (s[1] == 'x' || s[1] == 'X') {
      var d := s[2..];
      N.DenotesDigits(16, d, n);
      assert t[2..] == d + k && t[2] == d[0];
      DigitsFold(16, d, k, 0);
    } else {
      var base := if s[0] == '0' then 8 else 10;
      N.DenotesDigits(base, s, n);
      DigitsFold(base, s, k, 0);
      assert |s| == 1 && k != "" ==> t[1] == k[0];
    }
  }

  /** Whatever starts with a digit is read as a numeral and what follows it. */
  lemma NumeralTaken(s: string) returns (d: string)
    requires s != "" && IsDigit(s[0])
    ensures s == d + Unsigned(s).1 && N.Numeral(d, Unsigned(s).0)
  {
    if At(s, 0, '0') && (At(s, 1, 'x') || At(s, 1, 'X')) && |s| > 2 && IsDigitIn(16, s[2]) {
      d := HexTaken(s);
    } else {
      d := PlainTaken(s, if s[0] == '0' then 8 else 10);
    }
  }

  lemma HexTaken(s: string) returns (d: string)
    requires At(s, 0, '0') && (At(s, 1, 'x') || At(s, 1, 'X')) && |s| > 2 && IsDigitIn(16, s[2])
    ensures s == d + Digits(16, s[2..], 0).1 && N.Numeral(d, Digits(16, s[2..], 0).0)
  {
    var d' := DigitsTaken(16, s[2..], 0);
    d := s[..2] + d';
    assert s == s[..2] + s[2..] && d[2..] == d';
    N.FoldDenotes(16, d');
  }

  lemma PlainTaken(s: string, base: nat) returns (d: string)
    requires s != "" && IsDigit(s[0]) && base == if s[0] == '0' then 8 else 10
    ensures s == d + Digits(base, s, 0).1 && N.Numeral(d, Digits(base, s, 0).0)
  {
    d := DigitsTaken(base, s, 0);
    N.FoldDenotes(base, d);
    assert |d| > 1 ==> IsDigitIn(base, d[1]);
  }

  // ---------------------------------------------------------------- the values of variables

  /** The text is a numeral with a sign or none, up to white space around it. */
  ghost predicate Filled(text: string, lead: string, sign: string, digits: string, trail: string, n: int) {
    text == lead + (sign + (digits + trail)) && AllSpace(lead) && AllSpace(trail)
    && if sign == "-" then n <= 0 && N.Numeral(digits, -n)
       else (sign == "" || sign == "+") && n >= 0 && N.Numeral(digits, n)
  }

  function Saturated(n: int): (v: int) {
    if n < -0x8000_0000_0000_0000 then -0x8000_0000_0000_0000
    else if n > 0x7FFF_FFFF_FFFF_FFFF then 0x7FFF_FFFF_FFFF_FFFF else n
  }

  /** What the text of a variable is worth: its numeral, within 64 bits, or 0 if it is none. */
  ghost predicate Worth(text: string, v: int) {
    (exists lead, sign, digits, trail, n :: Filled(text, lead, sign, digits, trail, n) && v == Saturated(n))
    || (v == 0 && forall lead, sign, digits, trail, n :: !Filled(text, lead, sign, digits, trail, n))
  }

  lemma {:induction false} SkipLead(lead: string, k: string)
    requires AllSpace(lead)
    ensures SkipWs(lead + k) == SkipWs(k)
  {
    if lead == "" {
      assert lead + k == k;
    } else {
      assert (lead + k)[1..] == lead[1..] + k;
      SkipLead(lead[1..], k);
    }
  }

  lemma {:induction false} LeadSkipped(s: string) returns (lead: string)
    ensures AllSpace(lead) && s == lead + SkipWs(s)
  {
    if s != "" && IsSpace(s[0]) {
      var lead' := LeadSkipped(s[1..]);
      lead := [s[0]] + lead';
      assert s == [s[0]] + s[1..];
    } else {
      lead := "";
    }
  }

  lemma AllSkipped(s: string)
    ensures SkipWs(s) == "" <==> AllSpace(s)
  {
    if SkipWs(s) == "" {
      var lead := LeadSkipped(s);
      assert s == lead;
    }
    if AllSpace(s) {
      SkipLead(s, "");
      assert s + "" == s;
    }
  }

  lemma FilledIsRead(text: string, lead: string, sign: string, digits: string, trail: string, n: int)
    requires Filled(text, lead, sign, digits, trail, n)
    ensures TextValue(text) == Saturated(n)
  {
    var magnitude := if sign == "-" then -n else n;
    var body := digits + trail;
    assert Apart(trail);
    NumeralRead(digits, magnitude, trail);
    SkipLead(lead, sign + body);
    assert sign != "" ==> (sign + body)[0] == sign[0] && (sign + body)[1..] == body;
    assert sign == "" ==> sign + body == body;
    AllSkipped(trail);
  }

  lemma ReadIsFilled(text: string) returns (lead: string, sign: string, digits: string, trail: string, n: int)
    requires var s := SkipWs(text);
             var body := if At(s, 0, '-') || At(s, 0, '+') then s[1..] else s;
             body != "" && IsDigit(body[0]) && SkipWs(Unsigned(body).1) == ""
    ensures Filled(text, lead, sign, digits, trail, n)
  {
    lead := LeadSkipped(text);
    var s := SkipWs(text);
    sign := if At(s, 0, '-') || At(s, 0, '+') then s[..1] else "";
    var body := s[|sign|..];
    assert s == sign + body;
    digits := NumeralTaken(body);
    trail := Unsigned(body).1;
    AllSkipped(trail);
    n := if sign == "-" then 0 - Unsigned(body).0 else Unsigned(body).0;
  }

  /** The value read from a variable's text is what the text is worth. */
  lemma TextIsWorth(text: string, v: int)
    ensures Worth(text, v) <==> v == TextValue(text)
  {
    forall lead, sign, digits, trail, n | Filled(text, lead, sign, digits, trail, n)
      ensures TextValue(text) == Saturated(n)
    {
      FilledIsRead(text, lead, sign, digits, trail, n);
    }
    var s := SkipWs(text);
    var body := if At(s, 0, '-') || At(s, 0, '+') then s[1..] else s;
    if body != "" && IsDigit(body[0]) && SkipWs(Unsigned(body).1) == "" {
      var lead, sign, digits, trail, n := ReadIsFilled(text);
    }
  }
}
