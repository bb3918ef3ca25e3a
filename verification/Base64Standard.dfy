/**
 * The two stages against RFC 4648: the alphabet of its section 4 spelled out, and three bytes as
 * one number of 24 bits, whose four digits to the base 64 come most significant first.
 */
module Base64Standard {
  import opened Text
  import opened Base64

  const ALPHABET := UPPER + LOWER + "0123456789+/"
  const UPPER := "ABCDEFGHIJKLMNOPQRSTUVWXYZ"
  const LOWER := "abcdefghijklmnopqrstuvwxyz"

  lemma LetterAt(d: nat)
    requires d < 26
    ensures UPPER[d] as int == 65 + d && LOWER[d] as int == 97 + d
  {
  }

  lemma AlphabetAt(d: nat)
    requires d < 64
    ensures ALPHABET[d] == CharOf(d)
  {
    if d < 26 {
      LetterAt(d);
      assert ALPHABET[d] == UPPER[d];
    } else if d < 52 {
      LetterAt(d - 26);
      assert ALPHABET[d] == LOWER[d - 26];
    } else {
      assert ALPHABET[d] == "0123456789+/"[d - 52];
    }
  }

  /** The tables of both stages are the alphabet, and the padding character is no digit. */
  lemma TablesAreAlphabet(c: char, d: nat)
    requires d < 64
    ensures CharOf(d) == c <==> ALPHABET[d] == c
    ensures DigitOf(c) == d <==> ALPHABET[d] == c
    ensures DigitOf(c) == -2 <==> c == '='
  {
    AlphabetAt(d);
    IsAndReads(c, d);
  }

  /** `c` is the digit `d` of the alphabet. */
  predicate Is(c: char, d: int) { 0 <= d < 64 && CharOf(d) == c }

  lemma IsAndReads(c: char, d: int)
    ensures 0 <= d ==> (Is(c, d) <==> DigitOf(c) == d)
    ensures DigitOf(c) == -2 <==> c == '='
  {
    if DigitOf(c) >= 0 { CharOfDigit(c); }
  }

  // ---------------------------------------------------------------- encoding

  function Shortest(n: nat): (k: nat) { if n < 3 then n else 3 }

  /** Three bytes as one number of 24 bits, the first byte in the highest bits. */
  function Bits24(b0: int, b1: int, b2: int): (n: int) { 65536 * b0 + 256 * b1 + b2 }

  /** Four digits as one number, the first digit in the highest bits. */
  function Number(d0: int, d1: int, d2: int, d3: int): (n: int) { 262144 * d0 + 4096 * d1 + 64 * d2 + d3 }

  /** Four characters for one to three bytes; a missing byte is zero, and has no digit of its own. */
  ghost predicate Quantum(b: seq<Byte>, t: string) {
    1 <= |b| <= 3 && |t| == 4 &&
    exists d0, d1, d2, d3 :: Is(t[0], d0) && Is(t[1], d1) && 0 <= d2 < 64 && 0 <= d3 < 64 &&
      Bits24(b[0], ByteAt(b, 1), ByteAt(b, 2)) == Number(d0, d1, d2, d3) &&
      (if |b| >= 2 then Is(t[2], d2) else t[2] == '=') && (if |b| == 3 then Is(t[3], d3) else t[3] == '=')
  }

  /** `t` is the Base64 text of `s`. */
  ghost predicate Encodes(s: seq<Byte>, t: string) {
    if s == [] then t == ""
    else
      var k := Shortest(|s|);
      |t| >= 4 && Quantum(s[..k], t[..4]) && Encodes(s[k..], t[4..])
  }

  lemma {:induction false} QuantumIs(b: seq<Byte>, t: string)
    requires 1 <= |b| <= 3
    ensures Quantum(b, t) <==> t == EncodeBlock(b[0], ByteAt(b, 1), ByteAt(b, 2), |b|)
  {
    var b0: int, b1: int, b2: int := b[0], ByteAt(b, 1), ByteAt(b, 2);
    var e0, e1, e2, e3 := b0 / 4, b0 % 4 * 16 + b1 / 16, b1 % 16 * 4 + b2 / 64, b2 % 64;
    assert Bits24(b0, b1, b2) == Number(e0, e1, e2, e3);
    IsAndReads(CharOf(e0), e0);
    IsAndReads(CharOf(e1), e1);
    IsAndReads(CharOf(e2), e2);
    IsAndReads(CharOf(e3), e3);
    if Quantum(b, t) { QuantumEncodes(b, t, e0, e1, e2, e3); }
  }

  lemma QuantumEncodes(b: seq<Byte>, t: string, e0: int, e1: int, e2: int, e3: int)
    requires Quantum(b, t) && Bits24(b[0], ByteAt(b, 1), ByteAt(b, 2)) == Number(e0, e1, e2, e3)
    requires 0 <= e0 < 64 && 0 <= e1 < 64 && 0 <= e2 < 64 && 0 <= e3 < 64
    ensures t == [CharOf(e0), CharOf(e1), if |b| > 1 then CharOf(e2) else '=', if |b| > 2 then CharOf(e3) else '=']
  {
    var d0, d1, d2, d3 :| Is(t[0], d0) && Is(t[1], d1) && 0 <= d2 < 64 && 0 <= d3 < 64 &&
      Bits24(b[0], ByteAt(b, 1), ByteAt(b, 2)) == Number(d0, d1, d2, d3) &&
      (if |b| >= 2 then Is(t[2], d2) else t[2] == '=') && (if |b| == 3 then Is(t[3], d3) else t[3] == '=');
    OneWay(d0, d1, d2, d3, e0, e1, e2, e3);
    assert t == [t[0], t[1], t[2], t[3]];
  }

  /** Four digits are determined by the number that they denote. */
  lemma OneWay(d0: int, d1: int, d2: int, d3: int, e0: int, e1: int, e2: int, e3: int)
    requires 0 <= d1 < 64 && 0 <= d2 < 64 && 0 <= d3 < 64 && 0 <= e1 < 64 && 0 <= e2 < 64 && 0 <= e3 < 64
    requires Number(d0, d1, d2, d3) == Number(e0, e1, e2, e3)
    ensures d0 == e0 && d1 == e1 && d2 == e2 && d3 == e3
  {
  }

  lemma {:induction false} EncodeFromIs(s: seq<Byte>, i: nat, t: string)
    requires i <= |s|
    ensures Encodes(s[i..], t) <==> t == EncodeFrom(s, i)
    decreases |s| - i
  {
    var rest := s[i..];
    if rest != [] {
      var k, block, next := Shortest(|rest|), BlockAt(s, i), Next(s, i);
      var b, tail := rest[..k], EncodeFrom(s, next);
      assert ByteAt(b, 1) == ByteAt(s, i + 1) && ByteAt(b, 2) == ByteAt(s, i + 2);
      assert rest[k..] == s[next..];
      assert (block + tail)[..4] == block && (block + tail)[4..] == tail;
      assert EncodeBlock(b[0], ByteAt(b, 1), ByteAt(b, 2), |b|) == block;
      if |t| >= 4 {
        QuantumIs(b, t[..4]);
        EncodeFromIs(s, next, t[4..]);
        assert t == t[..4] + t[4..];
      }
    }
  }

  /** The encoder gives the Base64 text of RFC 4648, or nothing when that does not fit. */
  lemma EncodeIsStandard(s: seq<Byte>, t: string)
    ensures Encode(s) == Some(t) <==> Encodes(s, t) && |t| < MAX_OUTPUT
  {
    var e := EncodeFrom(s, 0);
    assert Encodes(s, t) <==> t == e by { EncodeFromIs(s, 0, t); assert s[0..] == s; }
    var size := (|s| + 2) / 3 * 4;
    assert |e| == size by { EncodedLength(s, 0); }
    assert Encode(s) == if size >= MAX_OUTPUT then None else Some(e);
  }

  // ---------------------------------------------------------------- decoding

  /**
   * What the decoder takes four characters for: padding may stand for either of the last two
   * digits, drops the byte that ends there and reads as 62 in the bits of the byte behind.
   */
  ghost predicate Group(t: string, b: seq<int>) {
    |t| == 4 &&
    exists d0, d1, d2, d3 :: Is(t[0], d0) && Is(t[1], d1) &&
      (Is(t[2], d2) || (t[2] == '=' && d2 == 62)) && (Is(t[3], d3) || (t[3] == '=' && d3 == 0)) &&
      b == Octets(Number(d0, d1, d2, d3), t[2] != '=', t[3] != '=')
  }

  /** The first byte of a number of 24 bits, and the others that are asked for. */
  function Octets(n: int, second: bool, third: bool): (b: seq<int>) {
    [n / 65536] + (if second then [n / 256 % 256] else []) + if third then [n % 256] else []
  }

  /** The bytes of whole groups, with room for three more before each of them. */
  ghost predicate Decodes(t: string, before: nat, s: seq<Byte>)
    decreases |t|
  {
    if t == "" then s == []
    else
      |t| >= 4 && before + 3 < MAX_OUTPUT &&
      exists k :: 0 < k <= |s| && Group(t[..4], s[..k]) && Decodes(t[4..], before + k, s[k..])
  }

  /** `r` is `s` up to the first zero byte. */
  predicate UpToZero(s: seq<Byte>, r: seq<Byte>) {
    |r| <= |s| && r == s[..|r|] && 0 !in r && (|r| < |s| ==> s[|r|] == 0)
  }

  lemma OctetsAre(d0: int, d1: int, d2: int, d3: int, second: bool, third: bool)
    requires 0 <= d0 < 64 && 0 <= d1 < 64 && 0 <= d2 < 64 && 0 <= d3 < 64
    ensures Octets(Number(d0, d1, d2, d3), second, third) ==
            [d0 * 4 + d1 / 16] + (if second then [d1 % 16 * 16 + d2 / 4] else [])
              + if third then [d2 % 4 * 64 + d3] else []
  {
    var b0, b1, b2 := d0 * 4 + d1 / 16, d1 % 16 * 16 + d2 / 4, d2 % 4 * 64 + d3;
    assert Number(d0, d1, d2, d3) == Bits24(b0, b1, b2);
    ThreeBytes(b0, b1, b2);
  }

  lemma ThreeBytes(b0: int, b1: int, b2: int)
    requires 0 <= b0 < 256 && 0 <= b1 < 256 && 0 <= b2 < 256
    ensures var n := Bits24(b0, b1, b2); n / 65536 == b0 && n / 256 % 256 == b1 && n % 256 == b2
  {
    var n := Bits24(b0, b1, b2);
    assert n / 256 == 256 * b0 + b1;
  }

  lemma GroupIs(t: string, b: seq<Byte>)
    requires |t| == 4
    ensures Group(t, b) <==> DecodeBlock(t) == Some(b)
  {
    var c0, c1, c2, c3 := DigitOf(t[0]), DigitOf(t[1]), DigitOf(t[2]), DigitOf(t[3]);
    IsAndReads(t[0], c0);
    IsAndReads(t[1], c1);
    IsAndReads(t[2], c2);
    IsAndReads(t[3], c3);
    if Group(t, b) {
      GroupDecodes(t, b);
    }
    if DecodeBlock(t) == Some(b) {
      var d2, d3 := if c2 == -2 then 62 else c2, if c3 == -2 then 0 else c3;
      OctetsAre(c0, c1, d2, d3, t[2] != '=', t[3] != '=');
      assert Is(t[0], c0) && Is(t[1], c1) && (Is(t[2], d2) || (t[2] == '=' && d2 == 62));
      assert Is(t[3], d3) || (t[3] == '=' && d3 == 0);
    }
  }

  lemma GroupDecodes(t: string, b: seq<Byte>)
    requires Group(t, b)
    ensures DecodeBlock(t) == Some(b)
  {
    var d0, d1, d2, d3 :| Is(t[0], d0) && Is(t[1], d1) &&
      (Is(t[2], d2) || (t[2] == '=' && d2 == 62)) && (Is(t[3], d3) || (t[3] == '=' && d3 == 0)) &&
      b == Octets(Number(d0, d1, d2, d3), t[2] != '=', t[3] != '=');
    IsAndReads(t[0], d0);
    IsAndReads(t[1], d1);
    IsAndReads(t[2], d2);
    IsAndReads(t[3], d3);
    OctetsAre(d0, d1, d2, d3, t[2] != '=', t[3] != '=');
  }

  lemma {:induction false} RestGives(t: string, out: seq<Byte>, s: seq<Byte>, before: nat)
    requires before == |out| && Decodes(t, before, s)
    ensures DecodeRest(t, out) == Some(out + s)
    decreases |t|
  {
    if t == "" {
      assert out + s == out;
    } else {
      var k, next := FirstGroup(t, before, s);
      RestStep(t[..4], out, s, next, k);
      RestGives(t[4..], out + s[..k], s[k..], next);
    }
  }

  lemma FirstGroup(t: string, before: nat, s: seq<Byte>) returns (k: nat, next: nat)
    requires Decodes(t, before, s) && t != ""
    ensures |t| >= 4 && before + 3 < MAX_OUTPUT && k <= |s| && next == before + k
    ensures DecodeBlock(t[..4]) == Some(s[..k]) && Decodes(t[4..], next, s[k..])
  {
    k :| 0 < k <= |s| && Group(t[..4], s[..k]) && Decodes(t[4..], before + k, s[k..]);
    next := before + k;
    GroupIs(t[..4], s[..k]);
  }

  lemma {:induction false} RestReads(t: string, out: seq<Byte>, s: seq<Byte>, before: nat)
    requires before == |out| && DecodeRest(t, out) == Some(out + s)
    ensures Decodes(t, before, s)
    decreases |t|
  {
    if t == "" {
      assert (out + s)[|out|..] == s;
    } else {
      var head, tail := t[..4], t[4..];
      var block := DecodeBlock(head).value;
      assert DecodeRest(tail, out + block) == Some(out + s);
      RestGrows(tail, out + block);
      Taken(out, block, s);
      var k := |block|;
      var next := before + k;
      RestStep(head, out, s, next, k);
      RestReads(tail, out + block, s[k..], next);
    }
  }

  lemma Taken(out: seq<Byte>, block: seq<Byte>, s: seq<Byte>)
    requires out + block <= out + s
    ensures block <= s && s[..|block|] == block
  {
    forall i | 0 <= i < |block| ensures s[i] == block[i] {
      assert (out + s)[|out| + i] == (out + block)[|out| + i];
    }
  }

  lemma RestStep(t: string, out: seq<Byte>, s: seq<Byte>, next: nat, k: nat)
    requires |t| == 4 && next == |out| + k && k <= |s|
    ensures Group(t, s[..k]) <==> DecodeBlock(t) == Some(s[..k])
    ensures out + s[..k] + s[k..] == out + s && |out + s[..k]| == next
  {
    GroupIs(t, s[..k]);
    var b, rest := s[..k], s[k..];
    assert b + rest == s;
    Assoc(out, b, rest);
  }

  lemma {:induction false} RestGrows(t: string, out: seq<Byte>)
    requires DecodeRest(t, out).Some?
    ensures out <= DecodeRest(t, out).value
    decreases |t|
  {
    if t != "" { RestGrows(t[4..], out + DecodeBlock(t[..4]).value); }
  }

  lemma {:induction false} CStringIs(s: seq<Byte>, r: seq<Byte>)
    ensures UpToZero(s, r) <==> r == CString(s)
  {
    if s != [] && s[0] != 0 && r != [] {
      CStringIs(s[1..], r[1..]);
      assert r == [r[0]] + r[1..];
      if r == CString(s) { assert 0 !in r[1..] ==> 0 !in r; }
    } else if s != [] && s[0] != 0 {
      assert s[|r|] != 0;
    }
  }

  /** The decoder gives the bytes of the groups up to the first zero, and fails when there are none. */
  lemma DecodeIsStandard(t: string, r: seq<Byte>)
    ensures Decode(t) == Some(r) <==> exists s :: Decodes(t, 0, s) && UpToZero(s, r)
  {
    var got := DecodeRest(t, []);
    if got.Some? {
      var s := got.value;
      assert [] + s == s;
      RestReads(t, [], s, 0);
      WholeGroups(t, []);
      CStringIs(s, r);
    }
    forall s | Decodes(t, 0, s) ensures |t| % 4 == 0 && got == Some(s) {
      assert [] + s == s;
      RestGives(t, [], s, 0);
      WholeGroups(t, []);
    }
  }

  lemma {:induction false} WholeGroups(t: string, out: seq<Byte>)
    requires DecodeRest(t, out).Some?
    ensures |t| % 4 == 0
    decreases |t|
  {
    if t != "" { WholeGroups(t[4..], out + DecodeBlock(t[..4]).value); }
  }
}
