/**
 * The Base64 stages. Bytes and digits are numbers: a shift is a division or a product, a mask a
 * remainder, and the disjoint parts that the source joins bit by bit are added.
 */
module Base64 {
  import opened Text

  type Byte = n: int | 0 <= n < 256

  /** A digit of the alphabet, the padding character (-2) or neither (-1). */
  function DigitOf(c: char): (d: int)
    ensures -2 <= d < 64
  {
    if 'A' <= c <= 'Z' then c as int - 'A' as int
    else if 'a' <= c <= 'z' then c as int - 'a' as int + 26
    else if '0' <= c <= '9' then c as int - '0' as int + 52
    else if c == '+' then 62
    else if c == '/' then 63
    else if c == '=' then -2 else -1
  }

  /** The character of a digit. */
  function CharOf(d: int): (c: char)
    requires 0 <= d < 64
    ensures DigitOf(c) == d && c != '='
  {
    if d < 26 then 'A' + d as char
    else if d < 52 then 'a' + (d - 26) as char
    else if d < 62 then '0' + (d - 52) as char
    else if d == 62 then '+' else '/'
  }

  predicate IsDigit64(c: char) { DigitOf(c) >= 0 }

  lemma CharOfDigit(c: char)
    requires IsDigit64(c)
    ensures CharOf(DigitOf(c)) == c
  {
  }

  // ---------------------------------------------------------------- encoding

  /** Four characters for up to three bytes; `n` of them are there, the others are zero. */
  function EncodeBlock(b0: Byte, b1: Byte, b2: Byte, n: nat): (r: string)
    ensures |r| == 4
  {
    [CharOf(b0 / 4), CharOf(b0 % 4 * 16 + b1 / 16),
     if n > 1 then CharOf(b1 % 16 * 4 + b2 / 64) else '=',
     if n > 2 then CharOf(b2 % 64) else '=']
  }

  function ByteAt(s: seq<Byte>, i: nat): Byte { if i < |s| then s[i] else 0 }

  function Next(s: seq<Byte>, i: nat): (j: nat)
    ensures i < |s| ==> i < j <= |s|
  {
    if i + 3 < |s| then i + 3 else |s|
  }

  function BlockAt(s: seq<Byte>, i: nat): (r: string)
    requires i < |s|
    ensures |r| == 4
  {
    EncodeBlock(s[i], ByteAt(s, i + 1), ByteAt(s, i + 2), |s| - i)
  }

  function EncodeFrom(s: seq<Byte>, i: nat): string
    requires i <= |s|
    decreases |s| - i
  {
    if i == |s| then "" else BlockAt(s, i) + EncodeFrom(s, Next(s, i))
  }

  /** `apply_base64_encode_stage`: None when the result does not fit. */
  function Encode(s: seq<Byte>): Option<string> {
    if (|s| + 2) / 3 * 4 >= MAX_OUTPUT then None else Some(EncodeFrom(s, 0))
  }

  method EncodeStage(src: seq<Byte>) returns (result: Option<string>)
    ensures result == Encode(src)
  {
    if |src| == 0 { return Some(""); }
    if (|src| + 2) / 3 * 4 >= MAX_OUTPUT { return None; }
    var encoded := EncodeLoop(src);
    return Some(encoded);
  }

  method EncodeLoop(src: seq<Byte>) returns (encoded: string)
    ensures encoded == EncodeFrom(src, 0)
  {
    encoded := "";
    var i := 0;
    ghost var at := 0;
    while i < |src|
      invariant at <= |src| && (i < |src| ==> at == i) && (i >= |src| ==> at == |src|)
      invariant EncodeFrom(src, 0) == encoded + EncodeFrom(src, at)
      decreases |src| - i
    {
      var b0, b1, b2 := src[i], ByteAt(src, i + 1), ByteAt(src, i + 2);
      ghost var was := encoded;
      var e0, e1 := CharOf(b0 / 4), CharOf(b0 % 4 * 16 + b1 / 16);
      var e2 := if i + 1 < |src| then CharOf(b1 % 16 * 4 + b2 / 64) else '=';
      var e3 := if i + 2 < |src| then CharOf(b2 % 64) else '=';
      encoded := encoded + [e0, e1, e2, e3];
      assert BlockAt(src, i) == [e0, e1, e2, e3];
      at := Next(src, i);
      Assoc(was, BlockAt(src, i), EncodeFrom(src, at));
      i := i + 3;
    }
    assert encoded + "" == encoded;
  }

  lemma {:induction false} EncodedLength(s: seq<Byte>, i: nat)
    requires i <= |s|
    ensures |EncodeFrom(s, i)| == (|s| - i + 2) / 3 * 4
    decreases |s| - i
  {
    if i < |s| {
      var n := |s| - i;
      EncodedLength(s, Next(s, i));
      assert n > 3 ==> (n + 2) / 3 == (n - 3 + 2) / 3 + 1;
    }
  }

  // ---------------------------------------------------------------- decoding

  /** The bytes of four characters, None for an invalid one. */
  function DecodeBlock(t: string): (r: Option<seq<Byte>>)
    requires |t| == 4
    ensures r.Some? ==> 1 <= |r.value| <= 3
  {
    var c0, c1, c2, c3 := DigitOf(t[0]), DigitOf(t[1]), DigitOf(t[2]), DigitOf(t[3]);
    if c0 < 0 || c1 < 0 || c2 == -1 || c3 == -1 then None
    else
      Some([c0 * 4 + c1 / 16] + (if c2 != -2 then [c1 % 16 * 16 + c2 / 4] else [])
        + if c3 != -2 then [c2 % 4 * 64 + c3] else [])
  }

  /** The rest of the decoder, with `out` decoded so far. */
  function DecodeRest(t: string, out: seq<Byte>): Option<seq<Byte>>
    decreases |t|
  {
    if t == "" then Some(out)
    else if |t| < 4 then None
    else
      match DecodeBlock(t[..4])
      case None => None
      case Some(block) => if |out| + 3 >= MAX_OUTPUT then None else DecodeRest(t[4..], out + block)
  }

  /** A C string ends at its first zero. */
  function CString(s: seq<Byte>): seq<Byte> {
    if s == [] || s[0] == 0 then [] else [s[0]] + CString(s[1..])
  }

  /** `apply_base64_decode_stage` */
  function Decode(t: string): Option<seq<Byte>> {
    if |t| % 4 != 0 then None
    else
      match DecodeRest(t, [])
      case None => None
      case Some(s) => Some(CString(s))
  }

  method DecodeStage(src: string) returns (result: Option<seq<Byte>>)
    ensures result == Decode(src)
  {
    if |src| == 0 { return Some([]); }
    if |src| % 4 != 0 { return None; }
    var decoded: seq<Byte>, i := [], 0;
    assert src[0..] == src;
    ghost var blocks := |src| / 4;
    while i < |src|
      invariant 0 <= i <= |src| == i + 4 * blocks && DecodeRest(src, []) == DecodeRest(src[i..], decoded)
    {
      SplitBlock(src, i);
      var block := FourDigits(src[i..i + 4]);
      if block.None? { return None; }
      if |decoded| + 3 >= MAX_OUTPUT { return None; }
      decoded := decoded + block.value;
      i, blocks := i + 4, blocks - 1;
    }
    assert src[i..] == "";
    return Some(CString(decoded));
  }

  lemma SplitBlock(src: string, i: nat)
    requires i + 4 <= |src|
    ensures src[i..] != "" && src[i..][..4] == src[i..i + 4] && src[i..][4..] == src[i + 4..]
  {
  }

  /** One round of the decoder: up to three bytes out of four characters. */
  method FourDigits(t: string) returns (bytes: Option<seq<Byte>>)
    requires |t| == 4
    ensures bytes == DecodeBlock(t)
  {
    var c0, c1, c2, c3 := DigitOf(t[0]), DigitOf(t[1]), DigitOf(t[2]), DigitOf(t[3]);
    if c0 < 0 || c1 < 0 || c2 == -1 || c3 == -1 { return None; }
    var decoded: seq<Byte> := [c0 * 4 + c1 / 16];
    assert decoded + [] == decoded;
    if c2 != -2 { decoded := decoded + [c1 % 16 * 16 + c2 / 4]; }
    assert decoded + [] == decoded;
    if c3 != -2 { decoded := decoded + [c2 % 4 * 64 + c3]; }
    return Some(decoded);
  }

  // ---------------------------------------------------------------- round trips

  lemma BlockRoundTrip(b0: Byte, b1: Byte, b2: Byte, n: nat)
    requires n >= 1 && (n <= 1 ==> b1 == 0) && (n <= 2 ==> b2 == 0)
    ensures DecodeBlock(EncodeBlock(b0, b1, b2, n)) ==
            Some(if n == 1 then [b0] else if n == 2 then [b0, b1] else [b0, b1, b2])
  {
    var c1, c2 := b0 % 4 * 16 + b1 / 16, b1 % 16 * 4 + b2 / 64;
    assert b0 / 4 * 4 + c1 / 16 == b0 && c1 % 16 * 16 + c2 / 4 == b1 && c2 % 4 * 64 + b2 % 64 == b2;
    assert [b0] + [] + [] == [b0] && [b0] + [b1] + [] == [b0, b1] && [b0] + [b1] + [b2] == [b0, b1, b2];
  }

  lemma BlockAtRoundTrip(s: seq<Byte>, i: nat)
    requires i < |s|
    ensures DecodeBlock(BlockAt(s, i)) == Some(s[i..Next(s, i)])
  {
    BlockRoundTrip(s[i], ByteAt(s, i + 1), ByteAt(s, i + 2), |s| - i);
    assert |s| - i == 1 ==> s[i..Next(s, i)] == [s[i]];
    assert |s| - i == 2 ==> s[i..Next(s, i)] == [s[i], s[i + 1]];
    assert |s| - i >= 3 ==> s[i..Next(s, i)] == [s[i], s[i + 1], s[i + 2]];
  }

  lemma {:induction false} RestRoundTrip(s: seq<Byte>, i: nat)
    requires i <= |s| && |s| + 3 < MAX_OUTPUT
    ensures DecodeRest(EncodeFrom(s, i), s[..i]) == Some(s)
    decreases |s| - i
  {
    if i == |s| {
      assert s[..i] == s;
    } else {
      var j, block := Next(s, i), BlockAt(s, i);
      var rest := EncodeFrom(s, j);
      BlockAtRoundTrip(s, i);
      assert (block + rest)[..4] == block && (block + rest)[4..] == rest;
      assert s[..i] + s[i..j] == s[..j];
      RestRoundTrip(s, j);
    }
  }

  lemma {:induction false} CStringWithoutZero(s: seq<Byte>)
    ensures CString(s) == s <==> 0 !in s
  {
    if s != [] {
      CStringWithoutZero(s[1..]);
      assert s == [s[0]] + s[1..];
    }
  }

  /** Decoding undoes encoding, exactly for the strings without a zero byte. */
  lemma DecodeUndoesEncode(s: seq<Byte>)
    requires Encode(s).Some?
    ensures Decode(Encode(s).value) == Some(s) <==> 0 !in s
  {
    assert s[..0] == [];
    SizeFits(|s|);
    RestRoundTrip(s, 0);
    EncodedLength(s, 0);
    CStringWithoutZero(s);
  }

  lemma SizeFits(n: nat)
    requires (n + 2) / 3 * 4 < MAX_OUTPUT
    ensures n + 3 < MAX_OUTPUT && (n + 2) / 3 * 4 % 4 == 0
  {
  }

  // ---------------------------------------------------------------- the texts that encoding gives

  predicate FullBlock(t: string) {
    |t| == 4 && IsDigit64(t[0]) && IsDigit64(t[1]) && IsDigit64(t[2]) && IsDigit64(t[3])
  }

  /** A block with padding, which leaves no bit over. */
  predicate PaddedBlock(t: string) {
    |t| == 4 && IsDigit64(t[0]) && IsDigit64(t[1]) && t[3] == '='
    && if t[2] == '=' then DigitOf(t[1]) % 16 == 0 else IsDigit64(t[2]) && DigitOf(t[2]) % 4 == 0
  }

  /** Section 4 of RFC 4648: whole blocks of the alphabet, and padding in the last one only. */
  predicate Canonical(t: string) {
    t == "" || (|t| >= 4 && if |t| == 4 then FullBlock(t) || PaddedBlock(t) else FullBlock(t[..4]) && Canonical(t[4..]))
  }

  lemma BlockAtIsCanonical(s: seq<Byte>, i: nat)
    requires i < |s|
    ensures var b := BlockAt(s, i); if |s| - i < 3 then PaddedBlock(b) else FullBlock(b)
  {
    BlockIsCanonical(s[i], ByteAt(s, i + 1), ByteAt(s, i + 2), |s| - i);
  }

  lemma BlockIsCanonical(b0: Byte, b1: Byte, b2: Byte, n: nat)
    requires n >= 1 && (n <= 1 ==> b1 == 0) && (n <= 2 ==> b2 == 0)
    ensures var b := EncodeBlock(b0, b1, b2, n); if n < 3 then PaddedBlock(b) else FullBlock(b)
  {
    assert b0 % 4 * 16 % 16 == 0 && b1 % 16 * 4 % 4 == 0;
  }

  lemma {:induction false} EncodeIsCanonical(s: seq<Byte>, i: nat)
    requires i <= |s|
    ensures Canonical(EncodeFrom(s, i))
    decreases |s| - i
  {
    if i < |s| {
      var block, rest := BlockAt(s, i), EncodeFrom(s, Next(s, i));
      BlockAtIsCanonical(s, i);
      EncodeIsCanonical(s, Next(s, i));
      assert (block + rest)[..4] == block && (block + rest)[4..] == rest;
      assert rest == "" ==> block + rest == block;
    }
  }

  /** Encoding gives whole blocks of the alphabet with padding at the end only, four characters for three bytes. */
  lemma EncodedShape(s: seq<Byte>)
    requires Encode(s).Some?
    ensures var t := Encode(s).value; |t| == (|s| + 2) / 3 * 4 && |t| < MAX_OUTPUT && Canonical(t)
  {
    EncodedLength(s, 0);
    EncodeIsCanonical(s, 0);
  }

  // ---------------------------------------------------------------- encoding undoes decoding of such texts

  lemma FullBlockBack(t: string)
    requires FullBlock(t)
    ensures var s := DecodeBlock(t).value; |s| == 3 && forall n :: n >= 3 ==> EncodeBlock(s[0], s[1], s[2], n) == t
  {
    var c0, c1, c2, c3 := DigitOf(t[0]), DigitOf(t[1]), DigitOf(t[2]), DigitOf(t[3]);
    var b0, b1, b2 := c0 * 4 + c1 / 16, c1 % 16 * 16 + c2 / 4, c2 % 4 * 64 + c3;
    assert DecodeBlock(t) == Some([b0] + [b1] + [b2]);
    assert b0 / 4 == c0 && b0 % 4 * 16 + b1 / 16 == c1 && b1 % 16 * 4 + b2 / 64 == c2 && b2 % 64 == c3;
    CharOfDigit(t[0]); CharOfDigit(t[1]); CharOfDigit(t[2]); CharOfDigit(t[3]);
    assert t == [t[0], t[1], t[2], t[3]];
  }

  lemma PaddedBlockBack(t: string)
    requires PaddedBlock(t)
    ensures var s := DecodeBlock(t).value;
      if t[2] == '=' then |s| == 1 && EncodeBlock(s[0], 0, 0, 1) == t
      else |s| == 2 && EncodeBlock(s[0], s[1], 0, 2) == t
  {
    var c0, c1, c2 := DigitOf(t[0]), DigitOf(t[1]), DigitOf(t[2]);
    var b0 := c0 * 4 + c1 / 16;
    CharOfDigit(t[0]); CharOfDigit(t[1]);
    assert t == [t[0], t[1], t[2], t[3]];
    if t[2] == '=' {
      assert DecodeBlock(t) == Some([b0] + [] + []);
      assert b0 / 4 == c0 && b0 % 4 * 16 == c1;
    } else {
      var b1 := c1 % 16 * 16 + c2 / 4;
      assert DecodeBlock(t) == Some([b0] + [b1] + []);
      assert b0 / 4 == c0 && b0 % 4 * 16 + b1 / 16 == c1 && b1 % 16 * 4 == c2;
      CharOfDigit(t[2]);
    }
  }

  /** The bytes of a text whose blocks are all valid, without the limit on the output. */
  function Bytes(t: string): Option<seq<Byte>> {
    if t == "" then Some([])
    else if |t| < 4 then None
    else
      match DecodeBlock(t[..4])
      case None => None
      case Some(block) => (match Bytes(t[4..]) case None => None case Some(rest) => Some(block + rest))
  }

  lemma {:induction false} BytesAreDecoded(t: string, out: seq<Byte>)
    ensures var r := DecodeRest(t, out); r.Some? ==> Bytes(t).Some? && r.value == out + Bytes(t).value
    decreases |t|
  {
    if t == "" {
      assert out + [] == out;
    } else if |t| >= 4 {
      var block := DecodeBlock(t[..4]);
      if block.Some? && |out| + 3 < MAX_OUTPUT {
        BytesAreDecoded(t[4..], out + block.value);
        if Bytes(t[4..]).Some? { Assoc(out, block.value, Bytes(t[4..]).value); }
      }
    }
  }

  lemma ShiftedEncode(block: seq<Byte>, rest: seq<Byte>, i: nat)
    requires |block| == 3 && i <= |rest|
    ensures EncodeFrom(block + rest, i + 3) == EncodeFrom(rest, i)
    decreases |rest| - i
  {
    var s := block + rest;
    if i < |rest| {
      assert s[i + 3] == rest[i] && ByteAt(s, i + 4) == ByteAt(rest, i + 1) && ByteAt(s, i + 5) == ByteAt(rest, i + 2);
      assert BlockAt(s, i + 3) == BlockAt(rest, i);
      var j := Next(rest, i);
      assert Next(s, i + 3) == j + 3;
      ShiftedEncode(block, rest, j);
    }
  }

  lemma {:induction false} CanonicalBack(t: string)
    requires Canonical(t)
    ensures Bytes(t).Some? && EncodeFrom(Bytes(t).value, 0) == t
    decreases |t|
  {
    if |t| == 4 {
      assert t[..4] == t && t[4..] == "";
      var s := DecodeBlock(t).value;
      assert s + [] == s;
      if FullBlock(t) { FullBlockBack(t); } else { PaddedBlockBack(t); }
      assert BlockAt(s, 0) == t && Next(s, 0) == |s|;
      assert t + "" == t;
    } else if t != "" {
      CanonicalBack(t[4..]);
      FullBlockBack(t[..4]);
      var block, rest := DecodeBlock(t[..4]).value, Bytes(t[4..]).value;
      var s := block + rest;
      RestIsNotEmpty(t[4..]);
      assert BlockAt(s, 0) == t[..4];
      var next := Next(s, 0);
      ShiftedEncode(block, rest, 0);
      assert t == t[..4] + t[4..];
    }
  }

  lemma RestIsNotEmpty(t: string)
    requires t != "" && Bytes(t).Some?
    ensures Bytes(t).value != []
  {
  }

  /** The decoder's buffer, before it is read as a C string: encoding it gives back exactly the canonical texts. */
  lemma EncodeOfBuffer(t: string)
    requires DecodeRest(t, []).Some?
    ensures EncodeFrom(DecodeRest(t, []).value, 0) == t <==> Canonical(t)
  {
    BytesAreDecoded(t, []);
    var s := DecodeRest(t, []).value;
    assert [] + Bytes(t).value == Bytes(t).value;
    EncodeIsCanonical(s, 0);
    if Canonical(t) { CanonicalBack(t); }
  }

  /**
   * Encoding undoes decoding exactly for the canonical texts, without padding inside or bits left
   * over, that fit the encoder's output and whose bytes hold no zero: the decoded string ends at
   * its first zero byte.
   */
  lemma EncodeUndoesDecodeIff(t: string)
    requires Decode(t).Some?
    ensures Encode(Decode(t).value) == Some(t) <==>
            Canonical(t) && |t| < MAX_OUTPUT && 0 !in DecodeRest(t, []).value
  {
    var s := DecodeRest(t, []).value;
    CStringWithoutZero(s);
    EncodeOfBuffer(t);
    if Encode(CString(s)) == Some(t) { EncodeGives(CString(s), t); }
    if Canonical(t) && |t| < MAX_OUTPUT && 0 !in s { EncodeFits(s, t); }
  }

  /** What an encoding decodes to, before the cut. */
  lemma EncodeGives(r: seq<Byte>, t: string)
    requires Encode(r) == Some(t)
    ensures DecodeRest(t, []) == Some(r) && Canonical(t) && |t| < MAX_OUTPUT
  {
    assert r[..0] == [];
    SizeFits(|r|);
    EncodedLength(r, 0);
    RestRoundTrip(r, 0);
    EncodeIsCanonical(r, 0);
  }

  lemma EncodeFits(s: seq<Byte>, t: string)
    requires EncodeFrom(s, 0) == t && |t| < MAX_OUTPUT
    ensures Encode(s) == Some(t)
  {
    EncodedLength(s, 0);
  }

  /** A text of zero bytes is canonical, and comes back as the empty string. */
  lemma ZeroBytesAreLost()
    ensures Canonical("AAAA") && Decode("AAAA") == Some([]) && Encode([]) == Some("")
  {
    var t := "AAAA";
    assert t[..4] == t && t[4..] == "";
    assert DecodeBlock(t) == Some([0] + [0] + [0]);
    assert [] + ([0] + [0] + [0]) == [0, 0, 0];
    assert DecodeRest("", [0, 0, 0]) == Some([0, 0, 0]);
  }

  /** A text with padding inside decodes, and is not what its bytes encode to. */
  lemma PaddingInsideIsAccepted()
    ensures Decode("QQ==QQ==") == Some([65, 65]) && Encode([65, 65]) != Some("QQ==QQ==")
  {
    var t, half := "QQ==QQ==", "QQ==";
    assert t[..4] == half && t[4..] == half && half[..4] == half && half[4..] == "";
    assert DecodeBlock(half) == Some([65]) by { assert [65] + [] + [] == [65]; }
    assert DecodeRest("", [65, 65]) == Some([65, 65]);
    assert DecodeRest(half, [65]) == Some([65, 65]) by { assert [65] + [65] == [65, 65]; }
    assert DecodeRest(t, []) == Some([65, 65]) by { assert [] + [65] == [65]; }
    CStringWithoutZero([65, 65]);
    assert !FullBlock(half);
    EncodeUndoesDecodeIff(t);
  }
}
