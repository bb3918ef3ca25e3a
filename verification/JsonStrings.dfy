/**
Strings of JSON texts as RFC 8259 (section 7) writes them, and UTF-8 as RFC 3629 does: which
texts the parser accepts as strings, and what they stand for.
*/
module JsonStrings {
  import opened Text
  import opened Json
  import N = Numerals

  // ---------------------------------------------------------------- UTF-8

  predicate Trails(c: char) { 0x80 <= c as int < 0xC0 }

  /** The bytes encode the code point, in the shortest form. */
  predicate Encodes(b: string, cp: int) {
    if |b| == 1 then b[0] as int == cp < 0x80
    else if |b| == 2 then
      0xC0 <= b[0] as int < 0xE0 && Trails(b[1]) && cp >= 0x80
      && cp == (b[0] as int - 0xC0) * 64 + (b[1] as int - 0x80)
    else if |b| == 3 then
      0xE0 <= b[0] as int < 0xF0 && Trails(b[1]) && Trails(b[2]) && cp >= 0x800
      && cp == ((b[0] as int - 0xE0) * 64 + (b[1] as int - 0x80)) * 64 + (b[2] as int - 0x80)
    else
      |b| == 4 && 0xF0 <= b[0] as int < 0xF8 && Trails(b[1]) && Trails(b[2]) && Trails(b[3]) && cp >= 0x1_0000
      && cp == (((b[0] as int - 0xF0) * 64 + (b[1] as int - 0x80)) * 64 + (b[2] as int - 0x80)) * 64
               + (b[3] as int - 0x80)
  }

  lemma Utf8Encodes(cp: nat, b: string)
    requires cp < 0x11_0000
    ensures Encodes(b, cp) <==> b == Utf8(cp)
  {
    SplitBySixes(cp);
    assert Encodes(Utf8(cp), cp);
    if Encodes(b, cp) { EncodedOnce(b, Utf8(cp), cp); }
  }

  lemma SplitBySixes(cp: nat)
    ensures cp == cp / 64 * 64 + cp % 64 && cp / 64 == cp / 4096 * 64 + cp / 64 % 64
    ensures cp / 4096 == cp / 262144 * 64 + cp / 4096 % 64
  {
  }

  lemma EncodedOnce(b: string, b': string, cp: nat)
    requires Encodes(b, cp) && Encodes(b', cp)
    ensures b == b'
  {
    assert |b| == |b'|;
  }

  // ---------------------------------------------------------------- pieces of a string

  /** A character as it is, a short escape, a `\u` escape, or a pair of them; with what it stands for. */
  datatype Piece =
    | Plain(c: char)
    | Short(letter: char, c: char)
    | Unit(hex: string, bytes: string)
    | Pair(high: string, low: string, bytes: string)

  predicate ShortFor(letter: char, c: char) {
    (letter == '"' && c == '"') || (letter == '\\' && c == '\\') || (letter == '/' && c == '/')
    || (letter == 'b' && c as int == 8) || (letter == 'f' && c as int == 12) || (letter == 'n' && c as int == 10)
    || (letter == 'r' && c as int == 13) || (letter == 't' && c as int == 9)
  }

  ghost predicate FourHex(hex: string, n: nat) { |hex| == 4 && N.Denotes(16, hex, n) }

  ghost predicate ValidPiece(p: Piece) {
    match p
    case Plain(c) => c as int >= 0x20 && c != '"' && c != '\\'
    case Short(letter, c) => ShortFor(letter, c)
    case Unit(hex, bytes) => exists cp: nat :: FourHex(hex, cp) && !(0xD800 <= cp < 0xE000) && Encodes(bytes, cp)
    case Pair(high, low, bytes) =>
      exists h: nat, l: nat :: FourHex(high, h) && FourHex(low, l) && 0xD800 <= h < 0xDC00 && 0xDC00 <= l < 0xE000
        && Encodes(bytes, 0x1_0000 + (h - 0xD800) * 0x400 + (l - 0xDC00))
  }

  function BytesOf(p: Piece): (b: string) {
    match p case Plain(c) => [c] case Short(_, c) => [c] case Unit(_, b) => b case Pair(_, _, b) => b
  }

  /** How a piece is written, in front of `k`. */
  function Write(p: Piece, k: string): (s: string) {
    match p
    case Plain(c) => [c] + k
    case Short(letter, _) => ['\\', letter] + k
    case Unit(hex, _) => "\\u" + (hex + k)
    case Pair(high, low, _) => "\\u" + (high + ("\\u" + (low + k)))
  }

  function WriteAll(ps: seq<Piece>, k: string): (s: string) {
    if ps == [] then k else Write(ps[0], WriteAll(ps[1..], k))
  }

  function AllBytes(ps: seq<Piece>): (b: string) { if ps == [] then "" else BytesOf(ps[0]) + AllBytes(ps[1..]) }

  ghost predicate ValidPieces(ps: seq<Piece>) { forall i :: 0 <= i < |ps| ==> ValidPiece(ps[i]) }

  /** A C string: `text` is what comes before the first NUL in `bytes`. */
  predicate UpToNul(text: string, bytes: string) {
    text <= bytes && (forall i :: 0 <= i < |text| ==> text[i] != '\0') && (text == bytes || bytes[|text|] == '\0')
  }

  lemma {:induction false} CStringIs(bytes: string)
    ensures UpToNul(CString(bytes), bytes)
  {
    if bytes != "" && bytes[0] != '\0' { CStringIs(bytes[1..]); }
  }

  lemma UpToNulOnce(a: string, b: string, bytes: string)
    requires UpToNul(a, bytes) && UpToNul(b, bytes)
    ensures a == b
  {
    assert forall i :: 0 <= i < |a| ==> a[i] == bytes[i];
    assert forall i :: 0 <= i < |b| ==> b[i] == bytes[i];
  }

  // ---------------------------------------------------------------- reading a piece

  lemma Hex4Denotes(hex: string, k: string, n: nat)
    requires |hex| == 4
    ensures Hex4(hex + k) == Some(n) <==> FourHex(hex, n)
  {
    var s := hex + k;
    assert s[0] == hex[0] && s[1] == hex[1] && s[2] == hex[2] && s[3] == hex[3];
    if Hex4(s).Some? {
      FourFold(hex);
      N.FoldDenotes(16, hex);
      if FourHex(hex, n) { N.DenotesOne(16, hex, n, N.Fold(16, hex, 0)); }
    } else if FourHex(hex, n) {
      N.DenotesAllIn(16, hex, n);
    }
  }

  lemma FourFold(hex: string)
    requires |hex| == 4 && N.AllIn(16, hex)
    ensures N.Fold(16, hex, 0)
         == ((HexValue(hex[0]) * 16 + HexValue(hex[1])) * 16 + HexValue(hex[2])) * 16 + HexValue(hex[3])
  {
    N.FoldLast(16, hex, 0);
    N.FoldLast(16, hex[..3], 0);
    N.FoldLast(16, hex[..2], 0);
    N.FoldLast(16, hex[..1], 0);
    assert hex[..3][..2] == hex[..2] && hex[..2][..1] == hex[..1] && hex[..1][..0] == "";
  }

  /** What the parser does with a piece: it takes it if there is room for its bytes. */
  lemma PieceReads(p: Piece, k: string, size: nat, acc: string)
    requires ValidPiece(p)
    ensures StringBody(Write(p, k), size, acc) ==
            if |acc| + |BytesOf(p)| >= size then Bad else StringBody(k, size, acc + BytesOf(p))
  {
    match p
    case Plain(c) => assert Write(p, k)[1..] == k;
    case Short(letter, c) => ShortReads(letter, c, k, size, acc);
    case Unit(hex, bytes) =>
      var cp: nat :| FourHex(hex, cp) && !(0xD800 <= cp < 0xE000) && Encodes(bytes, cp);
      UnitReads(hex, bytes, cp, k);
      UnicodeReads(hex + k, bytes, k, size, acc);
    case Pair(high, low, bytes) =>
      var h: nat, l: nat :| FourHex(high, h) && FourHex(low, l) && 0xD800 <= h < 0xDC00 && 0xDC00 <= l < 0xE000
        && Encodes(bytes, 0x1_0000 + (h - 0xD800) * 0x400 + (l - 0xDC00));
      PairReads(high, low, bytes, h, l, k);
      UnicodeReads(high + ("\\u" + (low + k)), bytes, k, size, acc);
  }

  lemma ShortReads(letter: char, c: char, k: string, size: nat, acc: string)
    requires ShortFor(letter, c)
    ensures StringBody(['\\', letter] + k, size, acc) ==
            if |acc| + 1 >= size then Bad else StringBody(k, size, acc + [c])
  {
    var s := ['\\', letter] + k;
    assert s[0] == '\\' && s[1] == letter && s[2..] == k;
    assert SimpleEscape(letter) == Some(c);
  }

  lemma UnitReads(hex: string, bytes: string, cp: nat, k: string)
    requires FourHex(hex, cp) && !(0xD800 <= cp < 0xE000) && Encodes(bytes, cp)
    ensures UnicodeEscape(hex + k) == Ok(bytes, k)
  {
    Hex4Denotes(hex, k, cp);
    assert (hex + k)[4..] == k;
    Utf8Encodes(cp, bytes);
  }

  lemma PairReads(high: string, low: string, bytes: string, h: nat, l: nat, k: string)
    requires FourHex(high, h) && FourHex(low, l) && 0xD800 <= h < 0xDC00 && 0xDC00 <= l < 0xE000
    requires Encodes(bytes, 0x1_0000 + (h - 0xD800) * 0x400 + (l - 0xDC00))
    ensures UnicodeEscape(high + ("\\u" + (low + k))) == Ok(bytes, k)
  {
    var s, tail := high + ("\\u" + (low + k)), low + k;
    Hex4Denotes(high, "\\u" + tail, h);
    Hex4Denotes(low, k, l);
    assert s[4] == '\\' && s[5] == 'u' && s[6..] == tail && s[10..] == k;
    Utf8Encodes(0x1_0000 + (h - 0xD800) * 0x400 + (l - 0xDC00), bytes);
  }

  lemma UnicodeReads(t: string, bytes: string, k: string, size: nat, acc: string)
    requires UnicodeEscape(t) == Ok(bytes, k)
    ensures StringBody("\\u" + t, size, acc) ==
            if |acc| + |bytes| >= size then Bad else StringBody(k, size, acc + bytes)
  {
    var s := "\\u" + t;
    assert s[0] == '\\' && s[1] == 'u' && s[2..] == t;
  }

  lemma {:induction false} PiecesRead(ps: seq<Piece>, k: string, size: nat, acc: string)
    requires ValidPieces(ps) && |acc| + |AllBytes(ps)| < size
    ensures StringBody(WriteAll(ps, ['"'] + k), size, acc) == Ok(acc + AllBytes(ps), k)
    decreases |ps|
  {
    if ps == [] {
      assert (['"'] + k)[1..] == k && acc + "" == acc;
    } else {
      PieceReads(ps[0], WriteAll(ps[1..], ['"'] + k), size, acc);
      PiecesRead(ps[1..], k, size, acc + BytesOf(ps[0]));
      Assoc(acc, BytesOf(ps[0]), AllBytes(ps[1..]));
    }
  }

  // ---------------------------------------------------------------- what was read

  /** The first step of a string that is accepted and not at its end is a piece. */
  lemma PieceTaken(s: string, size: nat, acc: string) returns (p: Piece, k: string)
    requires StringBody(s, size, acc).Ok? && s[0] != '"'
    ensures ValidPiece(p) && s == Write(p, k) && |acc| + |BytesOf(p)| < size && |k| < |s|
    ensures StringBody(s, size, acc) == StringBody(k, size, acc + BytesOf(p))
  {
    if s[0] != '\\' {
      p, k := Plain(s[0]), s[1..];
      assert s == [s[0]] + s[1..];
    } else if s[1] == 'u' {
      p, k := UnicodeTaken(s[2..]);
      assert s == "\\u" + s[2..];
    } else {
      p, k := Short(s[1], SimpleEscape(s[1]).value), s[2..];
      assert s == ['\\', s[1]] + s[2..];
    }
  }

  lemma UnicodeTaken(t: string) returns (p: Piece, k: string)
    requires UnicodeEscape(t).Ok?
    ensures ValidPiece(p) && "\\u" + t == Write(p, k) && UnicodeEscape(t) == Ok(BytesOf(p), k)
  {
    var hex, bytes := t[..4], UnicodeEscape(t).v;
    var h := Hex4(t).value;
    k := UnicodeEscape(t).rest;
    assert t == hex + t[4..];
    Hex4Denotes(hex, t[4..], h);
    if 0xD800 <= h < 0xDC00 {
      var low := t[6..10];
      var l := Hex4(t[6..]).value;
      assert t[4..] == "\\u" + t[6..] && t[6..] == low + k;
      Hex4Denotes(low, k, l);
      Utf8Encodes(0x1_0000 + (h - 0xD800) * 0x400 + (l - 0xDC00), bytes);
      p := Pair(hex, low, bytes);
    } else {
      Utf8Encodes(h, bytes);
      p := Unit(hex, bytes);
    }
  }

  lemma {:induction false} PiecesTaken(s: string, size: nat, acc: string) returns (ps: seq<Piece>)
    requires StringBody(s, size, acc).Ok? && |acc| < size
    ensures var p := StringBody(s, size, acc);
            ValidPieces(ps) && s == WriteAll(ps, ['"'] + p.rest) && p.v == acc + AllBytes(ps) && |p.v| < size
    decreases |s|
  {
    if s[0] == '"' {
      ps := [];
      assert s == ['"'] + s[1..] && acc + "" == acc;
    } else {
      var p, k := PieceTaken(s, size, acc);
      var ps' := PiecesTaken(k, size, acc + BytesOf(p));
      ps := [p] + ps';
      assert ps[1..] == ps';
      Assoc(acc, BytesOf(p), AllBytes(ps'));
    }
  }

  // ---------------------------------------------------------------- strings

  /** A string that stands for `text`, in fewer than `size` bytes. */
  ghost predicate ValidString(ps: seq<Piece>, text: string, size: nat) {
    ValidPieces(ps) && |AllBytes(ps)| < size && UpToNul(text, AllBytes(ps))
  }

  function WriteString(ps: seq<Piece>, k: string): (s: string) { ['"'] + WriteAll(ps, ['"'] + k) }

  lemma StringReads(ps: seq<Piece>, text: string, size: nat, k: string)
    requires ValidString(ps, text, size)
    ensures StringToken(WriteString(ps, k), size) == Ok(text, k)
  {
    var s := WriteString(ps, k);
    assert s[1..] == WriteAll(ps, ['"'] + k);
    PiecesRead(ps, k, size, "");
    assert "" + AllBytes(ps) == AllBytes(ps);
    CStringIs(AllBytes(ps));
    UpToNulOnce(text, CString(AllBytes(ps)), AllBytes(ps));
  }

  lemma StringTaken(s: string, size: nat) returns (ps: seq<Piece>)
    requires StringToken(s, size).Ok? && size > 0
    ensures var p := StringToken(s, size); ValidString(ps, p.v, size) && s == WriteString(ps, p.rest)
  {
    ps := PiecesTaken(s[1..], size, "");
    assert s == ['"'] + s[1..] && "" + AllBytes(ps) == AllBytes(ps);
    CStringIs(AllBytes(ps));
  }
}
