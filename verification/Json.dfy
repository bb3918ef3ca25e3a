/**
JSON text of values: what the printer writes into a buffer of a given size and what the
parser makes of a text (RFC 8259, sections 2 to 7).

Each character stands for one byte. Numbers are the integers below 10^15 in size, which
`%.15g` writes in full; a numeral that only a double can hold (a fraction, an exponent, ...)
is answered with `Beyond`, not with a value.
*/
module Json {
  import opened Text
  import opened Values

  const MAX_DEPTH := 128        // JSON_MAX_DEPTH
  const NUMBER_LIMIT := 1_000_000_000_000_000

  // ---------------------------------------------------------------- printing

  function HexChar(d: nat): (c: char)
    requires d < 16
    ensures HexValue(c) == d
  {
    if d < 10 then '0' + d as char else 'a' + (d - 10) as char
  }

  function Escape(c: char): (s: string)
    ensures s != ""
  {
    if c == '"' then "\\\""
    else if c == '\\' then "\\\\"
    else if c == 8 as char then "\\b"
    else if c == 12 as char then "\\f"
    else if c == '\n' then "\\n"
    else if c == '\r' then "\\r"
    else if c == '\t' then "\\t"
    else if c < ' ' then "\\u00" + [HexChar(c as int / 16), HexChar(c as int % 16)]
    else [c]
  }

  function Escapes(s: string): (r: string) {
    if s == "" then "" else Escape(s[0]) + Escapes(s[1..])
  }

  function Quoted(s: string): (r: string) { "\"" + Escapes(s) + "\"" }

  function IntegerText(n: int): (s: string)
    ensures s != ""
  {
    if n < 0 then "-" + Decimal(-n) else Decimal(n)
  }

  /** The JSON text of a value. */
  function JsonText(v: Value): (s: string)
    decreases v, 0
  {
    match v
    case Empty => "null"
    case Boolean(b) => if b then "true" else "false"
    case Num(n) => IntegerText(n)
    case Str(s) => Quoted(s)
    case List(items) => "[" + ItemsText(items) + "]"
    case Map(entries) => "{" + EntriesText(entries) + "}"
    case Dict(entries) => "{" + EntriesText(entries) + "}"
  }

  function ItemsText(items: seq<Value>): (s: string)
    decreases items, 1
  {
    if items == [] then "" else
      var n := |items| - 1;
      (if n == 0 then "" else ItemsText(items[..n]) + ",") + JsonText(items[n])
  }

  function EntriesText(entries: seq<Entry>): (s: string)
    decreases entries, 1
  {
    if entries == [] then "" else
      var n := |entries| - 1;
      (if n == 0 then "" else EntriesText(entries[..n]) + ",")
        + (Quoted(entries[n].key) + ":" + JsonText(entries[n].value))
  }

  predicate Scalar(v: Value) { v.Empty? || v.Boolean? || v.Num? }

  /** The printer reports success for a buffer of `size` bytes; nested values have buffers of their own. */
  predicate Prints(v: Value, size: nat)
    decreases v
  {
    match v
    case List(items) =>
      (forall i :: 0 <= i < |items| ==> Prints(items[i], MAX_OUTPUT)) && |JsonText(v)| < size
    case Map(entries) =>
      (forall i :: 0 <= i < |entries| ==> |Quoted(entries[i].key)| < MAX_OUTPUT && Prints(entries[i].value, MAX_OUTPUT))
      && |JsonText(v)| < size
    case Dict(entries) =>
      (forall i :: 0 <= i < |entries| ==> |Quoted(entries[i].key)| < MAX_OUTPUT && Prints(entries[i].value, MAX_OUTPUT))
      && |JsonText(v)| < size
    case Str(_) => |JsonText(v)| < size
    case _ => true
  }

  /** What a successful call leaves in the buffer: scalars are cut off silently. */
  function Printed(v: Value, size: nat): (s: string)
    requires size > 0
  {
    if |JsonText(v)| < size then JsonText(v) else JsonText(v)[..size - 1]
  }

  // ---------------------------------------------------------------- parsing

  datatype Parse<T> = Ok(v: T, rest: string) | Bad | Beyond {
    predicate IsFailure() { !Ok? }
    function PropagateFailure<U>(): Parse<U> requires !Ok? { if Bad? then Bad else Beyond }
    function Extract(): (T, string) requires Ok? { (v, rest) }
  }

  predicate IsJsonSpace(c: char) { c == ' ' || c == '\t' || c == '\n' || c == '\r' }

  function SkipWs(s: string): (r: string)
    ensures |r| <= |s|
  {
    if s != "" && IsJsonSpace(s[0]) then SkipWs(s[1..]) else s
  }

  /** A C string ends at its first NUL. */
  function CString(s: string): (r: string) {
    if s == "" || s[0] == '\0' then "" else [s[0]] + CString(s[1..])
  }

  function SimpleEscape(c: char): (r: Option<char>) {
    if c == '"' || c == '\\' || c == '/' then Some(c)
    else if c == 'b' then Some(8 as char)
    else if c == 'f' then Some(12 as char)
    else if c == 'n' then Some('\n')
    else if c == 'r' then Some('\r')
    else if c == 't' then Some('\t')
    else None
  }

  /** Four hexadecimal digits. */
  function Hex4(s: string): (r: Option<nat>)
    ensures r.Some? ==> r.value < 0x1_0000
  {
    if |s| >= 4 && HexValue(s[0]) >= 0 && HexValue(s[1]) >= 0 && HexValue(s[2]) >= 0 && HexValue(s[3]) >= 0
    then Some(((HexValue(s[0]) * 16 + HexValue(s[1])) * 16 + HexValue(s[2])) * 16 + HexValue(s[3])) else None
  }

  function Utf8(cp: nat): (s: string)
    requires cp < 0x11_0000
  {
    if cp <= 0x7F then [cp as char]
    else if cp <= 0x7FF then [(0xC0 + cp / 64) as char, (0x80 + cp % 64) as char]
    else if cp <= 0xFFFF then [(0xE0 + cp / 4096) as char, (0x80 + cp / 64 % 64) as char, (0x80 + cp % 64) as char]
    else [(0xF0 + cp / 262144) as char, (0x80 + cp / 4096 % 64) as char, (0x80 + cp / 64 % 64) as char,
      (0x80 + cp % 64) as char]
  }

  /** The text behind `\u`: one escape, or a surrogate pair. */
  function UnicodeEscape(s: string): (p: Parse<string>)
    ensures p.Ok? ==> |p.rest| < |s|
  {
    match Hex4(s)
    case None => Bad
    case Some(cp) =>
      if 0xD800 <= cp <= 0xDBFF then
        if |s| >= 6 && s[4] == '\\' && s[5] == 'u' && Hex4(s[6..]).Some? && 0xDC00 <= Hex4(s[6..]).value <= 0xDFFF
        then Ok(Utf8(0x1_0000 + (cp - 0xD800) * 0x400 + (Hex4(s[6..]).value - 0xDC00)), s[10..]) else Bad
      else if 0xDC00 <= cp <= 0xDFFF then Bad
      else Ok(Utf8(cp), s[4..])
  }

  /** Characters of a string up to the closing quote, into a buffer of `size` bytes that already holds `acc`. */
  function StringBody(s: string, size: nat, acc: string): (p: Parse<string>)
    ensures p.Ok? ==> |p.rest| < |s|
    decreases |s|
  {
    if s == "" then Bad
    else if s[0] == '"' then Ok(acc, s[1..])
    else if s[0] < ' ' then Bad
    else if s[0] != '\\' then
      if |acc| + 1 >= size then Bad else StringBody(s[1..], size, acc + [s[0]])
    else if |s| < 2 then Bad
    else if s[1] == 'u' then
      var (bytes, rest) :- UnicodeEscape(s[2..]);
      if |acc| + |bytes| >= size then Bad else StringBody(rest, size, acc + bytes)
    else
      match SimpleEscape(s[1])
      case None => Bad
      case Some(c) => if |acc| + 1 >= size then Bad else StringBody(s[2..], size, acc + [c])
  }

  function StringToken(s: string, size: nat): (p: Parse<string>)
    ensures p.Ok? ==> |p.rest| < |s|
  {
    if s == "" || s[0] != '"' then Bad else
      var (text, rest) :- StringBody(s[1..], size, "");
      Ok(CString(text), rest)
  }

  function DigitCount(s: string): (n: nat)
    ensures n <= |s| && forall i :: 0 <= i < n ==> IsDigit(s[i])
    ensures n < |s| ==> !IsDigit(s[n])
  {
    if s != "" && IsDigit(s[0]) then 1 + DigitCount(s[1..]) else 0
  }

  predicate Delimits(s: string) {
    s == "" || s[0] == ',' || s[0] == ']' || s[0] == '}' || IsJsonSpace(s[0])
  }

  /** Characters with which `strtod` would read on: fraction, exponent, hexadecimal, infinity, not-a-number. */
  predicate FloatMark(c: char) {
    c == '.' || c == 'e' || c == 'E' || c == 'x' || c == 'X' || c == 'i' || c == 'I' || c == 'n' || c == 'N'
  }

  /** `strtod` as far as integers go; `s` starts with `-` or a digit. */
  function NumberToken(s: string): (p: Parse<int>)
    requires s != "" && (s[0] == '-' || IsDigit(s[0]))
    ensures p.Ok? ==> |p.rest| < |s|
  {
    if s[0] == '-' then var (n, rest) :- Magnitude(s[1..]); Ok(-n, rest) else Magnitude(s)
  }

  function Magnitude(s: string): (p: Parse<int>)
    ensures p.Ok? ==> |p.rest| < |s|
  {
    var n := DigitCount(s);
    var rest := s[n..];
    if n >= 2 && s[0] == '0' then Bad
    else if rest != "" && FloatMark(rest[0]) then Beyond
    else if n == 0 || !Delimits(rest) then Bad
    else if DecimalValue(s[..n]) >= NUMBER_LIMIT then Beyond
    else Ok(DecimalValue(s[..n]), rest)
  }

  predicate StartsWith(s: string, word: string) { word <= s }

  function ParseValue(s: string, depth: nat): (p: Parse<Value>)
    ensures p.Ok? ==> |p.rest| < |s|
    decreases |s|, 1
  {
    if depth > MAX_DEPTH then Bad else
      var t := SkipWs(s);
      if t == "" then Bad
      else if t[0] == '"' then
        var (text, rest) :- StringToken(t, MAX_OUTPUT); Ok(Str(text), rest)
      else if t[0] == '[' then
        var (items, rest) :- ParseArray(t, depth + 1); Ok(List(items), rest)
      else if t[0] == '{' then
        var (entries, rest) :- ParseObject(t, depth + 1); Ok(Map(entries), rest)
      else if StartsWith(t, "true") then Ok(Boolean(true), t[4..])
      else if StartsWith(t, "false") then Ok(Boolean(false), t[5..])
      else if StartsWith(t, "null") then Ok(Empty, t[4..])
      else if t[0] == '-' || IsDigit(t[0]) then
        var (n, rest) :- NumberToken(t); Ok(Num(n), rest)
      else Bad
  }

  function ParseArray(s: string, depth: nat): (p: Parse<seq<Value>>)
    requires s != ""
    ensures p.Ok? ==> |p.rest| < |s|
    decreases |s|, 0
  {
    var t := SkipWs(s[1..]);
    if t != "" && t[0] == ']' then Ok([], t[1..]) else ParseItems(t, depth, [])
  }

  function ParseObject(s: string, depth: nat): (p: Parse<seq<Entry>>)
    requires s != ""
    ensures p.Ok? ==> |p.rest| < |s|
    decreases |s|, 0
  {
    var t := SkipWs(s[1..]);
    if t != "" && t[0] == '}' then Ok([], t[1..]) else ParseEntries(t, depth, [])
  }

  /** The loop of the array parser, with `acc` already read. */
  function ParseItems(s: string, depth: nat, acc: seq<Value>): (p: Parse<seq<Value>>)
    ensures p.Ok? ==> |p.rest| < |s|
    decreases |s|, 3
  {
    if s == "" then Bad else
      var (v, rest) :- ParseValue(s, depth);
      AfterItem(rest, depth, acc + [v])
  }

  function AfterItem(s: string, depth: nat, acc: seq<Value>): (p: Parse<seq<Value>>)
    ensures p.Ok? ==> |p.rest| < |s|
    decreases |s|, 2
  {
    var t := SkipWs(s);
    if t != "" && t[0] == ']' then Ok(acc, t[1..])
    else if t != "" && t[0] == ',' then ParseItems(SkipWs(t[1..]), depth, acc)
    else Bad
  }

  /** The loop of the object parser, with `acc` already read. */
  function ParseEntries(s: string, depth: nat, acc: seq<Entry>): (p: Parse<seq<Entry>>)
    ensures p.Ok? ==> |p.rest| < |s|
    decreases |s|, 3
  {
    if s == "" then Bad else
      var (e, rest) :- ParseEntry(s, depth);
      AfterEntry(rest, depth, Put(acc, e.key, e.value))
  }

  /** A key, a colon and a value; an empty key cannot be stored. */
  function ParseEntry(s: string, depth: nat): (p: Parse<Entry>)
    requires s != ""
    ensures p.Ok? ==> |p.rest| < |s|
    decreases |s|, 1
  {
    var (key, rest) :- StringToken(s, MAX_NAME);
    var t := SkipWs(rest);
    if t == "" || t[0] != ':' then Bad else
      var (v, rest') :- ParseValue(SkipWs(t[1..]), depth);
      if key == "" then Bad else Ok(Entry(key, v), rest')
  }

  function AfterEntry(s: string, depth: nat, acc: seq<Entry>): (p: Parse<seq<Entry>>)
    ensures p.Ok? ==> |p.rest| < |s|
    decreases |s|, 2
  {
    var t := SkipWs(s);
    if t != "" && t[0] == '}' then Ok(acc, t[1..])
    else if t != "" && t[0] == ',' then ParseEntries(SkipWs(t[1..]), depth, acc)
    else Bad
  }

  /** `arksh_value_parse_json` */
  function ParseJson(s: string): (p: Parse<Value>) {
    var (v, rest) :- ParseValue(s, 0);
    if SkipWs(rest) == "" then Ok(v, "") else Bad
  }
}
