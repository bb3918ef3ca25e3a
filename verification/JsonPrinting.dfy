/** The JSON text of a value spelled out, as the printer writes it: no white space, the shortest escapes. */
module JsonPrinting {
  import opened Text
  import opened Values
  import opened Json
  import N = Numerals
  import opened JsonStrings

  // ---------------------------------------------------------------- the text of a value

  /** How a character is written inside quotes (section 7 of RFC 8259). */
  ghost predicate WrittenAs(c: char, e: string) {
    if c == '"' then e == "\\\""
    else if c == '\\' then e == "\\\\"
    else if c as int == 0x08 then e == "\\b"
    else if c as int == 0x0C then e == "\\f"
    else if c as int == 0x0A then e == "\\n"
    else if c as int == 0x0D then e == "\\r"
    else if c as int == 0x09 then e == "\\t"
    else if c as int < 0x20 then
      |e| == 6 && e[..2] == "\\u" && N.Denotes(16, e[2..], c as int) && forall i :: 2 <= i < 6 ==> e[i] !in "ABCDEF"
    else e == [c]
  }

  function Concat(parts: seq<string>): (s: string) { if parts == [] then "" else parts[0] + Concat(parts[1..]) }

  function Commas(parts: seq<string>): (s: string) {
    if parts == [] then ""
    else if |parts| == 1 then parts[0]
    else Commas(parts[..|parts| - 1]) + "," + parts[|parts| - 1]
  }

  ghost predicate QuotedAs(text: string, s: string) {
    exists es: seq<string> :: |es| == |text| && (forall i :: 0 <= i < |text| ==> WrittenAs(text[i], es[i])) &&
      s == "\"" + Concat(es) + "\""
  }

  ghost predicate NumberAs(n: nat, digits: string) {
    N.Denotes(10, digits, n) && digits != "" && (digits[0] == '0' ==> digits == "0")
  }

  ghost predicate PrintsAs(v: Value, s: string)
    decreases v
  {
    match v
    case Empty => s == "null"
    case Boolean(b) => s == if b then "true" else "false"
    case Num(n) => if n < 0 then s != "" && s[0] == '-' && NumberAs(-n, s[1..]) else NumberAs(n, s)
    case Str(text) => QuotedAs(text, s)
    case List(items) =>
      exists parts: seq<string> :: |parts| == |items| && s == "[" + Commas(parts) + "]" &&
        forall i :: 0 <= i < |items| ==> PrintsAs(items[i], parts[i])
    case Map(entries) => MembersAs(entries, s)
    case Dict(entries) => MembersAs(entries, s)
  }

  ghost predicate MembersAs(entries: seq<Entry>, s: string)
    decreases entries
  {
    exists parts: seq<string> :: |parts| == |entries| && s == "{" + Commas(parts) + "}" &&
      forall i :: 0 <= i < |entries| ==> MemberAs(entries[i], parts[i])
  }

  ghost predicate MemberAs(e: Entry, part: string)
    decreases e
  {
    exists k, w :: QuotedAs(e.key, k) && PrintsAs(e.value, w) && part == k + (":" + w)
  }

  // ---------------------------------------------------------------- characters and numbers

  lemma HexCharIs(c: char, d: nat)
    requires d < 16
    ensures N.Stands(c, d) && c !in "ABCDEF" <==> c == HexChar(d)
  {
    assert d < 10 ==> "0123456789abcdef"[d] as int == d + '0' as int;
    assert d >= 10 ==> "0123456789abcdef"[d] as int == d - 10 + 'a' as int;
    assert d < 10 ==> "0123456789ABCDEF"[d] as int == d + '0' as int;
    assert d >= 10 ==> "0123456789ABCDEF"[d] == "ABCDEF"[d - 10];
  }

  lemma ControlWritten(c: char, e: string)
    requires c as int < 0x20 && |e| == 6 && e[..2] == "\\u"
    ensures N.Denotes(16, e[2..], c as int) && (forall i :: 2 <= i < 6 ==> e[i] !in "ABCDEF") <==>
            e == "\\u00" + [HexChar(c as int / 16), HexChar(c as int % 16)]
  {
    var hex, n := e[2..], c as int;
    Hex4Denotes(hex, "", n);
    forall i, d: nat | 0 <= i < 4 && d < 16
      ensures HexValue(hex[i]) == d && hex[i] !in "ABCDEF" <==> hex[i] == HexChar(d)
    {
      HexCharIs(hex[i], d);
      N.HexValueStands(hex[i], d);
    }
    assert e == e[..2] + [e[2], e[3], e[4], e[5]];
  }

  lemma EscapeWritten(c: char, e: string)
    ensures WrittenAs(c, e) <==> e == Escape(c)
  {
    if c < ' ' && |e| == 6 && e[..2] == "\\u" { ControlWritten(c, e); }
  }

  lemma {:induction false} EscapesAre(text: string, es: seq<string>)
    requires |es| == |text| && forall i :: 0 <= i < |text| ==> es[i] == Escape(text[i])
    ensures Concat(es) == Escapes(text)
  {
    if text != "" { EscapesAre(text[1..], es[1..]); }
  }

  lemma QuotedWritten(text: string, s: string)
    ensures QuotedAs(text, s) <==> s == Quoted(text)
  {
    var es := seq(|text|, i requires 0 <= i < |text| => Escape(text[i]));
    EscapesAre(text, es);
    forall i | 0 <= i < |text| ensures WrittenAs(text[i], es[i]) { EscapeWritten(text[i], es[i]); }
    if QuotedAs(text, s) {
      var es' :| |es'| == |text| && (forall i :: 0 <= i < |text| ==> WrittenAs(text[i], es'[i])) &&
        s == "\"" + Concat(es') + "\"";
      forall i | 0 <= i < |text| ensures es'[i] == es[i] { EscapeWritten(text[i], es'[i]); }
      assert es' == es;
    }
  }

  lemma NumberWritten(n: nat, digits: string)
    ensures NumberAs(n, digits) <==> digits == Decimal(n)
  {
    DecimalDenotesIt(n);
    if NumberAs(n, digits) { DigitsOfNumber(n, digits); }
  }

  lemma {:induction false} DigitsOfNumber(n: nat, digits: string)
    requires NumberAs(n, digits)
    ensures digits == Decimal(n)
    decreases |digits|
  {
    var k := |digits| - 1;
    var m, d := LastDigit(digits, n);
    if k == 0 {
      assert digits == [DigitChar(n)];
    } else {
      DigitsOfNumber(m, digits[..k]);
      DecimalStep(m, d);
      assert digits == digits[..k] + [digits[k]];
    }
  }

  lemma DecimalStep(m: nat, d: nat)
    requires 0 < m && d < 10
    ensures Decimal(10 * m + d) == Decimal(m) + [DigitChar(d)]
  {
    assert (10 * m + d) / 10 == m && (10 * m + d) % 10 == d;
  }

  lemma LastDigit(digits: string, n: nat) returns (m: nat, d: nat)
    requires digits != "" && N.Denotes(10, digits, n)
    ensures d < 10 && var k := |digits| - 1; digits[k] == DigitChar(d) && N.Denotes(10, digits[..k], m)
    ensures n == 10 * m + d && (|digits| == 1 ==> m == 0)
  {
    var k := |digits| - 1;
    m, d :| d < 10 && N.Stands(digits[k], d) && N.Denotes(10, digits[..k], m) && n == 10 * m + d;
    N.DigitValueStands(digits[k], d);
  }

  lemma DecimalDenotesIt(n: nat)
    ensures NumberAs(n, Decimal(n))
  {
    N.DecimalDenotes(Decimal(n));
    DecimalRoundTrip(n);
  }

  // ---------------------------------------------------------------- values

  lemma {:induction false} ItemsWritten(items: seq<Value>, parts: seq<string>)
    requires |parts| == |items| && forall i :: 0 <= i < |items| ==> parts[i] == JsonText(items[i])
    ensures Commas(parts) == ItemsText(items)
  {
    if items != [] {
      var n := |items| - 1;
      ItemsWritten(items[..n], parts[..n]);
    }
  }

  function MemberText(e: Entry): (s: string) { Quoted(e.key) + ":" + JsonText(e.value) }

  lemma {:induction false} EntriesWritten(entries: seq<Entry>, parts: seq<string>)
    requires |parts| == |entries| && forall i :: 0 <= i < |entries| ==> parts[i] == MemberText(entries[i])
    ensures Commas(parts) == EntriesText(entries)
  {
    if entries != [] {
      var n := |entries| - 1;
      EntriesWritten(entries[..n], parts[..n]);
      EntriesTextIs(entries);
    }
  }

  lemma EntriesTextIs(entries: seq<Entry>)
    requires entries != []
    ensures var n := |entries| - 1;
            EntriesText(entries) == (if n == 0 then "" else EntriesText(entries[..n]) + ",") + MemberText(entries[n])
  {
  }

  /** The printer writes the JSON text of the value, and no other text would do. */
  lemma {:induction false} TextIsPrinted(v: Value, s: string)
    ensures PrintsAs(v, s) <==> s == JsonText(v)
    decreases v, 1
  {
    match v
    case Num(n) => if n < 0 { NegativeWritten(n, s); } else { NumberWritten(n, s); }
    case Str(text) => QuotedWritten(text, s);
    case List(items) => ListIsPrinted(items, s);
    case Map(entries) => MembersArePrinted(entries, s);
    case Dict(entries) => MembersArePrinted(entries, s);
    case _ =>
  }

  lemma NegativeWritten(n: int, s: string)
    requires n < 0
    ensures s != "" && s[0] == '-' && NumberAs(-n, s[1..]) <==> s == "-" + Decimal(-n)
  {
    if s != "" {
      NumberWritten(-n, s[1..]);
      assert s == [s[0]] + s[1..];
    }
  }

  lemma ListIsPrinted(items: seq<Value>, s: string)
    ensures PrintsAs(List(items), s) <==> s == "[" + ItemsText(items) + "]"
    decreases items, 0
  {
    var parts := seq(|items|, i requires 0 <= i < |items| => JsonText(items[i]));
    ItemsWritten(items, parts);
    forall i, w | 0 <= i < |items| ensures PrintsAs(items[i], w) <==> w == JsonText(items[i]) {
      TextIsPrinted(items[i], w);
    }
    if PrintsAs(List(items), s) {
      var parts': seq<string> :| |parts'| == |items| && s == "[" + Commas(parts') + "]" &&
        forall i :: 0 <= i < |items| ==> PrintsAs(items[i], parts'[i]);
      assert parts' == parts;
    }
  }

  lemma MembersArePrinted(entries: seq<Entry>, s: string)
    ensures MembersAs(entries, s) <==> s == "{" + EntriesText(entries) + "}"
    decreases entries, 1
  {
    if MembersAs(entries, s) { MembersRead(entries, s); }
    var parts := MemberTexts(entries);
    forall i | 0 <= i < |entries| ensures MemberAs(entries[i], parts[i]) { MemberIsPrinted(entries[i], parts[i]); }
    EntriesWritten(entries, parts);
  }

  function MemberTexts(entries: seq<Entry>): (parts: seq<string>)
    ensures |parts| == |entries| && forall i :: 0 <= i < |entries| ==> parts[i] == MemberText(entries[i])
  {
    seq(|entries|, i requires 0 <= i < |entries| => MemberText(entries[i]))
  }

  lemma MembersRead(entries: seq<Entry>, s: string)
    requires MembersAs(entries, s)
    ensures s == "{" + EntriesText(entries) + "}"
    decreases entries, 0
  {
    var parts: seq<string> :| |parts| == |entries| && s == "{" + Commas(parts) + "}" &&
      forall i :: 0 <= i < |entries| ==> MemberAs(entries[i], parts[i]);
    forall i | 0 <= i < |entries| ensures parts[i] == MemberText(entries[i]) {
      MemberIsPrinted(entries[i], parts[i]);
    }
    EntriesWritten(entries, parts);
  }

  lemma MemberIsPrinted(e: Entry, part: string)
    ensures MemberAs(e, part) <==> part == MemberText(e)
    decreases e, 0
  {
    QuotedWritten(e.key, Quoted(e.key));
    TextIsPrinted(e.value, JsonText(e.value));
    Assoc(Quoted(e.key), ":", JsonText(e.value));
    if MemberAs(e, part) {
      var k, w :| QuotedAs(e.key, k) && PrintsAs(e.value, w) && part == k + (":" + w);
      QuotedWritten(e.key, k);
      TextIsPrinted(e.value, w);
    }
  }

  // ---------------------------------------------------------------- buffers

  lemma {:induction false} ItemIsShorter(items: seq<Value>, i: nat)
    requires i < |items|
    ensures |JsonText(items[i])| <= |ItemsText(items)|
  {
    var n := |items| - 1;
    if i < n { ItemIsShorter(items[..n], i); }
  }

  lemma {:induction false} MemberIsShorter(entries: seq<Entry>, i: nat)
    requires i < |entries|
    ensures |Quoted(entries[i].key)| + |JsonText(entries[i].value)| < |EntriesText(entries)|
  {
    var n := |entries| - 1;
    if i < n { MemberIsShorter(entries[..n], i); }
  }

  /**
   * Printing into a buffer no larger than those for nested values succeeds exactly when the text
   * and its end fit, or, cut off, for a value without text or parts of its own.
   */
  lemma {:induction false} PrintsIff(v: Value, size: nat)
    requires size <= MAX_OUTPUT
    ensures Prints(v, size) <==> v.Empty? || v.Boolean? || v.Num? || |JsonText(v)| < size
  {
    match v
    case List(items) =>
      forall i | 0 <= i < |items| && |JsonText(v)| < size ensures Prints(items[i], MAX_OUTPUT) {
        ItemIsShorter(items, i);
        PrintsIff(items[i], MAX_OUTPUT);
      }
    case Map(entries) => if |JsonText(v)| < size { MembersPrint(entries); }
    case Dict(entries) => if |JsonText(v)| < size { MembersPrint(entries); }
    case _ =>
  }

  lemma MembersPrint(entries: seq<Entry>)
    requires |EntriesText(entries)| < MAX_OUTPUT
    ensures forall i :: 0 <= i < |entries| ==>
      |Quoted(entries[i].key)| < MAX_OUTPUT && Prints(entries[i].value, MAX_OUTPUT)
  {
    forall i | 0 <= i < |entries|
      ensures |Quoted(entries[i].key)| < MAX_OUTPUT && Prints(entries[i].value, MAX_OUTPUT)
    {
      MemberIsShorter(entries, i);
      PrintsIff(entries[i].value, MAX_OUTPUT);
    }
  }
}
