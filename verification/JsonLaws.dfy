/** Parsing what was printed gives the value back, and exactly when. */
module JsonLaws {
  import opened Text
  import opened Values
  import opened Json

  // ---------------------------------------------------------------- the values concerned

  predicate NulFree(s: string) { forall i :: 0 <= i < |s| ==> s[i] != '\0' }

  predicate GoodKey(key: string) { 0 < |key| < MAX_NAME && NulFree(key) }

  predicate DistinctKeys(entries: seq<Entry>) {
    forall i, j :: 0 <= i < j < |entries| ==> entries[i].key != entries[j].key
  }

  /** What the setters of the object layer build, with integers that a double prints in full. */
  predicate Good(v: Value) {
    match v
    case Str(s) => NulFree(s)
    case Num(n) => -NUMBER_LIMIT < n < NUMBER_LIMIT
    case List(items) => forall i :: 0 <= i < |items| ==> Good(items[i])
    case Map(entries) => DistinctKeys(entries) && forall i :: 0 <= i < |entries| ==>
      GoodKey(entries[i].key) && Good(entries[i].value)
    case Dict(entries) => DistinctKeys(entries) && forall i :: 0 <= i < |entries| ==>
      GoodKey(entries[i].key) && Good(entries[i].value)
    case _ => true
  }

  /** The value as the parser builds it: dictionaries come back as maps, nothing else changes. */
  function AsParsed(v: Value): (r: Value) {
    match v
    case List(items) => List(seq(|items|, i requires 0 <= i < |items| => AsParsed(items[i])))
    case Map(entries) =>
      Map(seq(|entries|, i requires 0 <= i < |entries| => Entry(entries[i].key, AsParsed(entries[i].value))))
    case Dict(entries) =>
      Map(seq(|entries|, i requires 0 <= i < |entries| => Entry(entries[i].key, AsParsed(entries[i].value))))
    case _ => v
  }

  predicate NoDict(v: Value) {
    match v
    case List(items) => forall i :: 0 <= i < |items| ==> NoDict(items[i])
    case Map(entries) => forall i :: 0 <= i < |entries| ==> NoDict(entries[i].value)
    case Dict(_) => false
    case _ => true
  }

  lemma {:induction false} AsParsedIsSame(v: Value)
    requires NoDict(v)
    ensures AsParsed(v) == v
  {
    match v
    case List(items) => forall i | 0 <= i < |items| ensures AsParsed(items[i]) == items[i] { AsParsedIsSame(items[i]); }
    case Map(entries) =>
      forall i | 0 <= i < |entries| ensures AsParsed(entries[i].value) == entries[i].value {
        AsParsedIsSame(entries[i].value);
      }
    case _ =>
  }

  /** Small enough for the parser at this depth: nesting up to 128, strings shorter than its buffer. */
  predicate Readable(v: Value, depth: nat) {
    depth <= MAX_DEPTH &&
    match v
    case Str(s) => |s| < MAX_OUTPUT
    case List(items) => forall i :: 0 <= i < |items| ==> Readable(items[i], depth + 1)
    case Map(entries) => forall i :: 0 <= i < |entries| ==> Readable(entries[i].value, depth + 1)
    case Dict(entries) => forall i :: 0 <= i < |entries| ==> Readable(entries[i].value, depth + 1)
    case _ => true
  }

  // ---------------------------------------------------------------- texts in front of a continuation

  function EmitEscapes(s: string, k: string): (r: string) {
    if s == "" then k else Escape(s[0]) + EmitEscapes(s[1..], k)
  }

  function EmitString(s: string, k: string): (r: string) { ['"'] + EmitEscapes(s, ['"'] + k) }

  /** The JSON text of `v` followed by `k`. */
  function Emit(v: Value, k: string): (r: string)
    decreases v, 0
  {
    match v
    case Str(s) => EmitString(s, k)
    case List(items) => ['['] + EmitItems(items, [']'] + k)
    case Map(entries) => ['{'] + EmitEntries(entries, ['}'] + k)
    case Dict(entries) => ['{'] + EmitEntries(entries, ['}'] + k)
    case _ => JsonText(v) + k
  }

  function EmitItems(items: seq<Value>, k: string): (r: string)
    decreases items, 1
  {
    if items == [] then k else
      var n := |items| - 1;
      if n == 0 then Emit(items[0], k) else EmitItems(items[..n], [','] + Emit(items[n], k))
  }

  function EmitEntry(e: Entry, k: string): (r: string)
    decreases e
  {
    EmitString(e.key, [':'] + Emit(e.value, k))
  }

  function EmitEntries(entries: seq<Entry>, k: string): (r: string)
    decreases entries, 1
  {
    if entries == [] then k else
      var n := |entries| - 1;
      if n == 0 then EmitEntry(entries[0], k) else EmitEntries(entries[..n], [','] + EmitEntry(entries[n], k))
  }

  lemma {:induction false} EmitEscapesIs(s: string, k: string)
    ensures EmitEscapes(s, k) == Escapes(s) + k
  {
    if s != "" {
      EmitEscapesIs(s[1..], k);
      Assoc(Escape(s[0]), Escapes(s[1..]), k);
    }
  }

  lemma EmitStringIs(s: string, k: string)
    ensures EmitString(s, k) == Quoted(s) + k
  {
    EmitEscapesIs(s, ['"'] + k);
    Assoc(Escapes(s), ['"'], k);
    Assoc(['"'], Escapes(s) + ['"'], k);
    Assoc(['"'], Escapes(s), ['"']);
  }

  lemma {:induction false} EmitIs(v: Value, k: string)
    ensures Emit(v, k) == JsonText(v) + k
    decreases v, 0
  {
    match v
    case Str(s) => EmitStringIs(s, k);
    case List(items) =>
      EmitItemsIs(items, [']'] + k);
      Wrap('[', ItemsText(items), ']', k);
    case Map(entries) =>
      EmitEntriesIs(entries, ['}'] + k);
      Wrap('{', EntriesText(entries), '}', k);
    case Dict(entries) =>
      EmitEntriesIs(entries, ['}'] + k);
      Wrap('{', EntriesText(entries), '}', k);
    case _ =>
  }

  lemma Wrap(open: char, body: string, close: char, k: string)
    ensures [open] + (body + ([close] + k)) == ([open] + body + [close]) + k
  {
  }

  lemma {:induction false} EmitItemsIs(items: seq<Value>, k: string)
    ensures EmitItems(items, k) == ItemsText(items) + k
    decreases items, 1
  {
    if items != [] {
      var n := |items| - 1;
      EmitIs(items[n], k);
      if n > 0 {
        EmitItemsIs(items[..n], [','] + Emit(items[n], k));
        Comma(ItemsText(items[..n]), JsonText(items[n]), k);
      }
    }
  }

  lemma Comma(a: string, b: string, k: string)
    ensures a + ([','] + (b + k)) == ((a + ",") + b) + k
  {
  }

  lemma {:induction false} EmitEntryIs(e: Entry, k: string)
    ensures EmitEntry(e, k) == (Quoted(e.key) + ":" + JsonText(e.value)) + k
    decreases e, 0
  {
    EmitIs(e.value, k);
    EmitStringIs(e.key, [':'] + Emit(e.value, k));
    Assoc(Quoted(e.key) + ":", JsonText(e.value), k);
    Assoc(Quoted(e.key), [':'], JsonText(e.value) + k);
  }

  lemma {:induction false} EmitEntriesIs(entries: seq<Entry>, k: string)
    ensures EmitEntries(entries, k) == EntriesText(entries) + k
    decreases entries, 1
  {
    if entries != [] {
      var n := |entries| - 1;
      var e := entries[n];
      EmitEntryIs(e, k);
      if n > 0 {
        EmitEntriesIs(entries[..n], [','] + EmitEntry(e, k));
        Comma(EntriesText(entries[..n]), Quoted(e.key) + ":" + JsonText(e.value), k);
      }
    }
  }

  // ---------------------------------------------------------------- strings

  /** An escaped character is read back as the character, if the buffer has room. */
  lemma EscapeStep(c: char, k: string, size: nat, acc: string)
    ensures StringBody(Escape(c) + k, size, acc)
         == if |acc| + 1 >= size then Bad else StringBody(k, size, acc + [c])
  {
    if |Escape(c)| == 1 {
      assert (Escape(c) + k)[1..] == k;
    } else if |Escape(c)| == 2 {
      ShortEscapeStep(c, k, size, acc);
    } else {
      UnicodeStep(c, k);
      assert (Escape(c) + k)[2..] == Escape(c)[2..] + k;
    }
  }

  lemma ShortEscapeStep(c: char, k: string, size: nat, acc: string)
    requires |Escape(c)| == 2
    ensures StringBody(Escape(c) + k, size, acc)
         == if |acc| + 1 >= size then Bad else StringBody(k, size, acc + [c])
  {
    var s := Escape(c) + k;
    assert s[0] == '\\' && s[1] == Escape(c)[1] && s[2..] == k;
    assert SimpleEscape(s[1]) == Some(c);
  }

  lemma UnicodeStep(c: char, k: string)
    requires |Escape(c)| > 2
    ensures UnicodeEscape(Escape(c)[2..] + k) == Ok([c], k)
  {
    var t := Escape(c)[2..] + k;
    assert t[0] == '0' && t[1] == '0' && t[2] == HexChar(c as int / 16) && t[3] == HexChar(c as int % 16);
    assert Hex4(t) == Some(c as int);
    assert t[4..] == k;
  }

  lemma StringEnds(k: string, size: nat, acc: string)
    ensures StringBody(['"'] + k, size, acc) == Ok(acc, k)
  {
    assert (['"'] + k)[1..] == k;
  }

  /** The answer for a string of `s` read behind `acc`. */
  function StringAnswer(s: string, k: string, size: nat, acc: string): (p: Parse<string>) {
    if |acc| + |s| < size then Ok(acc + s, k) else Bad
  }

  lemma {:induction false} StringReads(s: string, k: string, size: nat, acc: string)
    requires |acc| < size
    ensures StringBody(EmitEscapes(s, ['"'] + k), size, acc) == StringAnswer(s, k, size, acc)
    decreases |s|
  {
    if s == "" {
      StringEnds(k, size, acc);
      assert acc + s == acc;
    } else {
      if |acc| + 1 < size { StringReads(s[1..], k, size, acc + [s[0]]); }
      StringStep(s, k, size, acc);
    }
  }

  lemma {:induction false} StringStep(s: string, k: string, size: nat, acc: string)
    requires s != "" && |acc| < size
    requires |acc| + 1 < size ==>
      StringBody(EmitEscapes(s[1..], ['"'] + k), size, acc + [s[0]]) == StringAnswer(s[1..], k, size, acc + [s[0]])
    ensures StringBody(EmitEscapes(s, ['"'] + k), size, acc) == StringAnswer(s, k, size, acc)
  {
    EscapeStep(s[0], EmitEscapes(s[1..], ['"'] + k), size, acc);
    assert (acc + [s[0]]) + s[1..] == acc + s;
  }

  lemma {:induction false} NulFreeCString(s: string)
    requires NulFree(s)
    ensures CString(s) == s
  {
    if s != "" {
      assert NulFree(s[1..]);
      NulFreeCString(s[1..]);
    }
  }

  lemma TokenReads(s: string, k: string, size: nat)
    requires NulFree(s) && size > 0
    ensures StringToken(EmitString(s, k), size) == if |s| < size then Ok(s, k) else Bad
  {
    var t := EmitString(s, k);
    assert t[1..] == EmitEscapes(s, ['"'] + k);
    StringReads(s, k, size, "");
    assert "" + s == s;
    NulFreeCString(s);
  }

  // ---------------------------------------------------------------- numbers

  lemma {:induction false} DigitRun(d: string, k: string)
    requires forall i :: 0 <= i < |d| ==> IsDigit(d[i])
    requires k == "" || !IsDigit(k[0])
    ensures DigitCount(d + k) == |d|
    decreases |d|
  {
    if d == "" {
      assert d + k == k;
    } else {
      assert (d + k)[1..] == d[1..] + k;
      DigitRun(d[1..], k);
    }
  }

  lemma MagnitudeReads(m: nat, k: string)
    requires m < NUMBER_LIMIT && Delimits(k)
    ensures Magnitude(Decimal(m) + k) == Ok(m, k)
  {
    var d := Decimal(m);
    DigitRun(d, k);
    assert (d + k)[..|d|] == d && (d + k)[|d|..] == k && (d + k)[0] == d[0];
    DecimalRoundTrip(m);
  }

  lemma NumberReads(n: int, k: string)
    requires -NUMBER_LIMIT < n < NUMBER_LIMIT && Delimits(k)
    ensures NumberToken(IntegerText(n) + k) == Ok(n, k)
  {
    if n < 0 {
      NegativeReads(-n, k);
    } else {
      MagnitudeReads(n, k);
      assert (Decimal(n) + k)[0] == Decimal(n)[0];
    }
  }

  lemma NegativeReads(m: int, k: string)
    requires 0 < m < NUMBER_LIMIT && Delimits(k)
    ensures NumberToken(IntegerText(-m) + k) == Ok(-m, k)
  {
    MagnitudeReads(m, k);
    Assoc(['-'], Decimal(m), k);
    var body := Decimal(m) + k;
    assert (['-'] + body)[1..] == body;
  }

  // ---------------------------------------------------------------- values

  /** First characters of values are neither white space nor closing brackets. */
  predicate ValueStart(c: char) { !IsJsonSpace(c) && c != ']' && c != '}' && c != ',' && c != ':' }

  lemma EmitStarts(v: Value, k: string)
    ensures Emit(v, k) != "" && ValueStart(Emit(v, k)[0])
  {
    if v.Num? {
      var s := IntegerText(v.n);
      assert s[0] == '-' || IsDigit(s[0]);
      assert (s + k)[0] == s[0];
    }
  }

  lemma {:induction false} EmitItemsStarts(items: seq<Value>, k: string)
    requires items != []
    ensures EmitItems(items, k) != "" && ValueStart(EmitItems(items, k)[0])
    decreases |items|
  {
    var n := |items| - 1;
    EmitStarts(items[n], k);
    if n > 0 { EmitItemsStarts(items[..n], [','] + Emit(items[n], k)); }
  }

  lemma {:induction false} EmitEntriesStarts(entries: seq<Entry>, k: string)
    requires entries != []
    ensures EmitEntries(entries, k) != "" && ValueStart(EmitEntries(entries, k)[0])
    decreases |entries|
  {
    var n := |entries| - 1;
    if n > 0 { EmitEntriesStarts(entries[..n], [','] + EmitEntry(entries[n], k)); }
  }

  lemma NoSpace(s: string)
    requires s == "" || !IsJsonSpace(s[0])
    ensures SkipWs(s) == s
  {
  }

  lemma ReadsWord(v: Value, depth: nat, k: string)
    requires (v.Empty? || v.Boolean?) && depth <= MAX_DEPTH
    ensures ParseValue(JsonText(v) + k, depth) == Ok(v, k)
  {
    var w := JsonText(v);
    WordAhead(w, k);
    NoSpace(w + k);
  }

  lemma WordAhead(w: string, k: string)
    requires w == "null" || w == "true" || w == "false"
    ensures var s := w + k; s[|w|..] == k && s[0] == w[0] && w <= s && !IsJsonSpace(s[0])
  {
    assert w[0] == 'n' || w[0] == 't' || w[0] == 'f';
  }

  lemma ReadsNumber(n: int, depth: nat, k: string)
    requires -NUMBER_LIMIT < n < NUMBER_LIMIT && Delimits(k) && depth <= MAX_DEPTH
    ensures ParseValue(IntegerText(n) + k, depth) == Ok(Num(n), k)
  {
    NumberReads(n, k);
    assert (IntegerText(n) + k)[0] == IntegerText(n)[0];
    NumberValue(IntegerText(n) + k, depth);
  }

  lemma NumberValue(s: string, depth: nat)
    requires s != "" && (s[0] == '-' || IsDigit(s[0])) && depth <= MAX_DEPTH && NumberToken(s).Ok?
    ensures ParseValue(s, depth) == Ok(Num(NumberToken(s).v), NumberToken(s).rest)
  {
    NoSpace(s);
  }

  /** What the parser yields for a whole value, in front of a delimiter. */
  function Answer(v: Value, depth: nat, k: string): (p: Parse<Value>) {
    if Readable(v, depth) then Ok(AsParsed(v), k) else Bad
  }

  function ParsedItems(items: seq<Value>): (r: seq<Value>) {
    seq(|items|, i requires 0 <= i < |items| => AsParsed(items[i]))
  }

  function ParsedEntries(entries: seq<Entry>): (r: seq<Entry>) {
    seq(|entries|, i requires 0 <= i < |entries| => Entry(entries[i].key, AsParsed(entries[i].value)))
  }

  predicate AllReadable(items: seq<Value>, depth: nat) { forall i :: 0 <= i < |items| ==> Readable(items[i], depth) }

  predicate AllEntriesReadable(entries: seq<Entry>, depth: nat) {
    forall i :: 0 <= i < |entries| ==> Readable(entries[i].value, depth)
  }

  predicate GoodEntries(entries: seq<Entry>) {
    DistinctKeys(entries) && forall i :: 0 <= i < |entries| ==> GoodKey(entries[i].key) && Good(entries[i].value)
  }

  lemma {:induction false} ReadsBack(v: Value, depth: nat, k: string)
    requires Good(v) && Delimits(k) && depth <= MAX_DEPTH + 1
    ensures ParseValue(Emit(v, k), depth) == Answer(v, depth, k)
    decreases v, 0
  {
    if depth > MAX_DEPTH { return; }
    EmitStarts(v, k);
    NoSpace(Emit(v, k));
    match v
    case Str(s) => TokenReads(s, k, MAX_OUTPUT);
    case List(items) => ReadsList(items, depth, k);
    case Map(entries) => ReadsMap(entries, depth, k);
    case Dict(entries) => ReadsMap(entries, depth, k);
    case Num(n) => ReadsNumber(n, depth, k);
    case _ => ReadsWord(v, depth, k);
  }

  lemma {:induction false} ReadsList(items: seq<Value>, depth: nat, k: string)
    requires (forall i :: 0 <= i < |items| ==> Good(items[i])) && depth <= MAX_DEPTH
    ensures ParseValue(['['] + EmitItems(items, [']'] + k), depth)
         == if AllReadable(items, depth + 1) then Ok(List(ParsedItems(items)), k) else Bad
    decreases items, 3
  {
    var u := EmitItems(items, [']'] + k);
    var t := ['['] + u;
    assert t[1..] == u;
    NoSpace(t);
    if items == [] {
      NoSpace(u);
      assert u[1..] == k && ParsedItems(items) == [];
    } else {
      EmitItemsStarts(items, [']'] + k);
      NoSpace(u);
      ReadsItems(items, depth + 1, [], [']'] + k);
      NoSpace([']'] + k);
      assert ([']'] + k)[1..] == k && [] + ParsedItems(items) == ParsedItems(items);
      assert AfterItem([']'] + k, depth + 1, ParsedItems(items)) == Ok(ParsedItems(items), k);
    }
  }

  lemma LastItem(items: seq<Value>, n: nat, depth: nat, acc: seq<Value>)
    requires n + 1 == |items|
    ensures AllReadable(items, depth) <==> AllReadable(items[..n], depth) && Readable(items[n], depth)
    ensures acc + ParsedItems(items[..n]) + [AsParsed(items[n])] == acc + ParsedItems(items)
  {
    Assoc(acc, ParsedItems(items[..n]), [AsParsed(items[n])]);
  }

  lemma {:induction false} ReadsItems(items: seq<Value>, depth: nat, acc: seq<Value>, k: string)
    requires (forall i :: 0 <= i < |items| ==> Good(items[i])) && items != [] && Delimits(k) && depth <= MAX_DEPTH + 1
    ensures ParseItems(EmitItems(items, k), depth, acc)
         == if AllReadable(items, depth) then AfterItem(k, depth, acc + ParsedItems(items)) else Bad
    decreases items, 2
  {
    var n := |items| - 1;
    LastItem(items, n, depth, acc);
    if n == 0 {
      assert acc + ParsedItems(items[..0]) == acc;
      ReadsItem(items[0], depth, acc, k);
    } else {
      var k' := [','] + Emit(items[n], k);
      var acc' := acc + ParsedItems(items[..n]);
      assert ParseItems(EmitItems(items, k), depth, acc)
          == if AllReadable(items[..n], depth) then AfterItem(k', depth, acc') else Bad by {
        ReadsItems(items[..n], depth, acc, k');
      }
      assert AfterItem(k', depth, acc')
          == if Readable(items[n], depth) then AfterItem(k, depth, acc' + [AsParsed(items[n])]) else Bad by {
        AfterComma(items[n], depth, acc', k);
        ReadsItem(items[n], depth, acc', k);
      }
    }
  }

  lemma AfterComma(v: Value, depth: nat, acc: seq<Value>, k: string)
    ensures AfterItem([','] + Emit(v, k), depth, acc) == ParseItems(Emit(v, k), depth, acc)
  {
    EmitStarts(v, k);
    NoSpace([','] + Emit(v, k));
    NoSpace(Emit(v, k));
    assert ([','] + Emit(v, k))[1..] == Emit(v, k);
  }

  lemma {:induction false} ReadsItem(v: Value, depth: nat, acc: seq<Value>, k: string)
    requires Good(v) && Delimits(k) && depth <= MAX_DEPTH + 1
    ensures ParseItems(Emit(v, k), depth, acc)
         == if Readable(v, depth) then AfterItem(k, depth, acc + [AsParsed(v)]) else Bad
    decreases v, 1
  {
    EmitStarts(v, k);
    ReadsBack(v, depth, k);
  }

  lemma {:induction false} ReadsMap(entries: seq<Entry>, depth: nat, k: string)
    requires GoodEntries(entries) && depth <= MAX_DEPTH
    ensures ParseValue(['{'] + EmitEntries(entries, ['}'] + k), depth)
         == if AllEntriesReadable(entries, depth + 1) then Ok(Map(ParsedEntries(entries)), k) else Bad
    decreases entries, 3
  {
    var u := EmitEntries(entries, ['}'] + k);
    var t := ['{'] + u;
    assert t[1..] == u;
    NoSpace(t);
    if entries == [] {
      NoSpace(u);
      assert u[1..] == k && ParsedEntries(entries) == [];
    } else {
      EmitEntriesStarts(entries, ['}'] + k);
      NoSpace(u);
      ReadsAllEntries(entries, depth + 1, k);
    }
  }

  lemma {:induction false} ReadsAllEntries(entries: seq<Entry>, depth: nat, k: string)
    requires GoodEntries(entries) && entries != [] && depth <= MAX_DEPTH + 1
    ensures ParseEntries(EmitEntries(entries, ['}'] + k), depth, [])
         == if AllEntriesReadable(entries, depth) then Ok(ParsedEntries(entries), k) else Bad
    decreases entries, 2, 1
  {
    ReadsEntries(entries, depth, ['}'] + k);
    NoSpace(['}'] + k);
    assert (['}'] + k)[1..] == k;
  }

  lemma {:induction false} ReadsEntry(e: Entry, depth: nat, acc: seq<Entry>, k: string)
    requires GoodKey(e.key) && Good(e.value) && Delimits(k) && depth <= MAX_DEPTH + 1
    requires !HasKey(acc, e.key)
    ensures ParseEntries(EmitEntry(e, k), depth, acc)
         == if Readable(e.value, depth) then AfterEntry(k, depth, acc + [Entry(e.key, AsParsed(e.value))]) else Bad
    decreases e, 1
  {
    var k' := [':'] + Emit(e.value, k);
    TokenReads(e.key, k', MAX_NAME);
    NoSpace(k');
    assert k'[1..] == Emit(e.value, k);
    EmitStarts(e.value, k);
    NoSpace(Emit(e.value, k));
    ReadsBack(e.value, depth, k);
    FindAbsent(acc, e.key);
  }

  lemma GoodFront(entries: seq<Entry>, n: nat)
    requires GoodEntries(entries) && n < |entries|
    ensures GoodEntries(entries[..n]) && !HasKey(ParsedEntries(entries[..n]), entries[n].key)
  {
  }

  lemma LastEntry(entries: seq<Entry>, n: nat, depth: nat)
    requires n + 1 == |entries|
    ensures AllEntriesReadable(entries, depth) <==>
      AllEntriesReadable(entries[..n], depth) && Readable(entries[n].value, depth)
    ensures ParsedEntries(entries[..n]) + [Entry(entries[n].key, AsParsed(entries[n].value))] == ParsedEntries(entries)
  {
  }

  lemma {:induction false} ReadsEntries(entries: seq<Entry>, depth: nat, k: string)
    requires GoodEntries(entries) && entries != [] && Delimits(k) && depth <= MAX_DEPTH + 1
    ensures ParseEntries(EmitEntries(entries, k), depth, [])
         == if AllEntriesReadable(entries, depth) then AfterEntry(k, depth, ParsedEntries(entries)) else Bad
    decreases entries, 2, 0
  {
    var n := |entries| - 1;
    var e := entries[n];
    var last := Entry(e.key, AsParsed(e.value));
    if n == 0 {
      ReadsEntry(e, depth, [], k);
      LastEntry(entries, 0, depth);
      assert ParsedEntries(entries[..0]) == [];
    } else {
      var k' := [','] + EmitEntry(e, k);
      var acc := ParsedEntries(entries[..n]);
      LastEntry(entries, n, depth);
      GoodFront(entries, n);
      assert ParseEntries(EmitEntries(entries, k), depth, [])
          == if AllEntriesReadable(entries[..n], depth) then AfterEntry(k', depth, acc) else Bad by {
        ReadsEntries(entries[..n], depth, k');
      }
      assert AfterEntry(k', depth, acc)
          == if Readable(e.value, depth) then AfterEntry(k, depth, acc + [last]) else Bad by {
        AfterCommaEntry(e, depth, acc, k);
        ReadsEntry(e, depth, acc, k);
      }
    }
  }

  lemma AfterCommaEntry(e: Entry, depth: nat, acc: seq<Entry>, k: string)
    ensures AfterEntry([','] + EmitEntry(e, k), depth, acc) == ParseEntries(EmitEntry(e, k), depth, acc)
  {
    NoSpace([','] + EmitEntry(e, k));
    NoSpace(EmitEntry(e, k));
    assert ([','] + EmitEntry(e, k))[1..] == EmitEntry(e, k);
  }

  // ---------------------------------------------------------------- the round trip

  /** Cutting digits off a numeral makes it a smaller number. */
  lemma {:induction false} PrefixIsSmaller(n: nat, j: nat)
    requires j < |Decimal(n)|
    ensures DecimalValue(Decimal(n)[..j]) < n || n == 0
    decreases n
  {
    var d := Decimal(n);
    if n >= 10 {
      if j == |d| - 1 {
        assert d[..j] == Decimal(n / 10);
        DecimalRoundTrip(n / 10);
      } else {
        assert d[..j] == Decimal(n / 10)[..j];
        PrefixIsSmaller(n / 10, j);
      }
    } else {
      assert d[..j] == "";
    }
  }

  lemma CutMagnitude(n: nat, j: nat)
    requires j < |Decimal(n)| && (n == 0 ==> j == 0)
    ensures var p := Magnitude(Decimal(n)[..j]); p.Ok? ==> p.v != n
  {
    var t := Decimal(n)[..j];
    assert t + "" == t;
    DigitRun(t, "");
    assert t[..|t|] == t;
    PrefixIsSmaller(n, j);
  }

  /** A scalar whose text was cut off is not read back. */
  lemma CutScalar(v: Value, size: nat)
    requires Scalar(v) && Good(v) && 0 < size <= |JsonText(v)|
    ensures ParseJson(Printed(v, size)) != Ok(v, "")
  {
    var t := Printed(v, size);
    match v
    case Boolean(b) =>
      NoSpace(t);
      if t != "" { assert t[0] == JsonText(v)[0]; }
    case Empty =>
      NoSpace(t);
      if t != "" { assert t[0] == 'n'; }
    case Num(n) => CutNumber(n, size);
  }

  lemma CutNumber(n: int, size: nat)
    requires 0 < size <= |IntegerText(n)|
    ensures ParseJson(IntegerText(n)[..size - 1]) != Ok(Num(n), "")
  {
    var t := IntegerText(n)[..size - 1];
    if t != "" {
      assert t[0] == IntegerText(n)[0];
      OnlyANumber(t);
      CutToken(n, size - 1);
    }
  }

  lemma OnlyANumber(t: string)
    requires t != "" && (t[0] == '-' || IsDigit(t[0]))
    ensures ParseJson(t).Ok? ==> NumberToken(t).Ok? && ParseJson(t).v == Num(NumberToken(t).v)
  {
    NoSpace(t);
  }

  lemma CutToken(n: int, j: nat)
    requires 0 < j < |IntegerText(n)|
    ensures var t := IntegerText(n)[..j];
            (t[0] == '-' || IsDigit(t[0])) && (NumberToken(t).Ok? ==> NumberToken(t).v != n)
  {
    if n < 0 {
      CutNegative(-n, Decimal(-n), ("-" + Decimal(-n))[..j], j);
    } else {
      CutPositive(n, Decimal(n)[..j], j);
    }
  }

  lemma CutPositive(n: nat, t: string, j: nat)
    requires 0 < j < |Decimal(n)| && t == Decimal(n)[..j]
    ensures t != "" && IsDigit(t[0]) && t[0] != '-' && (NumberToken(t).Ok? ==> NumberToken(t).v != n)
  {
    assert t[0] == Decimal(n)[0];
    CutMagnitude(n, j);
  }

  lemma CutNegative(n: int, d: string, t: string, j: nat)
    requires n > 0 && d == Decimal(n) && 0 < j <= |d| && t == ("-" + d)[..j]
    ensures t != "" && t[0] == '-' && (NumberToken(t).Ok? ==> NumberToken(t).v != -n)
  {
    CutMinus(d, j);
    CutMagnitude(n, j - 1);
  }

  lemma CutMinus(d: string, j: nat)
    requires 0 < j <= |d|
    ensures ("-" + d)[..j][0] == '-' && ("-" + d)[..j][1..] == d[..j - 1]
  {
  }

  /**
  Round trip. Whenever the printer reports success, parsing its text gives the value back, key
  order included, exactly when the text was not cut off (which only happens to a scalar) and
  the value is small enough for the parser.
  */
  lemma JsonRoundTrip(v: Value, size: nat)
    requires Good(v) && size > 0 && Prints(v, size)
    ensures ParseJson(Printed(v, size)) == Ok(AsParsed(v), "") <==>
            (Scalar(v) ==> |JsonText(v)| < size) && Readable(v, 0)
  {
    if |JsonText(v)| < size {
      EmitIs(v, "");
      assert JsonText(v) + "" == JsonText(v);
      ReadsBack(v, 0, "");
    } else {
      CutScalar(v, size);
    }
  }

  // ---------------------------------------------------------------- deep nesting

  /** `n` lists around null. */
  function Nest(n: nat): (v: Value) { if n == 0 then Empty else List([Nest(n - 1)]) }

  lemma {:induction false} NestIs(n: nat, depth: nat)
    ensures Good(Nest(n)) && NoDict(Nest(n)) && |JsonText(Nest(n))| == 4 + 2 * n
    ensures Readable(Nest(n), depth) <==> depth + n <= MAX_DEPTH
    decreases n
  {
    if n > 0 {
      NestIs(n - 1, depth + 1);
      var items := [Nest(n - 1)];
      assert items[0] == Nest(n - 1) && ItemsText(items) == "" + JsonText(items[0]);
    }
  }

  lemma {:induction false} NestPrints(n: nat, size: nat)
    requires 4 + 2 * n < size && 4 + 2 * n < MAX_OUTPUT
    ensures Prints(Nest(n), size)
    decreases n
  {
    NestIs(n, 0);
    if n > 0 { NestPrints(n - 1, MAX_OUTPUT); }
  }

  /** Nested lists that print are read back exactly up to the depth of the parser: 129 of them are not. */
  lemma NestedReadsBackIff(n: nat, size: nat)
    requires 4 + 2 * n < size && 4 + 2 * n < MAX_OUTPUT
    ensures Prints(Nest(n), size)
    ensures ParseJson(Printed(Nest(n), size)) == Ok(Nest(n), "") <==> n <= 128
  {
    NestIs(n, 0);
    NestPrints(n, size);
    AsParsedIsSame(Nest(n));
    JsonRoundTrip(Nest(n), size);
  }
}
