/**
JSON texts as RFC 8259 (sections 2 to 7) writes them, with any white space: the parser accepts
exactly these, within its limits, and gives the values they stand for.
*/
module JsonGrammar {
  import opened Text
  import opened Values
  import opened Json
  import opened JsonStrings
  import N = Numerals

  // ---------------------------------------------------------------- texts

  datatype Doc =
    | JNull
    | JTrue
    | JFalse
    | JNumber(minus: bool, digits: string, n: nat)
    | JString(pieces: seq<Piece>, text: string)
    | JEmptyArray(ws: string)
    | JArray(items: seq<Item>)
    | JEmptyObject(ws: string)
    | JObject(members: seq<Member>)

  /** A value with white space around it. */
  datatype Item = Item(before: string, doc: Doc, after: string)

  /** A key, a colon and a value, with white space around each. */
  datatype Member = Member(before: string, pieces: seq<Piece>, key: string, mid: string, item: Item)

  /** Blanks, tabs, line feeds and carriage returns. */
  predicate AllBlank(ws: string) {
    forall i :: 0 <= i < |ws| ==> ws[i] == ' ' || ws[i] == '\t' || ws[i] == '\n' || ws[i] == '\r'
  }

  /** A well-formed text whose values nest at most `room` deep, within the limits of the parser. */
  ghost predicate Valid(d: Doc, room: int)
    decreases d
  {
    room >= 0 &&
    match d
    case JNumber(_, digits, n) => GoodNumber(digits, n)
    case JString(pieces, text) => ValidString(pieces, text, 8192)
    case JEmptyArray(ws) => AllBlank(ws)
    case JArray(items) => items != [] && forall i :: 0 <= i < |items| ==> ValidItem(items[i], room - 1)
    case JEmptyObject(ws) => AllBlank(ws)
    case JObject(members) => members != [] && forall i :: 0 <= i < |members| ==> ValidMember(members[i], room - 1)
    case _ => true
  }

  ghost predicate ValidItem(it: Item, room: int)
    decreases it
  {
    AllBlank(it.before) && Valid(it.doc, room) && AllBlank(it.after)
  }

  ghost predicate ValidMember(m: Member, room: int)
    decreases m
  {
    AllBlank(m.before) && ValidString(m.pieces, m.key, 128) && m.key != "" && AllBlank(m.mid) && ValidItem(m.item, room)
  }

  /** The text of `d`, in front of `k`. */
  function Write(d: Doc, k: string): (s: string)
    decreases d, 0
  {
    match d
    case JNull => "null" + k
    case JTrue => "true" + k
    case JFalse => "false" + k
    case JNumber(minus, digits, _) => (if minus then "-" else "") + (digits + k)
    case JString(pieces, _) => WriteString(pieces, k)
    case JEmptyArray(ws) => ['['] + (ws + ([']'] + k))
    case JArray(items) => ['['] + WriteItems(items, k)
    case JEmptyObject(ws) => ['{'] + (ws + (['}'] + k))
    case JObject(members) => ['{'] + WriteMembers(members, k)
  }

  function WriteItem(it: Item, k: string): (s: string)
    decreases it
  {
    it.before + Write(it.doc, it.after + k)
  }

  function WriteItems(items: seq<Item>, k: string): (s: string)
    decreases items
  {
    if items == [] then k
    else WriteItem(items[0], if |items| == 1 then [']'] + k else [','] + WriteItems(items[1..], k))
  }

  function WriteMember(m: Member, k: string): (s: string)
    decreases m
  {
    m.before + WriteString(m.pieces, m.mid + ([':'] + WriteItem(m.item, k)))
  }

  function WriteMembers(members: seq<Member>, k: string): (s: string)
    decreases members
  {
    if members == [] then k
    else WriteMember(members[0], if |members| == 1 then ['}'] + k else [','] + WriteMembers(members[1..], k))
  }

  /** The value that the text stands for; of members with one key the last one counts. */
  function ValueOf(d: Doc): (v: Value)
    decreases d
  {
    match d
    case JNull => Empty
    case JTrue => Boolean(true)
    case JFalse => Boolean(false)
    case JNumber(minus, _, n) => Num(if minus then 0 - n else n)
    case JString(_, text) => Str(text)
    case JEmptyArray(_) => List([])
    case JArray(items) => List(ValuesOf(items))
    case JEmptyObject(_) => Map([])
    case JObject(members) => Map(EntriesOf(members, []))
  }

  function ValuesOf(items: seq<Item>): (vs: seq<Value>)
    decreases items
  {
    if items == [] then [] else [ValueOf(items[0].doc)] + ValuesOf(items[1..])
  }

  function EntriesOf(members: seq<Member>, acc: seq<Entry>): (entries: seq<Entry>)
    decreases members
  {
    if members == [] then acc
    else EntriesOf(members[1..], Put(acc, members[0].key, ValueOf(members[0].item.doc)))
  }

  // ---------------------------------------------------------------- white space

  lemma {:induction false} BlankSkipped(ws: string, k: string)
    requires AllBlank(ws)
    ensures SkipWs(ws + k) == SkipWs(k)
  {
    if ws == "" {
      assert ws + k == k;
    } else {
      assert (ws + k)[1..] == ws[1..] + k;
      BlankSkipped(ws[1..], k);
    }
  }

  /** White space up to something else is skipped. */
  lemma BlankBefore(ws: string, k: string)
    requires AllBlank(ws) && k != "" && !AllBlank(k[..1])
    ensures SkipWs(ws + k) == k
  {
    BlankSkipped(ws, k);
    assert k[..1][0] == k[0];
  }

  lemma {:induction false} BlankTaken(s: string) returns (ws: string)
    ensures AllBlank(ws) && s == ws + SkipWs(s) && (SkipWs(s) != "" ==> !AllBlank(SkipWs(s)[..1]))
  {
    if s != "" && IsJsonSpace(s[0]) {
      var ws' := BlankTaken(s[1..]);
      ws := [s[0]] + ws';
      assert s == [s[0]] + s[1..];
    } else {
      ws := "";
      if s != "" { assert s[..1][0] == s[0]; }
    }
  }

  // ---------------------------------------------------------------- numbers

  /** What may follow a number. */
  predicate Closes(k: string) { k == "" || k[0] == ',' || k[0] == ']' || k[0] == '}' || AllBlank(k[..1]) }

  lemma ClosesDelimits(k: string)
    ensures Closes(k) <==> Delimits(k)
  {
    if k != "" { assert k[..1][0] == k[0]; }
  }

  lemma {:induction false} DigitRun(d: string, k: string)
    requires forall i :: 0 <= i < |d| ==> IsDigit(d[i])
    requires k == "" || !IsDigit(k[0])
    ensures DigitCount(d + k) == |d|
    decreases |d|
  {
    if d == "" {
      assert d + k == k;
    } else {
      assert (d + k)[1..] == d[1..] + k;
      DigitRun(d[1..], k);
    }
  }

  lemma DecimalIs(digits: string, n: nat)
    ensures N.Denotes(10, digits, n) <==>
            (forall i :: 0 <= i < |digits| ==> IsDigit(digits[i])) && DecimalValue(digits) == n
  {
    if N.Denotes(10, digits, n) { N.DenotesAllIn(10, digits, n); }
    if forall i :: 0 <= i < |digits| ==> IsDigit(digits[i]) {
      N.DecimalDenotes(digits);
      if N.Denotes(10, digits, n) { N.DenotesOne(10, digits, n, DecimalValue(digits)); }
    }
  }

  ghost predicate GoodNumber(digits: string, n: nat) {
    N.Denotes(10, digits, n) && digits != "" && (digits[0] == '0' ==> digits == "0") && n < 1_000_000_000_000_000
  }

  lemma MagnitudeIs(digits: string, n: nat, k: string)
    requires GoodNumber(digits, n) && Closes(k)
    ensures Magnitude(digits + k) == Ok(n, k) && IsDigit((digits + k)[0])
  {
    ClosesDelimits(k);
    DecimalIs(digits, n);
    DigitRun(digits, k);
    var s := digits + k;
    assert s[..|digits|] == digits && s[|digits|..] == k && s[0] == digits[0];
  }

  lemma NumberIs(minus: bool, digits: string, n: nat, k: string)
    requires GoodNumber(digits, n) && Closes(k)
    ensures var s := (if minus then "-" else "") + (digits + k);
            (s[0] == '-' || IsDigit(s[0])) && NumberToken(s) == Ok(if minus then 0 - n else n, k)
  {
    MagnitudeIs(digits, n, k);
    if minus { assert ("-" + (digits + k))[1..] == digits + k; } else { assert "" + (digits + k) == digits + k; }
  }

  lemma NumberTaken(s: string) returns (minus: bool, digits: string, n: nat)
    requires s != "" && (s[0] == '-' || IsDigit(s[0])) && NumberToken(s).Ok?
    ensures GoodNumber(digits, n) && Closes(NumberToken(s).rest)
    ensures NumberToken(s).v == if minus then 0 - n else n
    ensures s == (if minus then "-" else "") + (digits + NumberToken(s).rest)
  {
    minus := s[0] == '-';
    var t := if minus then s[1..] else s;
    digits, n := MagnitudeTaken(t);
    assert minus ==> s == "-" + t;
    assert !minus ==> s == "" + t;
  }

  lemma MagnitudeTaken(t: string) returns (digits: string, n: nat)
    requires Magnitude(t).Ok?
    ensures GoodNumber(digits, n) && Magnitude(t).v == n && t == digits + Magnitude(t).rest && Closes(Magnitude(t).rest)
  {
    digits := t[..DigitCount(t)];
    N.DecimalDenotes(digits);
    n := DecimalValue(digits);
    ClosesDelimits(t[|digits|..]);
    assert t == digits + t[|digits|..];
  }

  // ---------------------------------------------------------------- every text is read

  /** Neither white space nor anything that ends a list or an object can start a value. */
  predicate Starts(s: string) { s != "" && !AllBlank(s[..1]) && s[0] != ']' && s[0] != '}' }

  lemma WriteStarts(d: Doc, k: string, room: int)
    requires Valid(d, room)
    ensures Starts(Write(d, k))
  {
    if d.JNumber? {
      DecimalIs(d.digits, d.n);
      assert !d.minus ==> Write(d, k)[0] == d.digits[0];
    }
    assert Write(d, k)[..1][0] == Write(d, k)[0];
  }

  lemma StartsHere(s: string)
    requires Starts(s)
    ensures SkipWs(s) == s
  {
    assert s[..1][0] == s[0];
  }

  /** A value is read in front of whatever may follow it. */
  lemma {:induction false} DocReads(d: Doc, k: string, depth: nat)
    requires Valid(d, 128 - depth) && Closes(k)
    ensures ParseValue(Write(d, k), depth) == Ok(ValueOf(d), k)
    decreases d, 1
  {
    match d
    case JEmptyArray(ws) => EmptyReads('[', ']', ws, k, depth);
    case JArray(items) =>
      var next := depth + 1;
      ItemsRead(items, k, next, []);
      ArrayReads(items, k, depth, next);
    case JEmptyObject(ws) => EmptyReads('{', '}', ws, k, depth);
    case JObject(members) =>
      var next := depth + 1;
      MembersRead(members, k, next, []);
      ObjectReads(members, k, depth, next);
    case _ => AtomReads(d, k, depth);
  }

  lemma AtomReads(d: Doc, k: string, depth: nat)
    requires Valid(d, 128 - depth) && Closes(k)
    requires d.JNull? || d.JTrue? || d.JFalse? || d.JNumber? || d.JString?
    ensures ParseValue(Write(d, k), depth) == Ok(ValueOf(d), k)
  {
    WriteStarts(d, k, 128 - depth);
    StartsHere(Write(d, k));
    match d
    case JNull => NullReads(k, depth);
    case JTrue => TrueReads(k, depth);
    case JFalse => FalseReads(k, depth);
    case JNumber(minus, digits, n) => NumberReads(minus, digits, n, k, depth);
    case JString(pieces, text) =>
      StringReads(pieces, text, 8192, k);
      QuotedHere(Write(d, k), text, k, depth);
  }

  lemma QuotedHere(s: string, text: string, k: string, depth: nat)
    requires depth <= 128 && s != "" && s[0] == '"' && SkipWs(s) == s && StringToken(s, 8192) == Ok(text, k)
    ensures ParseValue(s, depth) == Ok(Str(text), k)
  {
  }

  lemma NumberReads(minus: bool, digits: string, n: nat, k: string, depth: nat)
    requires GoodNumber(digits, n) && Closes(k) && depth <= 128
    requires var s := (if minus then "-" else "") + (digits + k); SkipWs(s) == s
    ensures ParseValue((if minus then "-" else "") + (digits + k), depth) == Ok(Num(if minus then 0 - n else n), k)
  {
    var s := (if minus then "-" else "") + (digits + k);
    NumberIs(minus, digits, n, k);
    NumeralHere(s, if minus then 0 - n else n, k, depth);
  }

  lemma NumeralHere(s: string, n: int, k: string, depth: nat)
    requires depth <= 128 && s != "" && (s[0] == '-' || IsDigit(s[0])) && SkipWs(s) == s && NumberToken(s) == Ok(n, k)
    ensures ParseValue(s, depth) == Ok(Num(n), k)
  {
    assert "true"[0] == 't' && "false"[0] == 'f' && "null"[0] == 'n';
  }

  lemma NullReads(k: string, depth: nat)
    requires depth <= 128 && SkipWs("null" + k) == "null" + k
    ensures ParseValue("null" + k, depth) == Ok(Empty, k)
  {
    assert ("null" + k)[0] == 'n' && "null" <= "null" + k && ("null" + k)[4..] == k;
  }

  lemma TrueReads(k: string, depth: nat)
    requires depth <= 128 && SkipWs("true" + k) == "true" + k
    ensures ParseValue("true" + k, depth) == Ok(Boolean(true), k)
  {
    assert ("true" + k)[0] == 't' && "true" <= "true" + k && ("true" + k)[4..] == k;
  }

  lemma FalseReads(k: string, depth: nat)
    requires depth <= 128 && SkipWs("false" + k) == "false" + k
    ensures ParseValue("false" + k, depth) == Ok(Boolean(false), k)
  {
    assert ("false" + k)[0] == 'f' && "false" <= "false" + k && ("false" + k)[5..] == k;
  }

  lemma EmptyReads(open: char, close: char, ws: string, k: string, depth: nat)
    requires (open == '[' && close == ']') || (open == '{' && close == '}')
    requires AllBlank(ws) && depth <= 128
    ensures ParseValue([open] + (ws + ([close] + k)), depth) == Ok(if open == '[' then List([]) else Map([]), k)
  {
    var s := [open] + (ws + ([close] + k));
    assert s[..1][0] == open && s[1..] == ws + ([close] + k);
    StartsHere(s);
    assert ([close] + k)[..1][0] == close;
    BlankBefore(ws, [close] + k);
    assert ([close] + k)[1..] == k;
  }

  lemma ArrayReads(items: seq<Item>, k: string, depth: nat, next: nat)
    requires depth <= 128 && next == depth + 1 && Starts(SkipWs(WriteItems(items, k)))
    requires ParseItems(SkipWs(WriteItems(items, k)), next, []) == Ok([] + ValuesOf(items), k)
    ensures ParseValue(['['] + WriteItems(items, k), depth) == Ok(List(ValuesOf(items)), k)
  {
    var s := ['['] + WriteItems(items, k);
    assert s[..1][0] == '[' && s[1..] == WriteItems(items, k);
    StartsHere(s);
    assert [] + ValuesOf(items) == ValuesOf(items);
  }

  lemma ObjectReads(members: seq<Member>, k: string, depth: nat, next: nat)
    requires depth <= 128 && next == depth + 1 && Starts(SkipWs(WriteMembers(members, k)))
    requires ParseEntries(SkipWs(WriteMembers(members, k)), next, []) == Ok(EntriesOf(members, []), k)
    ensures ParseValue(['{'] + WriteMembers(members, k), depth) == Ok(Map(EntriesOf(members, [])), k)
  {
    var s := ['{'] + WriteMembers(members, k);
    assert s[..1][0] == '{' && s[1..] == WriteMembers(members, k);
    StartsHere(s);
  }

  /** Behind its leading white space, an item is read up to what follows it. */
  lemma {:induction false} ItemReads(it: Item, k: string, depth: nat)
    requires ValidItem(it, 128 - depth) && k != "" && (k[0] == ',' || k[0] == ']' || k[0] == '}')
    ensures var s := SkipWs(WriteItem(it, k));
            Starts(s) && ParseValue(s, depth) == Ok(ValueOf(it.doc), it.after + k) && SkipWs(it.after + k) == k
    decreases it
  {
    var t := Write(it.doc, it.after + k);
    WriteStarts(it.doc, it.after + k, 128 - depth);
    BlankBefore(it.before, t);
    assert k[..1][0] == k[0];
    BlankBefore(it.after, k);
    assert it.after != "" ==> (it.after + k)[..1] == it.after[..1];
    assert it.after == "" ==> it.after + k == k;
    DocReads(it.doc, it.after + k, depth);
  }

  lemma {:induction false} ItemsRead(items: seq<Item>, k: string, depth: nat, acc: seq<Value>)
    requires items != [] && forall i :: 0 <= i < |items| ==> ValidItem(items[i], 128 - depth)
    ensures var s := SkipWs(WriteItems(items, k));
            Starts(s) && ParseItems(s, depth, acc) == Ok(acc + ValuesOf(items), k)
    decreases items, 0
  {
    var it, rest := items[0], items[1..];
    var v := ValueOf(it.doc);
    var k' := if |items| == 1 then [']'] + k else [','] + WriteItems(rest, k);
    ItemReads(it, k', depth);
    Assoc(acc, [v], ValuesOf(rest));
    assert k'[1..] == if |items| == 1 then k else WriteItems(rest, k);
    if |items| == 1 {
      assert rest == [] && [v] + [] == [v];
    } else {
      ItemsRead(rest, k, depth, acc + [v]);
    }
  }

  lemma {:induction false} MemberReads(m: Member, k: string, depth: nat)
    requires ValidMember(m, 128 - depth) && k != "" && (k[0] == ',' || k[0] == '}')
    ensures var s := SkipWs(WriteMember(m, k));
            Starts(s) && ParseEntry(s, depth) == Ok(Entry(m.key, ValueOf(m.item.doc)), m.item.after + k)
            && SkipWs(m.item.after + k) == k
    decreases m
  {
    var tail := [':'] + WriteItem(m.item, k);
    var t := WriteString(m.pieces, m.mid + tail);
    assert t[..1][0] == '"' && tail[..1][0] == ':' && tail[1..] == WriteItem(m.item, k);
    BlankBefore(m.before, t);
    StringReads(m.pieces, m.key, 128, m.mid + tail);
    BlankBefore(m.mid, tail);
    ItemReads(m.item, k, depth);
  }

  lemma {:induction false} MembersRead(members: seq<Member>, k: string, depth: nat, acc: seq<Entry>)
    requires members != [] && forall i :: 0 <= i < |members| ==> ValidMember(members[i], 128 - depth)
    ensures var s := SkipWs(WriteMembers(members, k));
            Starts(s) && ParseEntries(s, depth, acc) == Ok(EntriesOf(members, acc), k)
    decreases members, 0
  {
    var m, rest := members[0], members[1..];
    var k' := if |members| == 1 then ['}'] + k else [','] + WriteMembers(rest, k);
    MemberReads(m, k', depth);
    assert k'[1..] == if |members| == 1 then k else WriteMembers(rest, k);
    if |members| == 1 {
      assert rest == [];
    } else {
      MembersRead(rest, k, depth, Put(acc, m.key, ValueOf(m.item.doc)));
    }
  }

  // ---------------------------------------------------------------- nothing else is

  ghost predicate AllValid(members: seq<Member>, room: int) {
    forall i :: 0 <= i < |members| ==> ValidMember(members[i], room)
  }

  /** What was read as a value is white space and the text of it. */
  lemma {:induction false} DocTaken(s: string, depth: nat, room: int) returns (ws: string, d: Doc)
    requires ParseValue(s, depth).Ok? && room == 128 - depth
    ensures AllBlank(ws) && Valid(d, room) && s == ws + Write(d, ParseValue(s, depth).rest)
    ensures ValueOf(d) == ParseValue(s, depth).v
    decreases |s|, 1
  {
    ws := BlankTaken(s);
    var t, k := SkipWs(s), ParseValue(s, depth).rest;
    if t[0] == '"' {
      var ps := StringTaken(t, 8192);
      d := JString(ps, StringToken(t, 8192).v);
    } else if t[0] == '[' {
      d := ArrayTaken(t, depth + 1, room - 1);
    } else if t[0] == '{' {
      d := ObjectTaken(t, depth + 1, room - 1);
    } else if StartsWith(t, "true") {
      d := JTrue;
      assert t == "true" + k;
    } else if StartsWith(t, "false") {
      d := JFalse;
      assert t == "false" + k;
    } else if StartsWith(t, "null") {
      d := JNull;
      assert t == "null" + k;
    } else {
      var minus, digits, n := NumberTaken(t);
      d := JNumber(minus, digits, n);
    }
  }

  lemma {:induction false} ArrayTaken(s: string, depth: nat, room: int) returns (d: Doc)
    requires s != "" && s[0] == '[' && ParseArray(s, depth).Ok? && 1 <= depth <= 129 && room == 128 - depth
    ensures Valid(d, room + 1) && s == Write(d, ParseArray(s, depth).rest)
    ensures ValueOf(d) == List(ParseArray(s, depth).v)
    decreases |s|, 0
  {
    var ws := BlankTaken(s[1..]);
    var t, k := SkipWs(s[1..]), ParseArray(s, depth).rest;
    assert s == ['['] + s[1..];
    if t != "" && t[0] == ']' {
      d := JEmptyArray(ws);
      assert t == [']'] + t[1..];
    } else {
      var items := ItemsTaken(t, depth, [], room);
      d := ArrayOf(items, ws, k, room);
      assert [] + ValuesOf(items) == ValuesOf(items);
    }
  }

  /** An array of these items, with white space before the first one. */
  lemma ArrayOf(items: seq<Item>, ws: string, k: string, room: int) returns (d: Doc)
    requires items != [] && AllBlank(ws) && room >= -1 && forall i :: 0 <= i < |items| ==> ValidItem(items[i], room)
    ensures Valid(d, room + 1) && Write(d, k) == ['['] + (ws + WriteItems(items, k))
    ensures ValueOf(d) == List(ValuesOf(items))
  {
    var first := items[0].(before := ws + items[0].before);
    BlankTwice(ws, items[0].before);
    MoreBefore(items, ws, k);
    d := JArray([first] + items[1..]);
  }

  lemma BlankTwice(a: string, b: string)
    requires AllBlank(a) && AllBlank(b)
    ensures AllBlank(a + b)
  {
  }

  lemma MoreBefore(items: seq<Item>, ws: string, k: string)
    requires items != []
    ensures var more := [items[0].(before := ws + items[0].before)] + items[1..];
            WriteItems(more, k) == ws + WriteItems(items, k) && ValuesOf(more) == ValuesOf(items)
  {
    var it := items[0];
    var more := [it.(before := ws + it.before)] + items[1..];
    assert more[1..] == items[1..];
    var k' := if |items| == 1 then [']'] + k else [','] + WriteItems(items[1..], k);
    Assoc(ws, it.before, Write(it.doc, it.after + k'));
  }

  lemma {:induction false} ItemsTaken(s: string, depth: nat, acc: seq<Value>, room: int) returns (items: seq<Item>)
    requires ParseItems(s, depth, acc).Ok? && room == 128 - depth
    ensures items != [] && forall i :: 0 <= i < |items| ==> ValidItem(items[i], room)
    ensures s == WriteItems(items, ParseItems(s, depth, acc).rest)
    ensures ParseItems(s, depth, acc).v == acc + ValuesOf(items)
    decreases |s|, 3
  {
    var before, d := DocTaken(s, depth, room);
    var v, rest := ParseValue(s, depth).v, ParseValue(s, depth).rest;
    var after := BlankTaken(rest);
    var t, k := SkipWs(rest), ParseItems(s, depth, acc).rest;
    var it := Item(before, d, after);
    if t[0] == ']' {
      items := [it];
      assert t == [']'] + t[1..] && items[1..] == [] && ValuesOf(items) == [v];
    } else {
      var ws := BlankTaken(t[1..]);
      var u := SkipWs(t[1..]);
      var items' := ItemsTaken(u, depth, acc + [v], room);
      BlankTwice(ws, items'[0].before);
      MoreBefore(items', ws, k);
      var more := [items'[0].(before := ws + items'[0].before)] + items'[1..];
      items := [it] + more;
      assert items[1..] == more && t == [','] + t[1..];
      Assoc(acc, [v], ValuesOf(more));
    }
  }

  lemma {:induction false} ObjectTaken(s: string, depth: nat, room: int) returns (d: Doc)
    requires s != "" && s[0] == '{' && ParseObject(s, depth).Ok? && 1 <= depth <= 129 && room == 128 - depth
    ensures Valid(d, room + 1) && s == Write(d, ParseObject(s, depth).rest)
    ensures ValueOf(d) == Map(ParseObject(s, depth).v)
    decreases |s|, 0
  {
    var ws := BlankTaken(s[1..]);
    var t, k := SkipWs(s[1..]), ParseObject(s, depth).rest;
    assert s == ['{'] + s[1..];
    if t != "" && t[0] == '}' {
      d := JEmptyObject(ws);
      assert t == ['}'] + t[1..];
    } else {
      var members := MembersTaken(t, depth, [], room);
      d := ObjectOf(members, ws, k, room);
    }
  }

  /** An object of these members, with white space before the first one. */
  lemma ObjectOf(members: seq<Member>, ws: string, k: string, room: int) returns (d: Doc)
    requires members != [] && AllBlank(ws) && room >= -1
    requires AllValid(members, room)
    ensures Valid(d, room + 1) && Write(d, k) == ['{'] + (ws + WriteMembers(members, k))
    ensures ValueOf(d) == Map(EntriesOf(members, []))
  {
    var first := members[0].(before := ws + members[0].before);
    BlankTwice(ws, members[0].before);
    MoreBeforeMember(members, ws, k, []);
    d := JObject([first] + members[1..]);
  }

  lemma MoreBeforeMember(members: seq<Member>, ws: string, k: string, acc: seq<Entry>)
    requires members != []
    ensures var more := [members[0].(before := ws + members[0].before)] + members[1..];
            WriteMembers(more, k) == ws + WriteMembers(members, k) && EntriesOf(more, acc) == EntriesOf(members, acc)
  {
    var m := members[0];
    var more := [m.(before := ws + m.before)] + members[1..];
    assert more[1..] == members[1..];
    var k' := if |members| == 1 then ['}'] + k else [','] + WriteMembers(members[1..], k);
    Assoc(ws, m.before, WriteString(m.pieces, m.mid + ([':'] + WriteItem(m.item, k'))));
  }

  lemma {:induction false} MembersTaken(s: string, depth: nat, acc: seq<Entry>, room: int)
      returns (members: seq<Member>)
    requires ParseEntries(s, depth, acc).Ok? && room == 128 - depth
    ensures members != [] && AllValid(members, room)
    ensures s == WriteMembers(members, ParseEntries(s, depth, acc).rest)
    ensures ParseEntries(s, depth, acc).v == EntriesOf(members, acc)
    decreases |s|, 3
  {
    MemberStep(s, depth, acc);
    var m := MemberTaken(s, depth, room);
    var t, acc' := SkipWs(ParseEntry(s, depth).rest), Put(acc, m.key, ValueOf(m.item.doc));
    var k := ParseEntries(s, depth, acc).rest;
    if t[0] == '}' {
      members := OneMember(m, k, room, acc);
      assert t == ['}'] + t[1..];
    } else {
      var ws, members' := OthersTaken(t, depth, acc', room);
      members := OneMoreMember(m, members', ws, k, room, acc);
    }
  }

  /** A comma and the members behind it. */
  lemma {:induction false} OthersTaken(t: string, depth: nat, acc: seq<Entry>, room: int)
      returns (ws: string, members: seq<Member>)
    requires t != "" && t[0] == ',' && ParseEntries(SkipWs(t[1..]), depth, acc).Ok? && room == 128 - depth
    ensures members != [] && AllBlank(ws) && AllValid(members, room)
    ensures var p := ParseEntries(SkipWs(t[1..]), depth, acc);
            p.v == EntriesOf(members, acc) && t == [','] + (ws + WriteMembers(members, p.rest))
    decreases |t|, 2
  {
    ws := BlankTaken(t[1..]);
    members := MembersTaken(SkipWs(t[1..]), depth, acc, room);
    assert t == [','] + t[1..];
  }

  lemma OneMember(m: Member, k: string, room: int, acc: seq<Entry>) returns (members: seq<Member>)
    requires AllValid([m], room)
    ensures members != [] && AllValid(members, room) && WriteMembers(members, k) == WriteMember(m, ['}'] + k)
    ensures EntriesOf(members, acc) == Put(acc, m.key, ValueOf(m.item.doc))
  {
    members := [m];
    assert members[1..] == [];
  }

  /** One round of the object loop. */
  lemma MemberStep(s: string, depth: nat, acc: seq<Entry>)
    requires ParseEntries(s, depth, acc).Ok?
    ensures s != "" && ParseEntry(s, depth).Ok?
    ensures var e, t := ParseEntry(s, depth).v, SkipWs(ParseEntry(s, depth).rest);
            var acc' := Put(acc, e.key, e.value);
            t != "" && |t| < |s| &&
            if t[0] == '}' then ParseEntries(s, depth, acc) == Ok(acc', t[1..])
            else t[0] == ',' && ParseEntries(s, depth, acc) == ParseEntries(SkipWs(t[1..]), depth, acc')
  {
  }

  lemma OneMoreMember(m: Member, members: seq<Member>, ws: string, k: string, room: int, acc: seq<Entry>)
      returns (all: seq<Member>)
    requires members != [] && AllBlank(ws) && AllValid([m], room)
    requires AllValid(members, room)
    ensures all != [] && AllValid(all, room)
    ensures WriteMembers(all, k) == WriteMember(m, [','] + (ws + WriteMembers(members, k)))
    ensures EntriesOf(all, acc) == EntriesOf(members, Put(acc, m.key, ValueOf(m.item.doc)))
  {
    BlankTwice(ws, members[0].before);
    MoreBeforeMember(members, ws, k, Put(acc, m.key, ValueOf(m.item.doc)));
    var more := [members[0].(before := ws + members[0].before)] + members[1..];
    all := [m] + more;
    assert [m][0] == m;
    assert all[1..] == more;
  }

  /** A member, up to the white space behind it. */
  lemma {:induction false} MemberTaken(s: string, depth: nat, room: int) returns (m: Member)
    requires s != "" && ParseEntry(s, depth).Ok? && room == 128 - depth
    ensures var e, rest := ParseEntry(s, depth).v, ParseEntry(s, depth).rest;
            AllValid([m], room) && m.key == e.key && ValueOf(m.item.doc) == e.value
            && s == WriteMember(m, SkipWs(rest))
    decreases |s|, 2
  {
    var ps := StringTaken(s, 128);
    var key, rest := StringToken(s, 128).v, StringToken(s, 128).rest;
    var mid := BlankTaken(rest);
    var t := SkipWs(rest);
    var ws := BlankTaken(t[1..]);
    var before, d := DocTaken(SkipWs(t[1..]), depth, room);
    var rest' := ParseEntry(s, depth).rest;
    var after := BlankTaken(rest');
    BlankTwice(ws, before);
    m := Member("", ps, key, mid, Item(ws + before, d, after));
    assert ValidMember(m, room);
    Assoc(ws, before, Write(d, rest'));
    assert t == [':'] + t[1..];
    assert "" + s == s;
  }

  // ---------------------------------------------------------------- the parser

  /** `s` is the text of `v`, with white space before and behind, nested at most 128 deep. */
  ghost predicate IsTextOf(s: string, v: Value) {
    exists before, d, after :: AllBlank(before) && AllBlank(after) && Valid(d, 128)
      && s == before + Write(d, after) && ValueOf(d) == v
  }

  /** A text is parsed to a value exactly if it is a JSON text of that value. */
  lemma ParsesIff(s: string, v: Value)
    ensures ParseJson(s) == Ok(v, "") <==> IsTextOf(s, v)
  {
    if IsTextOf(s, v) {
      var before, d, after :| AllBlank(before) && AllBlank(after) && Valid(d, 128)
        && s == before + Write(d, after) && ValueOf(d) == v;
      TextParses(before, d, after);
    }
    if ParseJson(s) == Ok(v, "") { ParsedIsText(s, v); }
  }

  lemma ParsedIsText(s: string, v: Value)
    requires ParseJson(s) == Ok(v, "")
    ensures IsTextOf(s, v)
  {
    var before, d := DocTaken(s, 0, 128);
    var after := BlankTaken(ParseValue(s, 0).rest);
    assert ParseValue(s, 0).rest == after;
  }

  lemma TextParses(before: string, d: Doc, after: string)
    requires AllBlank(before) && AllBlank(after) && Valid(d, 128)
    ensures ParseJson(before + Write(d, after)) == Ok(ValueOf(d), "")
  {
    var t := Write(d, after);
    DocReads(d, after, 0);
    WriteStarts(d, after, 128);
    BlankBefore(before, t);
    StartsHere(t);
    assert after + "" == after;
    BlankSkipped(after, "");
    SpacesFirst(before + t, t, 0);
  }

  lemma SpacesFirst(s: string, t: string, depth: nat)
    requires SkipWs(s) == t && SkipWs(t) == t
    ensures ParseValue(s, depth) == ParseValue(t, depth)
  {
  }
}
