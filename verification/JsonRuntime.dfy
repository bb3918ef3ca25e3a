/** The JSON printer and parser as the source runs them: buffers that fill up, a cursor that moves. */
module JsonRuntime {
  import opened Text
  import opened Values
  import opened Json

  // ---------------------------------------------------------------- printing

  /** An output buffer of fixed size with its running length. */
  class Buffer {
    const size: nat
    var text: string

    constructor (size: nat)
      ensures this.size == size && text == ""
    {
      this.size := size;
      text := "";
    }

    method AppendChar(c: char) returns (ok: bool)
      modifies this
      ensures ok == (|old(text)| + 1 < size)
      ensures text == if ok then old(text) + [c] else old(text)
    {
      ok := |text| + 1 < size;
      if ok { text := text + [c]; }
    }

    method AppendText(t: string) returns (ok: bool)
      modifies this
      ensures ok == (|old(text)| + |t| < size)
      ensures text == if ok then old(text) + t else old(text)
    {
      ok := |text| + |t| < size;
      if ok { text := text + t; }
    }
  }

  lemma {:induction false} EscapesSplit(s: string, i: nat)
    requires i <= |s|
    ensures Escapes(s) == Escapes(s[..i]) + Escapes(s[i..])
    decreases i
  {
    if i == 0 {
      assert s[..0] == "" && s[0..] == s;
    } else {
      EscapesSplit(s[1..], i - 1);
      assert s[1..][..i - 1] == s[..i][1..] && s[1..][i - 1..] == s[i..];
      Assoc(Escape(s[0]), Escapes(s[..i][1..]), Escapes(s[i..]));
    }
  }

  lemma EscapesNext(s: string, i: nat)
    requires i < |s|
    ensures Escapes(s[..i + 1]) == Escapes(s[..i]) + Escape(s[i])
    ensures |Escapes(s[..i + 1])| <= |Escapes(s)|
  {
    EscapesSplit(s[..i + 1], i);
    assert s[..i + 1][..i] == s[..i] && s[..i + 1][i..] == [s[i]];
    assert Escapes([s[i]]) == Escape(s[i]) + Escapes([s[i]][1..]);
    assert [s[i]][1..] == "";
    EscapesSplit(s, i + 1);
  }

  /** `append_json_escaped_string` */
  method AppendJsonEscapedString(buf: Buffer, s: string) returns (ok: bool)
    requires buf.text == ""
    modifies buf
    ensures ok == (|Quoted(s)| < buf.size)
    ensures ok ==> buf.text == Quoted(s)
  {
    ok := buf.AppendChar('"');
    if !ok { return; }
    var i := 0;
    while i < |s|
      invariant i <= |s| && buf.text == "\"" + Escapes(s[..i]) && |buf.text| < buf.size
    {
      EscapesNext(s, i);
      Assoc("\"", Escapes(s[..i]), Escape(s[i]));
      ok := buf.AppendText(Escape(s[i]));
      if !ok { return; }
      i := i + 1;
    }
    assert s[..i] == s;
    ok := buf.AppendChar('"');
  }

  lemma ItemsNext(items: seq<Value>, i: nat)
    requires i < |items|
    ensures ItemsText(items[..i + 1]) == (if i == 0 then "" else ItemsText(items[..i]) + ",") + JsonText(items[i])
  {
    assert items[..i + 1][..i] == items[..i];
  }

  lemma {:induction false} ItemsGrow(items: seq<Value>, i: nat)
    requires i <= |items|
    ensures |ItemsText(items[..i])| <= |ItemsText(items)|
    decreases |items| - i
  {
    if i < |items| {
      ItemsNext(items, i);
      ItemsGrow(items, i + 1);
    } else {
      assert items[..i] == items;
    }
  }

  function EntryText(e: Entry): (s: string) { Quoted(e.key) + ":" + JsonText(e.value) }

  lemma EntriesNext(entries: seq<Entry>, i: nat)
    requires i < |entries|
    ensures EntriesText(entries[..i + 1]) ==
            (if i == 0 then "" else EntriesText(entries[..i]) + ",") + EntryText(entries[i])
  {
    assert entries[..i + 1][..i] == entries[..i];
  }

  lemma {:induction false} EntriesGrow(entries: seq<Entry>, i: nat)
    requires i <= |entries|
    ensures |EntriesText(entries[..i])| <= |EntriesText(entries)|
    decreases |entries| - i
  {
    if i < |entries| {
      EntriesNext(entries, i);
      EntriesGrow(entries, i + 1);
    } else {
      assert entries[..i] == entries;
    }
  }

  /** The numbers of a value are below the limit of the model. */
  predicate NumbersFit(v: Value) {
    match v
    case Num(n) => -NUMBER_LIMIT < n < NUMBER_LIMIT
    case List(items) => forall i :: 0 <= i < |items| ==> NumbersFit(items[i])
    case Map(entries) => forall i :: 0 <= i < |entries| ==> NumbersFit(entries[i].value)
    case Dict(entries) => forall i :: 0 <= i < |entries| ==> NumbersFit(entries[i].value)
    case _ => true
  }

  /** Nested values are never cut off. */
  lemma PrintedWhole(v: Value)
    requires Prints(v, MAX_OUTPUT) && NumbersFit(v)
    ensures Printed(v, MAX_OUTPUT) == JsonText(v)
  {
    if v.Num? {
      assert Ten(5) == 100_000 && Ten(10) == 100_000 * Ten(5) && Ten(15) == 100_000 * Ten(10);
      DecimalLength(if v.n < 0 then -v.n else v.n, 15);
    }
  }

  /** `value_to_json_text` */
  method ValueToJson(v: Value, size: nat) returns (ok: bool, text: string)
    requires size > 0 && NumbersFit(v)
    ensures ok == Prints(v, size)
    ensures ok ==> text == Printed(v, size)
    decreases v, 0
  {
    match v
    case Str(s) =>
      var buf := new Buffer(size);
      ok := AppendJsonEscapedString(buf, s);
      text := buf.text;
    case List(items) => ok, text := ListToJson(items, size);
    case Map(entries) => ok, text := EntriesToJson(entries, size);
    case Dict(entries) => ok, text := EntriesToJson(entries, size);
    case _ => ok, text := true, Printed(v, size);
  }

  /** A comma unless it is the first piece, then the piece. */
  method AppendPiece(buf: Buffer, first: bool, piece: string) returns (ok: bool)
    modifies buf
    ensures ok == (|old(buf.text)| + (if first then 0 else 1) + |piece| < buf.size)
    ensures ok ==> buf.text == old(buf.text) + ((if first then "" else ",") + piece)
  {
    if !first {
      ok := buf.AppendChar(',');
      if !ok { return; }
      Assoc(old(buf.text), ",", piece);
    }
    ok := buf.AppendText(piece);
  }

  predicate ItemsPrint(items: seq<Value>, n: nat)
    requires n <= |items|
  {
    forall j :: 0 <= j < n ==> Prints(items[j], MAX_OUTPUT)
  }

  predicate EntriesPrint(entries: seq<Entry>, n: nat)
    requires n <= |entries|
  {
    forall j :: 0 <= j < n ==> EntryPrints(entries[j])
  }

  predicate EntryPrints(e: Entry) { |Quoted(e.key)| < MAX_OUTPUT && Prints(e.value, MAX_OUTPUT) }

  method ListToJson(items: seq<Value>, size: nat) returns (ok: bool, text: string)
    requires size > 0 && forall i :: 0 <= i < |items| ==> NumbersFit(items[i])
    ensures ok == (ItemsPrint(items, |items|) && |"[" + ItemsText(items) + "]"| < size)
    ensures ok ==> text == "[" + ItemsText(items) + "]"
    decreases items, 3
  {
    text := "";
    var buf := new Buffer(size);
    ok := buf.AppendChar('[');
    if !ok { return; }
    ok := AppendItems(buf, items);
    if !ok { return; }
    ok := buf.AppendChar(']');
    text := buf.text;
  }

  method AppendItems(buf: Buffer, items: seq<Value>) returns (ok: bool)
    requires buf.text == "[" && 1 < buf.size && forall i :: 0 <= i < |items| ==> NumbersFit(items[i])
    modifies buf
    ensures ok == (ItemsPrint(items, |items|) && 1 + |ItemsText(items)| < buf.size)
    ensures ok ==> buf.text == "[" + ItemsText(items)
    decreases items, 2
  {
    var i := 0;
    while i < |items|
      invariant i <= |items| && buf.text == "[" + ItemsText(items[..i]) && |buf.text| < buf.size
      invariant ItemsPrint(items, i)
    {
      ok := AppendItem(buf, items, i);
      if !ok { ItemsStop(items, i, buf.size); return; }
      ItemsPrintNext(items, i);
      i := i + 1;
    }
    assert items[..i] == items;
    ok := true;
  }

  lemma ItemsPrintNext(items: seq<Value>, i: nat)
    requires i < |items| && ItemsPrint(items, i) && Prints(items[i], MAX_OUTPUT)
    ensures ItemsPrint(items, i + 1)
  {
  }

  /** An item that does not print, or the first one that does not fit, stops the whole list. */
  lemma ItemsStop(items: seq<Value>, i: nat, size: nat)
    requires i < |items| && !(Prints(items[i], MAX_OUTPUT) && 1 + |ItemsText(items[..i + 1])| < size)
    ensures !(ItemsPrint(items, |items|) && 1 + |ItemsText(items)| < size)
  {
    ItemsGrow(items, i + 1);
  }

  method AppendItem(buf: Buffer, items: seq<Value>, i: nat) returns (ok: bool)
    requires i < |items| && NumbersFit(items[i]) && buf.text == "[" + ItemsText(items[..i])
    modifies buf
    ensures ok == (Prints(items[i], MAX_OUTPUT) && 1 + |ItemsText(items[..i + 1])| < buf.size)
    ensures ok ==> buf.text == "[" + ItemsText(items[..i + 1])
    decreases items, 1
  {
    var itemText;
    ok, itemText := ValueToJson(items[i], MAX_OUTPUT);
    if ok {
      PrintedWhole(items[i]);
      ItemsAppend(items, i);
      ok := AppendPiece(buf, i == 0, itemText);
    }
  }

  lemma ItemsAppend(items: seq<Value>, i: nat)
    requires i < |items|
    ensures "[" + ItemsText(items[..i + 1])
         == ("[" + ItemsText(items[..i])) + ((if i == 0 then "" else ",") + JsonText(items[i]))
  {
    ItemsNext(items, i);
    Join("[", ItemsText(items[..i]), if i == 0 then "" else ",", JsonText(items[i]));
    if i == 0 { assert items[..i] == []; }
  }

  lemma Join(a: string, b: string, c: string, d: string)
    ensures (a + b) + (c + d) == a + ((b + c) + d)
  {
  }

  lemma EntriesAppend(entries: seq<Entry>, i: nat)
    requires i < |entries|
    ensures "{" + EntriesText(entries[..i + 1])
         == ("{" + EntriesText(entries[..i])) + ((if i == 0 then "" else ",") + EntryText(entries[i]))
  {
    EntriesNext(entries, i);
    Join("{", EntriesText(entries[..i]), if i == 0 then "" else ",", EntryText(entries[i]));
    if i == 0 { assert entries[..i] == []; }
  }

  /** Key, colon and value of a member, after a comma unless it is the first. */
  method AppendMember(buf: Buffer, first: bool, key: string, item: string) returns (ok: bool)
    modifies buf
    ensures ok == (|old(buf.text)| + (if first then 0 else 1) + |key + ":" + item| < buf.size)
    ensures ok ==> buf.text == old(buf.text) + ((if first then "" else ",") + (key + ":" + item))
  {
    ok := AppendPiece(buf, first, key);
    if !ok { return; }
    Regroup(old(buf.text), if first then "" else ",", key, item);
    ok := buf.AppendChar(':');
    if !ok { return; }
    ok := buf.AppendText(item);
  }

  lemma Regroup(a: string, b: string, key: string, item: string)
    ensures ((a + (b + key)) + ":") + item == a + (b + (key + ":" + item))
  {
  }

  method EntriesToJson(entries: seq<Entry>, size: nat) returns (ok: bool, text: string)
    requires size > 0 && forall i :: 0 <= i < |entries| ==> NumbersFit(entries[i].value)
    ensures ok == (EntriesPrint(entries, |entries|) && |"{" + EntriesText(entries) + "}"| < size)
    ensures ok ==> text == "{" + EntriesText(entries) + "}"
    decreases entries, 2
  {
    text := "";
    var buf := new Buffer(size);
    ok := buf.AppendChar('{');
    if !ok { return; }
    var i := 0;
    ghost var done := "";
    while i < |entries|
      invariant i <= |entries| && buf.text == "{" + done && |buf.text| < buf.size
      invariant done == EntriesText(entries[..i]) && EntriesPrint(entries, i)
    {
      ok := AppendEntry(buf, entries, i);
      done := EntriesText(entries[..i + 1]);
      if !ok { EntriesGrow(entries, i + 1); return; }
      i := i + 1;
    }
    assert entries[..i] == entries;
    ok := buf.AppendChar('}');
    text := buf.text;
  }

  method AppendEntry(buf: Buffer, entries: seq<Entry>, i: nat) returns (ok: bool)
    requires i < |entries| && NumbersFit(entries[i].value) && buf.text == "{" + EntriesText(entries[..i])
    modifies buf
    ensures ok == (EntryPrints(entries[i]) && |"{" + EntriesText(entries[..i + 1])| < buf.size)
    ensures ok ==> buf.text == "{" + EntriesText(entries[..i + 1])
    decreases entries, 1
  {
    var keyBuf := new Buffer(MAX_OUTPUT);
    ok := AppendJsonEscapedString(keyBuf, entries[i].key);
    if !ok { return; }
    var itemText;
    ok, itemText := ValueToJson(entries[i].value, MAX_OUTPUT);
    if ok {
      PrintedWhole(entries[i].value);
      EntriesAppend(entries, i);
      ok := AppendMember(buf, i == 0, keyBuf.text, itemText);
    }
  }

  // ---------------------------------------------------------------- parsing

  datatype Result<T> = Success(v: T) | Invalid | OutOfModel

  class JsonCursor {
    const text: string
    var pos: nat

    constructor (text: string)
      ensures this.text == text && pos == 0
    {
      this.text, pos := text, 0;
    }

    ghost predicate Valid()
      reads this
    {
      pos <= |text|
    }

    ghost function Rest(): (s: string)
      reads this
      requires Valid()
    {
      text[pos..]
    }

    predicate Peek(c: char)
      reads this
      requires Valid()
      ensures Peek(c) == (Rest() != "" && Rest()[0] == c)
    {
      pos < |text| && text[pos] == c
    }

    ghost predicate Reached<T>(p: Parse<T>, r: Result<T>)
      reads this
    {
      Valid() &&
      match p
      case Ok(v, rest) => r == Success(v) && Rest() == rest
      case Bad => r == Invalid
      case Beyond => r == OutOfModel
    }

    method SkipSpaces()
      requires Valid()
      modifies this
      ensures Valid() && Rest() == SkipWs(old(Rest()))
    {
      while pos < |text| && IsJsonSpace(text[pos])
        invariant Valid() && SkipWs(Rest()) == SkipWs(old(Rest()))
        decreases |text| - pos
      {
        assert Rest()[1..] == text[pos + 1..];
        pos := pos + 1;
      }
    }

    method Advance(n: nat)
      requires Valid() && n <= |Rest()|
      modifies this
      ensures Valid() && Rest() == old(Rest())[n..]
    {
      pos := pos + n;
    }

    /** `json_parse_unicode_escape`, behind `\u`. */
    method UnicodeEscapeHere() returns (r: Result<string>)
      requires Valid()
      modifies this
      ensures Reached(UnicodeEscape(old(Rest())), r)
    {
      var s := text[pos..];
      var cp := Hex4(s);
      if cp == None { return Invalid; }
      Advance(4);
      if 0xD800 <= cp.value <= 0xDBFF {
        if !(|s| >= 6 && s[4] == '\\' && s[5] == 'u') { return Invalid; }
        Advance(2);
        assert s[4..][2..] == s[6..];
        var low := Hex4(text[pos..]);
        if low == None || !(0xDC00 <= low.value <= 0xDFFF) { return Invalid; }
        Advance(4);
        assert s[6..][4..] == s[10..];
        return Success(Utf8(0x1_0000 + (cp.value - 0xD800) * 0x400 + (low.value - 0xDC00)));
      }
      if 0xDC00 <= cp.value <= 0xDFFF { return Invalid; }
      return Success(Utf8(cp.value));
    }

    /** `json_parse_string` into a buffer of `size` bytes. */
    method ParseString(size: nat) returns (r: Result<string>)
      requires Valid()
      modifies this
      ensures Reached(StringToken(old(Rest()), size), r)
    {
      if !Peek('"') { return Invalid; }
      Advance(1);
      ghost var all := StringBody(Rest(), size, "");
      var acc := "";
      while pos < |text| && text[pos] != '"'
        invariant Valid() && all == StringBody(Rest(), size, acc)
        decreases |text| - pos
      {
        var c := text[pos];
        if c < ' ' { return Invalid; }
        if c != '\\' {
          if |acc| + 1 >= size { return Invalid; }
          acc := acc + [c];
          Advance(1);
          continue;
        }
        if pos + 1 == |text| { return Invalid; }
        var e := text[pos + 1];
        Advance(2);
        if e == 'u' {
          var bytes := UnicodeEscapeHere();
          if !bytes.Success? { return bytes; }
          if |acc| + |bytes.v| >= size { return Invalid; }
          acc := acc + bytes.v;
        } else {
          var plain := SimpleEscape(e);
          if plain == None || |acc| + 1 >= size { return Invalid; }
          acc := acc + [plain.value];
        }
      }
      if pos == |text| { return Invalid; }
      Advance(1);
      return Success(CString(acc));
    }

    /** `json_parse_value_internal` */
    method ParseValueInternal(depth: nat) returns (r: Result<Value>)
      requires Valid()
      modifies this
      ensures Reached(ParseValue(old(Rest()), depth), r)
      decreases |text| - pos, 1
    {
      if depth > MAX_DEPTH { return Invalid; }
      SkipSpaces();
      if pos == |text| { return Invalid; }
      if text[pos] == '"' {
        var s := ParseString(MAX_OUTPUT);
        return match s case Success(x) => Success(Str(x)) case Invalid => Invalid case OutOfModel => OutOfModel;
      }
      if text[pos] == '[' {
        var items := ArrayHere(depth + 1);
        return match items case Success(x) => Success(List(x)) case Invalid => Invalid case OutOfModel => OutOfModel;
      }
      if text[pos] == '{' {
        var entries := ObjectHere(depth + 1);
        return match entries case Success(x) => Success(Map(x)) case Invalid => Invalid case OutOfModel => OutOfModel;
      }
      var t := text[pos..];
      if StartsWith(t, "true") { Advance(4); return Success(Boolean(true)); }
      if StartsWith(t, "false") { Advance(5); return Success(Boolean(false)); }
      if StartsWith(t, "null") { Advance(4); return Success(Empty); }
      if t[0] == '-' || IsDigit(t[0]) {
        r := NumberHere();
        return;
      }
      return Invalid;
    }

    method NumberHere() returns (r: Result<Value>)
      requires Valid() && Rest() != "" && (Rest()[0] == '-' || IsDigit(Rest()[0]))
      modifies this
      ensures match NumberToken(old(Rest()))
              case Ok(n, rest) => r == Success(Num(n)) && Valid() && Rest() == rest
              case Bad => r == Invalid && Valid()
              case Beyond => r == OutOfModel && Valid()
    {
      var t := text[pos..];
      match NumberToken(t)
      case Bad => return Invalid;
      case Beyond => return OutOfModel;
      case Ok(n, rest) =>
        NumberIsSuffix(t);
        Advance(|t| - |rest|);
        return Success(Num(n));
    }

    /** `json_parse_array` */
    method ArrayHere(depth: nat) returns (r: Result<seq<Value>>)
      requires Valid() && Rest() != "" && Rest()[0] == '['
      modifies this
      ensures Reached(ParseArray(old(Rest()), depth), r)
      decreases |text| - pos, 0
    {
      Advance(1);
      SkipSpaces();
      if Peek(']') { Advance(1); return Success([]); }
      ghost var all := ParseItems(Rest(), depth, []);
      var acc := [];
      while pos < |text|
        invariant Valid() && pos > old(pos) && all == ParseItems(Rest(), depth, acc)
        decreases |text| - pos
      {
        var v := ParseValueInternal(depth);
        if v.Invalid? { return Invalid; }
        if v.OutOfModel? { return OutOfModel; }
        acc := acc + [v.v];
        SkipSpaces();
        if Peek(']') { Advance(1); return Success(acc); }
        if !Peek(',') { return Invalid; }
        Advance(1);
        SkipSpaces();
      }
      return Invalid;
    }

    /** The key, the colon and the value of an entry. */
    method EntryHere(depth: nat) returns (r: Result<Entry>)
      requires Valid() && Rest() != ""
      modifies this
      ensures Reached(ParseEntry(old(Rest()), depth), r)
      ensures r.Success? ==> r.v.key != "" && pos > old(pos)
      decreases |text| - pos, 1
    {
      var key := ParseString(MAX_NAME);
      if key.Invalid? { return Invalid; }
      if key.OutOfModel? { return OutOfModel; }
      SkipSpaces();
      if !Peek(':') { return Invalid; }
      Advance(1);
      SkipSpaces();
      var v := ParseValueInternal(depth);
      if v.Invalid? { return Invalid; }
      if v.OutOfModel? { return OutOfModel; }
      return if key.v == "" then Invalid else Success(Entry(key.v, v.v));
    }

    /** `json_parse_object` */
    method ObjectHere(depth: nat) returns (r: Result<seq<Entry>>)
      requires Valid() && Rest() != "" && Rest()[0] == '{'
      modifies this
      ensures Reached(ParseObject(old(Rest()), depth), r)
      decreases |text| - pos, 0
    {
      Advance(1);
      SkipSpaces();
      if Peek('}') { Advance(1); return Success([]); }
      ghost var all := ParseEntries(Rest(), depth, []);
      var map' := new MapObject();
      while pos < |text|
        invariant Valid() && pos > old(pos) && all == ParseEntries(Rest(), depth, map'.entries)
        decreases |text| - pos
      {
        var e := EntryHere(depth);
        if e.Invalid? { return Invalid; }
        if e.OutOfModel? { return OutOfModel; }
        var stored := map'.Set(e.v.key, e.v.value);
        SkipSpaces();
        if Peek('}') { Advance(1); return Success(map'.entries); }
        if !Peek(',') { return Invalid; }
        Advance(1);
        SkipSpaces();
      }
      return Invalid;
    }
  }

  lemma NumberIsSuffix(s: string)
    requires s != "" && (s[0] == '-' || IsDigit(s[0])) && NumberToken(s).Ok?
    ensures var rest := NumberToken(s).rest; rest == s[|s| - |rest|..]
  {
    if s[0] == '-' {
      var rest := NumberToken(s).rest;
      assert s[1..][|s| - 1 - |rest|..] == s[|s| - |rest|..];
    }
  }

  /** `arksh_value_parse_json` */
  method ParseJsonText(text: string) returns (r: Result<Value>)
    ensures match ParseJson(text)
            case Ok(v, _) => r == Success(v)
            case Bad => r == Invalid
            case Beyond => r == OutOfModel
  {
    var cursor := new JsonCursor(text);
    assert cursor.Rest() == text;
    r := cursor.ParseValueInternal(0);
    if !r.Success? { return; }
    cursor.SkipSpaces();
    if cursor.pos < |text| { r := Invalid; }
  }
}
