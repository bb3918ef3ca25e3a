/** Path text such as `a.b[2].c`: its parser, its printer, and `get_path`/`set_path` on text. */
module ValuePathText {
  import opened Text
  import opened Values
  import opened ValuePath

  // ---------------------------------------------------------------- reading a path

  function SkipSpaces(s: string): (r: string)
    ensures |r| <= |s|
  {
    if s != "" && IsSpace(s[0]) then SkipSpaces(s[1..]) else s
  }

  function SkipDots(s: string): (r: string)
    ensures |r| <= |s| && (r != "" ==> r[0] != '.')
  {
    if s != "" && s[0] == '.' then SkipDots(s[1..]) else s
  }

  /** Length of the text up to `]`. */
  function InsideLength(s: string): (n: nat)
    ensures n <= |s| && (n < |s| ==> s[n] == ']')
  {
    if s == "" || s[0] == ']' then 0 else 1 + InsideLength(s[1..])
  }

  /** Length of a plain name, which ends at `.` or `[`. */
  function PlainLength(s: string): (n: nat)
    ensures n <= |s| && (s != "" && s[0] != '.' && s[0] != '[' ==> n > 0)
  {
    if s == "" || s[0] == '.' || s[0] == '[' then 0 else 1 + PlainLength(s[1..])
  }

  /** The segment at the head of `s`, which is not empty and starts with no dot, and the text behind it. */
  function NextSegment(s: string): (r: Option<(Segment, string)>)
    requires s != "" && s[0] != '.'
    ensures r.Some? ==> GoodSegment(r.value.0) && |r.value.1| < |s|
  {
    if s[0] == '[' then
      var n := InsideLength(s[1..]);
      if n >= MAX_NAME || n == 0 || n + 1 == |s| then None
      else Some((Segment(s[1..n + 1], true), s[n + 2..]))
    else
      var n := PlainLength(s);
      if n >= MAX_NAME then None else Some((Segment(s[..n], false), s[n..]))
  }

  /** The rest of a path behind the segments `out`. */
  function Segments(s: string, out: seq<Segment>): (r: Option<seq<Segment>>)
    requires GoodPath(out)
    ensures r.Some? ==> GoodPath(r.value)
    decreases |s|
  {
    var t := SkipDots(s);
    if t == "" then Some(out)
    else if |out| >= MAX_SEGMENTS then None
    else
      match NextSegment(t)
      case None => None
      case Some((seg, rest)) => Segments(rest, out + [seg])
  }

  /** `parse_value_path_segments` */
  function ParsePath(s: string): (r: Option<seq<Segment>>)
    ensures r.Some? ==> r.value != [] && GoodPath(r.value)
  {
    var r := Segments(SkipSpaces(s), []);
    if r == Some([]) then None else r
  }

  /** The same with the cursor of the source. */
  method ParseValuePathSegments(path: string) returns (r: Option<seq<Segment>>)
    ensures r == ParsePath(path)
  {
    var cursor := 0;
    while cursor < |path| && IsSpace(path[cursor])
      invariant cursor <= |path| && SkipSpaces(path) == SkipSpaces(path[cursor..])
    {
      assert path[cursor..][1..] == path[cursor + 1..];
      cursor := cursor + 1;
    }
    ghost var all := Segments(path[cursor..], []);
    assert SkipSpaces(path) == path[cursor..];
    var out := [];
    while cursor < |path|
      invariant cursor <= |path| && GoodPath(out) && all == Segments(path[cursor..], out)
      decreases |path| - cursor
    {
      cursor := ScanDots(path, cursor);
      if cursor == |path| { break; }
      if |out| >= MAX_SEGMENTS { return None; }
      var seg, next := ScanSegment(path, cursor);
      if seg == None { return None; }
      out, cursor := out + [seg.value], next;
    }
    assert path[cursor..] == "";
    return if out == [] then None else Some(out);
  }

  method ScanDots(path: string, start: nat) returns (next: nat)
    requires start <= |path|
    ensures start <= next <= |path| && path[next..] == SkipDots(path[start..])
  {
    next := start;
    while next < |path| && path[next] == '.'
      invariant start <= next <= |path| && SkipDots(path[start..]) == SkipDots(path[next..])
    {
      assert path[next..][1..] == path[next + 1..];
      next := next + 1;
    }
  }

  lemma RestSlice(path: string, start: nat, a: nat, b: nat)
    requires a <= b && start + b <= |path|
    ensures path[start..][a..b] == path[start + a..start + b]
  {
  }

  /** One segment, bracketed or plain. */
  method ScanSegment(path: string, start: nat) returns (seg: Option<Segment>, next: nat)
    requires start < |path| && path[start] != '.'
    ensures start <= next <= |path|
    ensures seg == None <==> NextSegment(path[start..]) == None
    ensures seg.Some? ==> next > start && NextSegment(path[start..]) == Some((seg.value, path[next..]))
  {
    ghost var s := path[start..];
    next := start;
    if path[start] == '[' {
      assert s[1..] == path[start + 1..];
      var end := ScanInside(path, start + 1);
      if end == None || end.value == start + 1 || end.value == |path| { return None, next; }
      next := end.value + 1;
      RestSlice(path, start, 1, end.value - start);
      assert s[end.value - start + 1..] == path[next..];
      return Some(Segment(path[start + 1..end.value], true)), next;
    }
    var end := ScanPlain(path, start);
    if end == None { return None, next; }
    next := end.value;
    RestSlice(path, start, 0, next - start);
    assert s[..next - start] == s[0..next - start] && s[next - start..] == path[next..];
    seg := Some(Segment(path[start..next], false));
  }

  /** Copies up to `]` into a buffer of 128 bytes; None if it is too small. */
  method ScanInside(path: string, start: nat) returns (end: Option<nat>)
    requires start <= |path|
    ensures end == None <==> InsideLength(path[start..]) >= MAX_NAME
    ensures end.Some? ==> end.value == start + InsideLength(path[start..]) <= |path|
  {
    var cursor := start;
    while cursor < |path| && path[cursor] != ']'
      invariant start <= cursor <= |path| && cursor - start < MAX_NAME
      invariant InsideLength(path[start..]) == cursor - start + InsideLength(path[cursor..])
    {
      assert path[cursor..][1..] == path[cursor + 1..];
      if cursor - start + 1 >= MAX_NAME { return None; }
      cursor := cursor + 1;
    }
    return Some(cursor);
  }

  /** Copies a plain name into a buffer of 128 bytes; None if it is too small. */
  method ScanPlain(path: string, start: nat) returns (end: Option<nat>)
    requires start <= |path|
    ensures end == None <==> PlainLength(path[start..]) >= MAX_NAME
    ensures end.Some? ==> end.value == start + PlainLength(path[start..]) <= |path|
  {
    var cursor := start;
    while cursor < |path| && path[cursor] != '.' && path[cursor] != '['
      invariant start <= cursor <= |path| && cursor - start < MAX_NAME
      invariant PlainLength(path[start..]) == cursor - start + PlainLength(path[cursor..])
    {
      assert path[cursor..][1..] == path[cursor + 1..];
      if cursor - start + 1 >= MAX_NAME { return None; }
      cursor := cursor + 1;
    }
    return Some(cursor);
  }

  // ---------------------------------------------------------------- writing a path

  /** Segments that a path text can name: no `]` inside brackets, no `.` or `[` outside. */
  predicate Writable(seg: Segment) {
    GoodSegment(seg) &&
    forall i :: 0 <= i < |seg.text| ==>
      if seg.bracketed then seg.text[i] != ']' else seg.text[i] != '.' && seg.text[i] != '['
  }

  function SegmentText(seg: Segment): (s: string) { if seg.bracketed then "[" + seg.text + "]" else seg.text }

  /** Plain names are set off by a dot from what precedes them. */
  function PathText(path: seq<Segment>): (s: string) {
    if path == [] then "" else SegmentText(path[0]) + Continued(path[1..])
  }

  function Continued(path: seq<Segment>): (s: string) {
    if path == [] then ""
    else (if path[0].bracketed then "" else ".") + (SegmentText(path[0]) + Continued(path[1..]))
  }

  lemma {:induction false} InsideReads(d: string, k: string)
    requires forall i :: 0 <= i < |d| ==> d[i] != ']'
    ensures InsideLength(d + ("]" + k)) == |d|
    decreases |d|
  {
    if d == "" {
      assert d + ("]" + k) == "]" + k;
    } else {
      assert (d + ("]" + k))[1..] == d[1..] + ("]" + k);
      InsideReads(d[1..], k);
    }
  }

  lemma {:induction false} PlainReads(d: string, k: string)
    requires forall i :: 0 <= i < |d| ==> d[i] != '.' && d[i] != '['
    requires k == "" || k[0] == '.' || k[0] == '['
    ensures PlainLength(d + k) == |d|
    decreases |d|
  {
    if d == "" {
      assert d + k == k;
    } else {
      assert (d + k)[1..] == d[1..] + k;
      PlainReads(d[1..], k);
    }
  }

  lemma SegmentReads(seg: Segment, k: string)
    requires Writable(seg) && (k == "" || k[0] == '.' || k[0] == '[')
    ensures var s := SegmentText(seg) + k;
            s != "" && s[0] != '.' && NextSegment(s) == Some((seg, k))
  {
    if seg.bracketed { BracketReads(seg.text, k); } else { PlainSegmentReads(seg.text, k); }
  }

  lemma BracketReads(text: string, k: string)
    requires Writable(Segment(text, true))
    ensures var s := "[" + text + "]" + k; s[0] == '[' && NextSegment(s) == Some((Segment(text, true), k))
  {
    var s, body, n := "[" + text + "]" + k, text + ("]" + k), |text|;
    assert s[1..] == body;
    InsideReads(text, k);
    assert s[1..n + 1] == text && s[n + 2..] == k;
  }

  lemma PlainSegmentReads(text: string, k: string)
    requires Writable(Segment(text, false)) && (k == "" || k[0] == '.' || k[0] == '[')
    ensures var s := text + k; s != "" && s[0] != '.' && NextSegment(s) == Some((Segment(text, false), k))
  {
    var s, n := text + k, |text|;
    PlainReads(text, k);
    assert s[..n] == text && s[n..] == k;
  }

  lemma ContinuedStarts(path: seq<Segment>)
    ensures Continued(path) == "" || Continued(path)[0] == '.' || Continued(path)[0] == '['
  {
  }

  lemma PathFirst(out: seq<Segment>, path: seq<Segment>)
    requires path != []
    ensures (out + [path[0]]) + path[1..] == out + path
  {
    assert path == [path[0]] + path[1..];
    Assoc(out, [path[0]], path[1..]);
  }

  lemma {:induction false} ContinuedReads(path: seq<Segment>, out: seq<Segment>)
    requires GoodPath(out) && (forall i :: 0 <= i < |path| ==> Writable(path[i])) && |out| + |path| <= MAX_SEGMENTS
    ensures Segments(Continued(path), out) == Some(out + path)
    decreases |path|
  {
    if path == [] {
      assert out + path == out;
    } else {
      var k := Continued(path[1..]);
      ContinuedStarts(path[1..]);
      SegmentReads(path[0], k);
      ContinuedReads(path[1..], out + [path[0]]);
      DotSkipped(path[0], SegmentText(path[0]) + k);
      SegmentsStep(Continued(path), SegmentText(path[0]) + k, out, path[0], k);
      PathFirst(out, path);
    }
  }

  lemma DotSkipped(seg: Segment, t: string)
    requires t != "" && t[0] != '.'
    ensures SkipDots((if seg.bracketed then "" else ".") + t) == t
  {
    assert "" + t == t && ("." + t)[1..] == t;
  }

  lemma SegmentsStep(s: string, t: string, out: seq<Segment>, seg: Segment, k: string)
    requires GoodPath(out) && SkipDots(s) == t && t != "" && |out| < MAX_SEGMENTS && NextSegment(t) == Some((seg, k))
    ensures Segments(s, out) == Segments(k, out + [seg])
  {
  }

  /** Every writable path of up to 128 segments is read back from its text. */
  lemma PathRoundTrip(path: seq<Segment>)
    requires 0 < |path| <= MAX_SEGMENTS && forall i :: 0 <= i < |path| ==> Writable(path[i])
    requires path[0].bracketed || (path[0].text != "" && !IsSpace(path[0].text[0]))
    ensures ParsePath(PathText(path)) == Some(path)
  {
    var k := Continued(path[1..]);
    ContinuedStarts(path[1..]);
    SegmentReads(path[0], k);
    ContinuedReads(path[1..], [path[0]]);
    var s := PathText(path);
    assert s[0] == SegmentText(path[0])[0];
    assert SkipSpaces(s) == s && SkipDots(s) == s;
    assert [path[0]] + path[1..] == path && [] + [path[0]] == [path[0]];
  }

  // ---------------------------------------------------------------- get and set on text

  datatype Answer = Found(v: Value) | NotFound | BadPath

  function GetPath(v: Value, path: string): (r: Answer) {
    match ParsePath(path)
    case None => BadPath
    case Some(segments) => match Get(v, segments) case None => NotFound case Some(x) => Found(x)
  }

  /** `arksh_value_get_path`: the loop over `current`. */
  method ValueGetPath(v: Value, path: string) returns (r: Answer)
    ensures r == GetPath(v, path)
  {
    var segments := ParseValuePathSegments(path);
    if segments == None { return BadPath; }
    var current := v;
    var i := 0;
    while i < |segments.value|
      invariant i <= |segments.value| && Get(v, segments.value) == Get(current, segments.value[i..])
    {
      var text := segments.value[i].text;
      assert segments.value[i..][1..] == segments.value[i + 1..];
      if current.MapLike() {
        var entry := Lookup(current.entries, text);
        if entry == None { return NotFound; }
        current := entry.value;
      } else if current.List? {
        var index := ParsePathIndex(text);
        if index == None || index.value >= |current.items| { return NotFound; }
        current := current.items[index.value];
      } else {
        return NotFound;
      }
      i := i + 1;
    }
    return Found(current);
  }

  /** `arksh_value_set_path`: only maps and dictionaries can be updated. */
  function SetPath(v: Value, path: string, x: Value): (r: Option<Value>) {
    if !v.MapLike() || ParsePath(path) == None then None
    else Set(Some(v), v.Dict?, ParsePath(path).value, x)
  }

  /** The lens laws for path texts. */
  lemma SetPathThenGet(v: Value, path: string, x: Value)
    requires SetPath(v, path, x).Some?
    ensures GetPath(SetPath(v, path, x).value, path) == Found(x)
  {
    GetAfterSet(Some(v), v.Dict?, ParsePath(path).value, x);
  }

  lemma SetPathWhatWasFound(v: Value, path: string)
    requires v.MapLike() && GetPath(v, path).Found?
    ensures SetPath(v, path, GetPath(v, path).v) == Some(v)
  {
    SetOfGet(v, v.Dict?, ParsePath(path).value);
  }

  lemma SetPathTwice(v: Value, path: string, x: Value, y: Value)
    requires SetPath(v, path, x).Some?
    ensures SetPath(SetPath(v, path, x).value, path, y) == SetPath(v, path, y)
  {
    SetTwice(Some(v), v.Dict?, ParsePath(path).value, x, y);
    KindKept(v, ParsePath(path).value, x);
  }

  lemma KindKept(v: Value, path: seq<Segment>, x: Value)
    requires v.MapLike() && path != [] && Set(Some(v), v.Dict?, path, x).Some?
    ensures var w := Set(Some(v), v.Dict?, path, x).value; w.MapLike() && w.Dict? == v.Dict?
  {
    SetUnfolds(Some(v), v.Dict?, path, x);
  }

  lemma SetPathElsewhere(v: Value, path: string, other: string, x: Value)
    requires SetPath(v, path, x).Some? && ParsePath(other).Some?
    requires Diverges(Some(v), ParsePath(path).value, ParsePath(other).value)
    ensures GetPath(SetPath(v, path, x).value, other) == GetPath(v, other)
  {
    GetElsewhere(Some(v), v.Dict?, ParsePath(path).value, ParsePath(other).value, x);
  }
}
