/**
Reading and writing nested values by path (`get_path`, `set_path`): path text, the walk down
maps, dictionaries and lists, and the laws that make the two a lens.
*/
module ValuePath {
  import opened Text
  import opened Values
  import Bits

  datatype Segment = Segment(text: string, bracketed: bool)

  const MAX_SEGMENTS := 128            // ARKSH_MAX_VALUE_PATH_SEGMENTS
  const WORD := 0x1_0000_0000_0000_0000  // size_t arithmetic wraps here

  // ---------------------------------------------------------------- list indices

  predicate AllDigits(s: string) { forall i :: 0 <= i < |s| ==> IsDigit(s[i]) }

  /** `parse_path_index`: a run of digits, read modulo 2^64. */
  function Index(text: string): (i: Option<nat>) {
    if text != "" && AllDigits(text) then Some(DecimalValue(text) % WORD) else None
  }

  lemma WrapStep(a: int, d: int)
    ensures (a % WORD * 10 + d) % WORD == (10 * a + d) % WORD
  {
    var q := a / WORD;
    var y := a % WORD * 10 + d;
    assert 10 * a + d == y + WORD * (10 * q);
    Bits.ModUnique(10 * a + d, WORD, y / WORD + 10 * q, y % WORD);
  }

  method ParsePathIndex(text: string) returns (r: Option<nat>)
    ensures r == Index(text)
  {
    if text == "" { return None; }
    var value := 0;
    var i := 0;
    while i < |text|
      invariant i <= |text| && AllDigits(text[..i]) && value == DecimalValue(text[..i]) % WORD
    {
      if !IsDigit(text[i]) { return None; }
      assert text[..i + 1][..i] == text[..i] && text[..i + 1][i] == text[i];
      WrapStep(DecimalValue(text[..i]), DigitValue(text[i]));
      value := (value * 10 + DigitValue(text[i])) % WORD;
      i := i + 1;
    }
    assert text[..i] == text;
    return Some(value);
  }

  // ---------------------------------------------------------------- the walk

  /** What `arksh_value_get_path` finds along the segments. */
  function Get(v: Value, path: seq<Segment>): (r: Option<Value>)
    decreases |path|
  {
    if path == [] then Some(v)
    else
      match Child(v, path[0])
      case None => None
      case Some(child) => Get(child, path[1..])
  }

  /** The value one segment below `v`. */
  function Child(v: Value, seg: Segment): (r: Option<Value>) {
    if v.MapLike() then Lookup(v.entries, seg.text)
    else if v.List? && Index(seg.text).Some? && Index(seg.text).value < |v.items| then
      Some(v.items[Index(seg.text).value])
    else None
  }

  /** An empty map or dictionary, whichever the parent was. */
  function Fresh(dict: bool): (v: Value) { if dict then Dict([]) else Map([]) }

  /** What is there to be updated: missing and empty values turn into a map, unless a list index is asked for. */
  function Base(current: Option<Value>, dict: bool, seg: Segment): (r: Option<Value>) {
    if current == None || current == Some(Empty) then if seg.bracketed then None else Some(Fresh(dict))
    else current
  }

  /** `v` with the value below `seg` replaced. */
  function WithChild(v: Value, seg: Segment, child: Value): (r: Option<Value>) {
    match v
    case Map(entries) => if seg.text == "" then None else Some(Map(Put(entries, seg.text, child)))
    case Dict(entries) => if seg.text == "" then None else Some(Dict(Put(entries, seg.text, child)))
    case List(items) =>
      if Index(seg.text).Some? && Index(seg.text).value < |items| then
        Some(List(items[Index(seg.text).value := child]))
      else None
    case _ => None
  }

  /** `set_path_recursive` */
  function Set(current: Option<Value>, dict: bool, path: seq<Segment>, x: Value): (r: Option<Value>)
    decreases |path|
  {
    if path == [] then Some(x)
    else
      match Base(current, dict, path[0])
      case None => None
      case Some(base) =>
        if !base.MapLike() && !(base.List? && Child(base, path[0]).Some?) then None
        else
          match Set(Child(base, path[0]), base.Dict?, path[1..], x)
          case None => None
          case Some(child) => WithChild(base, path[0], child)
  }

  /** Segments as the path parser produces them. */
  predicate GoodSegment(seg: Segment) { 0 < |seg.text| < MAX_NAME }

  predicate GoodPath(path: seq<Segment>) { forall i :: 0 <= i < |path| ==> GoodSegment(path[i]) }

  // ---------------------------------------------------------------- lens laws

  lemma ChildOfWithChild(v: Value, seg: Segment, child: Value)
    requires GoodSegment(seg) && WithChild(v, seg, child).Some?
    ensures Child(WithChild(v, seg, child).value, seg) == Some(child)
  {
    if v.MapLike() { PutLookup(v.entries, seg.text, child, seg.text); }
  }

  lemma WithChildTwice(v: Value, seg: Segment, a: Value, b: Value)
    requires GoodSegment(seg) && WithChild(v, seg, a).Some?
    ensures WithChild(WithChild(v, seg, a).value, seg, b) == WithChild(v, seg, b)
  {
    if v.MapLike() {
      var i := Find(v.entries, seg.text);
      var once := Put(v.entries, seg.text, a);
      FindFirst(once, seg.text, i);
      assert Put(once, seg.text, b) == Put(v.entries, seg.text, b);
    } else if v.List? {
      var i := Index(seg.text).value;
      assert v.items[i := a][i := b] == v.items[i := b];
    }
  }

  lemma WithSameChild(v: Value, seg: Segment, child: Value)
    requires GoodSegment(seg) && Child(v, seg) == Some(child)
    ensures WithChild(v, seg, child) == Some(v)
  {
    if v.MapLike() {
      var i := Find(v.entries, seg.text);
      assert Put(v.entries, seg.text, child) == v.entries;
    } else {
      var i := Index(seg.text).value;
      assert v.items[i := child] == v.items;
    }
  }

  /** After a set, get at the same path finds the new value. */
  lemma {:induction false} GetAfterSet(current: Option<Value>, dict: bool, path: seq<Segment>, x: Value)
    requires GoodPath(path) && Set(current, dict, path, x).Some?
    ensures Get(Set(current, dict, path, x).value, path) == Some(x)
    decreases |path|
  {
    if path != [] {
      var base := Base(current, dict, path[0]).value;
      GetAfterSet(Child(base, path[0]), base.Dict?, path[1..], x);
      var child := Set(Child(base, path[0]), base.Dict?, path[1..], x).value;
      ChildOfWithChild(base, path[0], child);
    }
  }

  /** Setting what get found changes nothing. */
  lemma {:induction false} SetOfGet(v: Value, dict: bool, path: seq<Segment>)
    requires GoodPath(path) && Get(v, path).Some?
    ensures Set(Some(v), dict, path, Get(v, path).value) == Some(v)
    decreases |path|
  {
    if path != [] {
      var child := Child(v, path[0]).value;
      SetOfGet(child, v.Dict?, path[1..]);
      WithSameChild(v, path[0], child);
    }
  }

  /** One level of a set that succeeds. */
  lemma SetUnfolds(current: Option<Value>, dict: bool, path: seq<Segment>, x: Value)
    requires path != [] && Set(current, dict, path, x).Some?
    ensures Base(current, dict, path[0]).Some?
    ensures var base := Base(current, dict, path[0]).value;
            var child := Set(Child(base, path[0]), base.Dict?, path[1..], x);
            child.Some? && Set(current, dict, path, x) == WithChild(base, path[0], child.value)
  {
  }

  /** The value after a set is the base of the next one. */
  lemma SetOnResult(base: Value, dict: bool, path: seq<Segment>, child: Value, y: Value)
    requires path != [] && GoodSegment(path[0]) && WithChild(base, path[0], child).Some?
    ensures var w := WithChild(base, path[0], child).value;
            var child' := Set(Some(child), base.Dict?, path[1..], y);
            Set(Some(w), dict, path, y) == if child' == None then None else WithChild(w, path[0], child'.value)
  {
    ChildOfWithChild(base, path[0], child);
  }

  /** A second set at the same path erases the first. */
  lemma {:induction false} SetTwice(current: Option<Value>, dict: bool, path: seq<Segment>, x: Value, y: Value)
    requires GoodPath(path) && Set(current, dict, path, x).Some?
    ensures Set(Set(current, dict, path, x), dict, path, y) == Set(current, dict, path, y)
    decreases |path|
  {
    if path != [] {
      SetUnfolds(current, dict, path, x);
      SetSucceedsAlike(current, dict, path, x, y);
      SetUnfolds(current, dict, path, y);
      var seg := path[0];
      var base := Base(current, dict, seg).value;
      var below := Child(base, seg);
      var child := Set(below, base.Dict?, path[1..], x).value;
      var child' := Set(below, base.Dict?, path[1..], y).value;
      SetTwice(below, base.Dict?, path[1..], x, y);
      SetOnResult(base, dict, path, child, y);
      WithChildTwice(base, seg, child, child');
    }
  }

  /** Whether a set succeeds does not depend on the value set. */
  lemma {:induction false} SetSucceedsAlike(current: Option<Value>, dict: bool, path: seq<Segment>, x: Value, y: Value)
    requires Set(current, dict, path, x).Some?
    ensures Set(current, dict, path, y).Some?
    decreases |path|
  {
    if path != [] {
      var base := Base(current, dict, path[0]).value;
      SetSucceedsAlike(Child(base, path[0]), base.Dict?, path[1..], x, y);
    }
  }

  /**
  `q` leaves `p` below `current` at another map key or another list index. A missing or empty
  value counts as the map that a set would create there.
  */
  predicate Diverges(current: Option<Value>, p: seq<Segment>, q: seq<Segment>)
    decreases |p|
  {
    p != [] && q != [] &&
    (ApartIn(current, p[0], q[0]) ||
     (SameIn(current, p[0], q[0])
       && Diverges(if current == None then None else Child(current.value, p[0]), p[1..], q[1..])))
  }

  predicate ApartIn(current: Option<Value>, a: Segment, b: Segment) {
    if current.Some? && current.value.List? then Index(a.text) != Index(b.text) else a.text != b.text
  }

  predicate SameIn(current: Option<Value>, a: Segment, b: Segment) {
    if current.Some? && current.value.List? then Index(a.text) == Index(b.text) else a.text == b.text
  }

  function GetFrom(current: Option<Value>, path: seq<Segment>): (r: Option<Value>) {
    if current == None then None else Get(current.value, path)
  }

  lemma OtherChild(v: Value, a: Segment, b: Segment, child: Value)
    requires GoodSegment(a) && WithChild(v, a, child).Some? && ApartIn(Some(v), a, b)
    ensures Child(WithChild(v, a, child).value, b) == Child(v, b)
  {
    if v.MapLike() { PutLookup(v.entries, a.text, child, b.text); }
  }

  lemma SameChild(v: Value, a: Segment, b: Segment)
    requires SameIn(Some(v), a, b)
    ensures Child(v, a) == Child(v, b)
  {
  }

  /** A path that diverges from the one set reads as before, also through maps created on the way. */
  lemma {:induction false} GetElsewhere(current: Option<Value>, dict: bool, p: seq<Segment>, q: seq<Segment>, x: Value)
    requires GoodPath(p) && Diverges(current, p, q) && Set(current, dict, p, x).Some?
    ensures Get(Set(current, dict, p, x).value, q) == GetFrom(current, q)
    decreases |p|
  {
    var a, b := p[0], q[0];
    var base := Base(current, dict, a).value;
    var below := Child(base, a);
    var child := Set(below, base.Dict?, p[1..], x).value;
    var after := WithChild(base, a, child).value;
    assert Set(current, dict, p, x) == Some(after);
    if ApartIn(Some(base), a, b) {
      OtherChild(base, a, b, child);
    } else {
      SameChild(base, a, b);
      ChildOfWithChild(base, a, child);
      assert Child(after, b) == Some(child) by { SameChild(after, a, b); }
      BelowBase(current, dict, a);
      GetElsewhere(below, base.Dict?, p[1..], q[1..], x);
    }
  }

  /** What lies below the base is what lies below the current value, if anything. */
  lemma BelowBase(current: Option<Value>, dict: bool, seg: Segment)
    requires Base(current, dict, seg).Some?
    ensures Child(Base(current, dict, seg).value, seg) == if current == None then None else Child(current.value, seg)
  {
  }
}
