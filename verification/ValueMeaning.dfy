/** What a path leads to and what setting it leaves, spelled out for each kind of value. */
module ValueMeaning {
  import opened Text
  import opened Values
  import opened ValuePath
  import opened Numerals

  /** The text is a decimal numeral of `n`; indices are counted modulo 2^64. */
  ghost predicate SelectsItem(text: string, k: nat) {
    text != "" && exists n: nat :: Denotes(10, text, n) && k == n % 18446744073709551616
  }

  lemma IndexSelects(text: string, k: nat)
    ensures Index(text) == Some(k) <==> SelectsItem(text, k)
  {
    if text != "" && AllDigits(text) {
      DecimalDenotes(text);
      forall n: nat | Denotes(10, text, n) ensures n == DecimalValue(text) {
        DenotesOne(10, text, n, DecimalValue(text));
      }
    }
    forall n: nat | Denotes(10, text, n) ensures AllDigits(text) {
      DenotesAllIn(10, text, n);
      forall i | 0 <= i < |text| ensures IsDigit(text[i]) {
        DigitValueStands(text[i], HexValue(text[i]));
        HexValueStands(text[i], HexValue(text[i]));
      }
    }
  }

  /** The first entry with this key is the one at `i`. */
  predicate IsFirst(entries: seq<Entry>, key: string, i: nat) {
    i < |entries| && entries[i].key == key && forall j :: 0 <= j < i ==> entries[j].key != key
  }

  lemma FindIsFirst(entries: seq<Entry>, key: string, i: nat)
    ensures IsFirst(entries, key, i) <==> i < |entries| && Find(entries, key) == i
    ensures Lookup(entries, key) == None <==> forall j :: 0 <= j < |entries| ==> entries[j].key != key
  {
    if IsFirst(entries, key, i) { FindFirst(entries, key, i); }
    FindAbsent(entries, key);
  }

  // ---------------------------------------------------------------- getting

  /** The path leads from `v` to `w`. */
  ghost predicate Leads(v: Value, path: seq<Segment>, w: Value)
    decreases |path|
  {
    if path == [] then v == w
    else if v.Map? || v.Dict? then
      exists i: nat :: IsFirst(v.entries, path[0].text, i) && Leads(v.entries[i].value, path[1..], w)
    else
      v.List? && exists k: nat :: k < |v.items| && SelectsItem(path[0].text, k) && Leads(v.items[k], path[1..], w)
  }

  /** Getting finds what the path leads to, and fails exactly when it leads nowhere. */
  lemma {:induction false} GetIsLeads(v: Value, path: seq<Segment>, w: Value)
    ensures Get(v, path) == Some(w) <==> Leads(v, path, w)
    decreases |path|
  {
    if path != [] {
      var text := path[0].text;
      if v.MapLike() {
        var i := Find(v.entries, text);
        FindIsFirst(v.entries, text, i);
        if i < |v.entries| { GetIsLeads(v.entries[i].value, path[1..], w); }
        forall i': nat | IsFirst(v.entries, text, i') ensures i' == i { FindIsFirst(v.entries, text, i'); }
      } else if v.List? {
        var index := Index(text);
        if index.Some? && index.value < |v.items| {
          IndexSelects(text, index.value);
          GetIsLeads(v.items[index.value], path[1..], w);
        }
        forall k: nat | SelectsItem(text, k) ensures index == Some(k) { IndexSelects(text, k); }
      }
    }
  }

  // ---------------------------------------------------------------- setting

  /** At most 127 characters of a new key are kept. */
  function NewEntry(key: string, v: Value): (e: Entry) { Entry(if |key| <= 127 then key else key[..127], v) }

  /** The entry of `key` is replaced where it is, or put at the end when there is none. */
  ghost predicate Filed(before: seq<Entry>, key: string, v: Value, after: seq<Entry>) {
    if exists i: nat :: IsFirst(before, key, i) then
      exists i: nat :: IsFirst(before, key, i) && after == before[..i] + [Entry(key, v)] + before[i + 1..]
    else after == before + [NewEntry(key, v)]
  }

  lemma PutIsFiled(before: seq<Entry>, key: string, v: Value, after: seq<Entry>)
    ensures after == Put(before, key, v) <==> Filed(before, key, v, after)
  {
    var i := Find(before, key);
    FindIsFirst(before, key, i);
    if i < |before| {
      assert before[i := Entry(key, v)] == before[..i] + [Entry(key, v)] + before[i + 1..];
    }
    forall i': nat | IsFirst(before, key, i') ensures i' == i { FindIsFirst(before, key, i'); }
  }

  /** What the entries hold under this key. */
  ghost predicate Holds(entries: seq<Entry>, key: string, child: Option<Value>) {
    if child.Some? then exists i: nat :: IsFirst(entries, key, i) && entries[i].value == child.value
    else forall i: nat :: i < |entries| ==> entries[i].key != key
  }

  lemma LookupHolds(entries: seq<Entry>, key: string, child: Option<Value>)
    ensures Lookup(entries, key) == child <==> Holds(entries, key, child)
  {
    var i := Find(entries, key);
    FindIsFirst(entries, key, i);
    forall i': nat | IsFirst(entries, key, i') ensures i' == i { FindIsFirst(entries, key, i'); }
  }

  /**
   * Setting `x` at the path turns `before` into `after`; a container that has to be made is a
   * dictionary below dictionaries and a map below anything else.
   */
  ghost predicate Becomes(before: Option<Value>, dict: bool, path: seq<Segment>, x: Value, after: Value)
    decreases |path|
  {
    if path == [] then after == x
    else
      var seg, rest := path[0], path[1..];
      if before == None || before == Some(Empty) then
        !seg.bracketed && seg.text != "" &&
        exists w :: Becomes(None, dict, rest, x, w) &&
          after == if dict then Dict([NewEntry(seg.text, w)]) else Map([NewEntry(seg.text, w)])
      else if before.value.Map? || before.value.Dict? then
        seg.text != "" &&
        after.Map? == before.value.Map? && after.Dict? == before.value.Dict? &&
        exists child, w :: Holds(before.value.entries, seg.text, child) &&
          Becomes(child, before.value.Dict?, rest, x, w) && Filed(before.value.entries, seg.text, w, after.entries)
      else
        before.value.List? &&
        exists k: nat, w :: k < |before.value.items| && SelectsItem(seg.text, k) &&
          Becomes(Some(before.value.items[k]), false, rest, x, w) &&
          after == List(before.value.items[..k] + [w] + before.value.items[k + 1..])
  }

  /** Setting leaves what the path says, and fails exactly when that is nothing. */
  lemma {:induction false} SetIsBecomes(before: Option<Value>, dict: bool, path: seq<Segment>, x: Value, after: Value)
    ensures Set(before, dict, path, x) == Some(after) <==> Becomes(before, dict, path, x, after)
    decreases |path|, 2
  {
    if path != [] {
      if before == None || before == Some(Empty) {
        SetInNothing(before, dict, path, x, after);
      } else if before.value.MapLike() {
        SetInMap(before.value, dict, path, x, after);
      } else if before.value.List? {
        SetInList(before.value, dict, path, x, after);
      }
    }
  }

  lemma SetInNothing(before: Option<Value>, dict: bool, path: seq<Segment>, x: Value, after: Value)
    requires path != [] && (before == None || before == Some(Empty))
    ensures Set(before, dict, path, x) == Some(after) <==> Becomes(before, dict, path, x, after)
    decreases |path|, 1
  {
    var seg, rest := path[0], path[1..];
    forall w ensures Set(None, dict, rest, x) == Some(w) <==> Becomes(None, dict, rest, x, w) {
      SetIsBecomes(None, dict, rest, x, w);
    }
    SetMakes(before, dict, path, x);
  }

  /** A container that has to be made holds one entry. */
  lemma SetMakes(before: Option<Value>, dict: bool, path: seq<Segment>, x: Value)
    requires path != [] && (before == None || before == Some(Empty))
    ensures var seg, below := path[0], Set(None, dict, path[1..], x);
            Set(before, dict, path, x) ==
              if seg.bracketed || seg.text == "" || below == None then None
              else
                var entries := [NewEntry(seg.text, below.value)];
                Some(if dict then Dict(entries) else Map(entries))
  {
    var seg, below := path[0], Set(None, dict, path[1..], x);
    if !seg.bracketed {
      assert Base(before, dict, seg) == Some(Fresh(dict)) && Child(Fresh(dict), seg) == None;
      assert Fresh(dict).Dict? == dict;
      if below.Some? {
        assert Find([], seg.text) == 0;
        assert Put([], seg.text, below.value) == [NewEntry(seg.text, below.value)];
        assert Set(before, dict, path, x) == WithChild(Fresh(dict), seg, below.value);
      }
    }
  }

  lemma SetInMap(v: Value, dict: bool, path: seq<Segment>, x: Value, after: Value)
    requires path != [] && v.MapLike()
    ensures Set(Some(v), dict, path, x) == Some(after) <==> Becomes(Some(v), dict, path, x, after)
    decreases |path|, 1
  {
    var key, child := path[0].text, Child(v, path[0]);
    SetFiles(v, dict, path, x);
    if Set(Some(v), dict, path, x) == Some(after) {
      var w := Set(child, v.Dict?, path[1..], x).value;
      var entries := Put(v.entries, key, w);
      LookupHolds(v.entries, key, child);
      SetIsBecomes(child, v.Dict?, path[1..], x, w);
      PutIsFiled(v.entries, key, w, entries);
      BecomesInMap(v, dict, path, x, child, w, after);
    }
    if Becomes(Some(v), dict, path, x, after) {
      var c, w := InMap(v, dict, path, x, after);
      LookupHolds(v.entries, key, c);
      SetIsBecomes(c, v.Dict?, path[1..], x, w);
      PutIsFiled(v.entries, key, w, after.entries);
    }
  }

  lemma BecomesInMap(v: Value, dict: bool, path: seq<Segment>, x: Value, child: Option<Value>, w: Value,
                     after: Value)
    requires v.MapLike() && after.Map? == v.Map? && after.Dict? == v.Dict?
    requires path != [] && path[0].text != "" && Holds(v.entries, path[0].text, child)
    requires Becomes(child, v.Dict?, path[1..], x, w) && Filed(v.entries, path[0].text, w, after.entries)
    ensures Becomes(Some(v), dict, path, x, after)
  {
  }

  lemma InMap(v: Value, dict: bool, path: seq<Segment>, x: Value, after: Value)
    returns (child: Option<Value>, w: Value)
    requires v.MapLike() && path != [] && Becomes(Some(v), dict, path, x, after)
    ensures path[0].text != "" && after.Map? == v.Map? && after.Dict? == v.Dict?
    ensures Holds(v.entries, path[0].text, child) && Becomes(child, v.Dict?, path[1..], x, w)
    ensures Filed(v.entries, path[0].text, w, after.entries)
  {
    child, w :| Holds(v.entries, path[0].text, child) && Becomes(child, v.Dict?, path[1..], x, w) &&
      Filed(v.entries, path[0].text, w, after.entries);
  }

  lemma SetFiles(v: Value, dict: bool, path: seq<Segment>, x: Value)
    requires path != [] && v.MapLike()
    ensures var seg, below := path[0], Set(Lookup(v.entries, path[0].text), v.Dict?, path[1..], x);
            Set(Some(v), dict, path, x) ==
              if seg.text == "" || below == None then None
              else
                var entries := Put(v.entries, seg.text, below.value);
                Some(if v.Dict? then Dict(entries) else Map(entries))
  {
  }

  lemma SetInList(v: Value, dict: bool, path: seq<Segment>, x: Value, after: Value)
    requires path != [] && v.List?
    ensures Set(Some(v), dict, path, x) == Some(after) <==> Becomes(Some(v), dict, path, x, after)
    decreases |path|, 1
  {
    if Set(Some(v), dict, path, x) == Some(after) { ListGives(v, dict, path, x); }
    if Becomes(Some(v), dict, path, x, after) {
      var k, w := InList(v, dict, path, x, after);
      IndexSelects(path[0].text, k);
      SetIsBecomes(Some(v.items[k]), false, path[1..], x, w);
      Replaced(v.items, k, w);
      SetItem(v, dict, path, x, k, w);
    }
  }

  lemma SetItem(v: Value, dict: bool, path: seq<Segment>, x: Value, k: nat, w: Value)
    requires path != [] && v.List? && k < |v.items| && Index(path[0].text) == Some(k)
    requires Set(Some(v.items[k]), false, path[1..], x) == Some(w)
    ensures Set(Some(v), dict, path, x) == Some(List(v.items[k := w]))
  {
  }

  lemma ListGives(v: Value, dict: bool, path: seq<Segment>, x: Value)
    requires path != [] && v.List? && Set(Some(v), dict, path, x).Some?
    ensures Becomes(Some(v), dict, path, x, Set(Some(v), dict, path, x).value)
    decreases |path|, 0
  {
    var k := Index(path[0].text).value;
    var w := Set(Some(v.items[k]), false, path[1..], x).value;
    IndexSelects(path[0].text, k);
    SetIsBecomes(Some(v.items[k]), false, path[1..], x, w);
    Replaced(v.items, k, w);
    BecomesInList(v, dict, path, x, k, w);
  }

  lemma Replaced(items: seq<Value>, k: nat, w: Value)
    requires k < |items|
    ensures items[k := w] == items[..k] + [w] + items[k + 1..]
  {
  }

  lemma BecomesInList(v: Value, dict: bool, path: seq<Segment>, x: Value, k: nat, w: Value)
    requires v.List? && path != [] && k < |v.items| && SelectsItem(path[0].text, k)
    requires Becomes(Some(v.items[k]), false, path[1..], x, w)
    ensures Becomes(Some(v), dict, path, x, List(v.items[..k] + [w] + v.items[k + 1..]))
  {
  }

  lemma InList(v: Value, dict: bool, path: seq<Segment>, x: Value, after: Value) returns (k: nat, w: Value)
    requires v.List? && path != [] && Becomes(Some(v), dict, path, x, after)
    ensures k < |v.items| && SelectsItem(path[0].text, k) && Becomes(Some(v.items[k]), false, path[1..], x, w)
    ensures after == List(v.items[..k] + [w] + v.items[k + 1..])
  {
    k, w :| k < |v.items| && SelectsItem(path[0].text, k) && Becomes(Some(v.items[k]), false, path[1..], x, w) &&
      after == List(v.items[..k] + [w] + v.items[k + 1..]);
  }
}
