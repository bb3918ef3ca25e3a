/** The `group_by` stage: a loop that files each item under its key, and the stable partition it makes. */
module GroupBy {
  import opened Text
  import opened Values

  /** The key of an item, None when the block or the property fails. */
  type KeyFunction = Value -> Option<string>

  /** File one item under its key. */
  function FileItem(groups: seq<Entry>, key: Option<string>, item: Value): Option<seq<Entry>> {
    if key.None? || key.value == "" then None
    else
      match Lookup(groups, key.value)
      case None => Some(Put(groups, key.value, List([item])))
      case Some(List(items)) => Some(Put(groups, key.value, List(items + [item])))
      case Some(_) => None
  }

  /** `apply_group_by_stage` on the items of a list. */
  function Grouped(keyOf: KeyFunction, items: seq<Value>): Option<seq<Entry>> {
    if items == [] then Some([])
    else
      var n := |items| - 1;
      match Grouped(keyOf, items[..n])
      case None => None
      case Some(groups) => FileItem(groups, keyOf(items[n]), items[n])
  }

  /** One round of the loop. */
  method FileUnder(groups: MapObject, key: Option<string>, item: Value) returns (ok: bool)
    modifies groups
    ensures FileItem(old(groups.entries), key, item) == if ok then Some(groups.entries) else None
  {
    if key.None? { return false; }
    var existing := groups.GetItem(key.value);
    var group: Value := List([]);
    if existing.Some? { group := existing.value; }
    if !group.List? { return false; }
    assert [] + [item] == [item];
    ok := groups.Set(key.value, List(group.items + [item]));
  }

  method GroupItems(keyOf: KeyFunction, items: seq<Value>) returns (result: Option<seq<Entry>>)
    ensures result == Grouped(keyOf, items)
  {
    var groups := new MapObject();
    var i := 0;
    while i < |items|
      invariant i <= |items| && Grouped(keyOf, items[..i]) == Some(groups.entries)
    {
      NextItem(keyOf, items, i);
      var ok := FileUnder(groups, keyOf(items[i]), items[i]);
      if !ok {
        FailureStays(keyOf, items, i + 1);
        return None;
      }
      i := i + 1;
    }
    assert items[..i] == items;
    return Some(groups.entries);
  }

  lemma NextItem(keyOf: KeyFunction, items: seq<Value>, i: nat)
    requires i < |items| && Grouped(keyOf, items[..i]).Some?
    ensures Grouped(keyOf, items[..i + 1]) == FileItem(Grouped(keyOf, items[..i]).value, keyOf(items[i]), items[i])
  {
    assert items[..i + 1][..i] == items[..i];
  }

  lemma {:induction false} FailureStays(keyOf: KeyFunction, items: seq<Value>, i: nat)
    requires i <= |items| && Grouped(keyOf, items[..i]) == None
    ensures Grouped(keyOf, items) == None
    decreases |items|
  {
    if i < |items| {
      var n := |items| - 1;
      assert items[..n][..i] == items[..i];
      FailureStays(keyOf, items[..n], i);
    } else {
      assert items[..i] == items;
    }
  }

  // ---------------------------------------------------------------- the partition

  function KeyText(keyOf: KeyFunction, item: Value): string {
    if keyOf(item).Some? then keyOf(item).value else ""
  }

  /** The distinct keys in the order in which they first occur. */
  function KeysOf(keyOf: KeyFunction, items: seq<Value>): (keys: seq<string>)
    ensures forall i, j :: 0 <= i < j < |keys| ==> keys[i] != keys[j]
    ensures forall k :: k in keys <==> exists i :: 0 <= i < |items| && KeyText(keyOf, items[i]) == k
  {
    if items == [] then []
    else
      var n := |items| - 1;
      var keys, k := KeysOf(keyOf, items[..n]), KeyText(keyOf, items[n]);
      assert forall i :: 0 <= i < n ==> items[..n][i] == items[i];
      if k in keys then keys else keys + [k]
  }

  /** The items with key `k`, in their order. */
  function WithKey(keyOf: KeyFunction, items: seq<Value>, k: string): seq<Value> {
    if items == [] then []
    else
      var n := |items| - 1;
      WithKey(keyOf, items[..n], k) + (if KeyText(keyOf, items[n]) == k then [items[n]] else [])
  }

  /** One group for each key. */
  function Partition(keyOf: KeyFunction, items: seq<Value>): seq<Entry> {
    var keys := KeysOf(keyOf, items);
    seq(|keys|, i requires 0 <= i < |keys| => Entry(keys[i], List(WithKey(keyOf, items, keys[i]))))
  }

  predicate FitsKey(key: Option<string>) { key.Some? && 1 <= |key.value| < MAX_NAME }

  lemma {:induction false} AbsentKey(keyOf: KeyFunction, items: seq<Value>, k: string)
    requires k !in KeysOf(keyOf, items)
    ensures WithKey(keyOf, items, k) == []
  {
    if items != [] {
      var n := |items| - 1;
      assert KeyText(keyOf, items[n]) in KeysOf(keyOf, items);
      AbsentKey(keyOf, items[..n], k);
    }
  }

  /** Where a key is found among the groups. */
  lemma FindInPartition(keyOf: KeyFunction, items: seq<Value>, k: string)
    ensures var i := Find(Partition(keyOf, items), k); var keys := KeysOf(keyOf, items);
      if k in keys then i < |keys| && keys[i] == k else i == |keys|
  {
    var keys, groups := KeysOf(keyOf, items), Partition(keyOf, items);
    if k in keys {
      var j :| 0 <= j < |keys| && keys[j] == k;
      assert groups[j].key == k;
    }
  }

  lemma PartitionAt(keyOf: KeyFunction, items: seq<Value>, j: nat)
    requires j < |KeysOf(keyOf, items)|
    ensures |Partition(keyOf, items)| == |KeysOf(keyOf, items)|
    ensures var k := KeysOf(keyOf, items)[j]; Partition(keyOf, items)[j] == Entry(k, List(WithKey(keyOf, items, k)))
  {
  }

  /** What one more item does to the group of key `k`. */
  lemma WithKeyNext(keyOf: KeyFunction, items: seq<Value>, n: nat, k: string)
    requires n + 1 == |items|
    ensures WithKey(keyOf, items, k) ==
            if KeyText(keyOf, items[n]) == k then WithKey(keyOf, items[..n], k) + [items[n]]
            else WithKey(keyOf, items[..n], k)
  {
  }

  /** An item with a key seen before joins its group. */
  lemma OldKey(keyOf: KeyFunction, items: seq<Value>, n: nat, i: nat)
    requires n + 1 == |items| && KeyText(keyOf, items[n]) in KeysOf(keyOf, items[..n])
    requires i < |KeysOf(keyOf, items[..n])| && KeysOf(keyOf, items[..n])[i] == KeyText(keyOf, items[n])
    ensures i < |Partition(keyOf, items[..n])|
    ensures var k, front := KeyText(keyOf, items[n]), items[..n];
      Partition(keyOf, items) == Partition(keyOf, front)[i := Entry(k, List(WithKey(keyOf, front, k) + [items[n]]))]
  {
    var keys, front := KeysOf(keyOf, items[..n]), items[..n];
    assert KeysOf(keyOf, items) == keys;
    forall j | 0 <= j < |keys|
      ensures Partition(keyOf, items)[j] == Entry(keys[j], List(WithKey(keyOf, items, keys[j])))
      ensures j != i ==> Partition(keyOf, items)[j] == Partition(keyOf, front)[j]
    {
      PartitionAt(keyOf, items, j);
      PartitionAt(keyOf, front, j);
      WithKeyNext(keyOf, items, n, keys[j]);
    }
    WithKeyNext(keyOf, items, n, keys[i]);
  }

  /** An item with a new key starts a group at the end. */
  lemma NewKey(keyOf: KeyFunction, items: seq<Value>, n: nat)
    requires n + 1 == |items| && KeyText(keyOf, items[n]) !in KeysOf(keyOf, items[..n])
    ensures Partition(keyOf, items) ==
            Partition(keyOf, items[..n]) + [Entry(KeyText(keyOf, items[n]), List([items[n]]))]
  {
    var keys, front, k := KeysOf(keyOf, items[..n]), items[..n], KeyText(keyOf, items[n]);
    assert KeysOf(keyOf, items) == keys + [k];
    forall j | 0 <= j < |keys| ensures Partition(keyOf, items)[j] == Partition(keyOf, front)[j] {
      PartitionAt(keyOf, items, j);
      PartitionAt(keyOf, front, j);
      WithKeyNext(keyOf, items, n, keys[j]);
    }
    PartitionAt(keyOf, items, |keys|);
    WithKeyNext(keyOf, items, n, k);
    AbsentKey(keyOf, front, k);
    assert [] + [items[n]] == [items[n]];
  }

  /** Filing one more item under a key that fits keeps the partition. */
  lemma FileKeepsPartition(keyOf: KeyFunction, items: seq<Value>, n: nat)
    requires n + 1 == |items| && FitsKey(keyOf(items[n]))
    ensures FileItem(Partition(keyOf, items[..n]), keyOf(items[n]), items[n]) == Some(Partition(keyOf, items))
  {
    var k, groups := KeyText(keyOf, items[n]), Partition(keyOf, items[..n]);
    FindInPartition(keyOf, items[..n], k);
    if k in KeysOf(keyOf, items[..n]) {
      var i := Find(groups, k);
      OldKey(keyOf, items, n, i);
      PartitionAt(keyOf, items[..n], i);
    } else {
      NewKey(keyOf, items, n);
    }
  }

  predicate AllFit(keyOf: KeyFunction, items: seq<Value>) {
    forall i :: 0 <= i < |items| ==> FitsKey(keyOf(items[i]))
  }

  lemma {:induction false} GroupsArePartition(keyOf: KeyFunction, items: seq<Value>)
    requires AllFit(keyOf, items)
    ensures Grouped(keyOf, items) == Some(Partition(keyOf, items))
  {
    if items == [] {
      assert Partition(keyOf, items) == [];
    } else {
      GroupsArePartition(keyOf, items[..|items| - 1]);
      FileKeepsPartition(keyOf, items, |items| - 1);
    }
  }

  lemma FileKeysFit(groups: seq<Entry>, key: Option<string>, item: Value)
    requires FileItem(groups, key, item).Some? && forall g :: g in groups ==> |g.key| < MAX_NAME
    ensures forall g :: g in FileItem(groups, key, item).value ==> |g.key| < MAX_NAME
  {
  }

  lemma {:induction false} GroupKeysFit(keyOf: KeyFunction, items: seq<Value>)
    ensures var r := Grouped(keyOf, items); r.Some? ==> forall g :: g in r.value ==> |g.key| < MAX_NAME
  {
    if items != [] {
      var n := |items| - 1;
      GroupKeysFit(keyOf, items[..n]);
      var r := Grouped(keyOf, items[..n]);
      if r.Some? && FileItem(r.value, keyOf(items[n]), items[n]).Some? {
        FileKeysFit(r.value, keyOf(items[n]), items[n]);
      }
    }
  }

  lemma {:induction false} GroupedKeyIsThere(keyOf: KeyFunction, items: seq<Value>, i: nat)
    requires Grouped(keyOf, items).Some? && i < |items|
    ensures keyOf(items[i]).Some? && keyOf(items[i]).value != ""
  {
    var n := |items| - 1;
    if i < n {
      GroupedKeyIsThere(keyOf, items[..n], i);
      assert items[..n][i] == items[i];
    }
  }

  lemma PartitionedKeyFits(keyOf: KeyFunction, items: seq<Value>, i: nat)
    requires Grouped(keyOf, items) == Some(Partition(keyOf, items)) && i < |items|
    ensures FitsKey(keyOf(items[i]))
  {
    GroupKeysFit(keyOf, items);
    GroupedKeyIsThere(keyOf, items, i);
    var k, keys := KeyText(keyOf, items[i]), KeysOf(keyOf, items);
    assert k in keys;
    var j :| 0 <= j < |keys| && keys[j] == k;
    PartitionAt(keyOf, items, j);
    assert Partition(keyOf, items)[j] in Partition(keyOf, items);
  }

  /**
   * `group_by` gives the stable partition of the items by their keys if and only if every key is
   * there, is not empty and fits the key field of an entry.
   */
  lemma GroupByIsPartitionIff(keyOf: KeyFunction, items: seq<Value>)
    ensures Grouped(keyOf, items) == Some(Partition(keyOf, items)) <==> AllFit(keyOf, items)
  {
    if AllFit(keyOf, items) {
      GroupsArePartition(keyOf, items);
    } else if Grouped(keyOf, items) == Some(Partition(keyOf, items)) {
      forall i | 0 <= i < |items| ensures FitsKey(keyOf(items[i])) { PartitionedKeyFits(keyOf, items, i); }
    }
  }

  predicate AllLists(groups: seq<Entry>) { forall i :: 0 <= i < |groups| ==> groups[i].value.List? }

  lemma FilesUnlessKeyless(groups: seq<Entry>, key: Option<string>, item: Value)
    requires AllLists(groups)
    ensures var r := FileItem(groups, key, item);
      (r == None <==> key.None? || key.value == "") && (r.Some? ==> AllLists(r.value))
  {
  }

  lemma {:induction false} GroupedAreLists(keyOf: KeyFunction, items: seq<Value>)
    ensures var r := Grouped(keyOf, items); r.Some? ==> AllLists(r.value)
  {
    if items != [] {
      var n := |items| - 1;
      GroupedAreLists(keyOf, items[..n]);
      var r := Grouped(keyOf, items[..n]);
      if r.Some? { FilesUnlessKeyless(r.value, keyOf(items[n]), items[n]); }
    }
  }

  /** Grouping fails exactly when some item has no key or an empty one; a long key is no failure. */
  lemma {:induction false} GroupingFailsIff(keyOf: KeyFunction, items: seq<Value>)
    ensures Grouped(keyOf, items) == None <==> exists x :: x in items && (keyOf(x).None? || keyOf(x).value == "")
  {
    if items != [] {
      var n := |items| - 1;
      var front := items[..n];
      assert items == front + [items[n]];
      assert forall x :: x in items <==> x in front || x == items[n];
      GroupingFailsIff(keyOf, front);
      GroupedAreLists(keyOf, front);
      var r := Grouped(keyOf, front);
      if r.Some? { FilesUnlessKeyless(r.value, keyOf(items[n]), items[n]); }
    }
  }

  // ---------------------------------------------------------------- what a partition is

  function FirstWithKey(keyOf: KeyFunction, items: seq<Value>, k: string): (i: nat)
    ensures i <= |items| && (i < |items| ==> KeyText(keyOf, items[i]) == k)
    ensures forall j :: 0 <= j < i ==> KeyText(keyOf, items[j]) != k
  {
    if items == [] || KeyText(keyOf, items[0]) == k then 0 else 1 + FirstWithKey(keyOf, items[1..], k)
  }

  lemma FirstIs(keyOf: KeyFunction, items: seq<Value>, k: string, i: nat)
    requires i < |items| && KeyText(keyOf, items[i]) == k && forall j :: 0 <= j < i ==> KeyText(keyOf, items[j]) != k
    ensures FirstWithKey(keyOf, items, k) == i
  {
  }

  lemma FirstInFront(keyOf: KeyFunction, items: seq<Value>, n: nat, k: string)
    requires n <= |items| && k in KeysOf(keyOf, items[..n])
    ensures FirstWithKey(keyOf, items, k) == FirstWithKey(keyOf, items[..n], k) < n
  {
    var front := items[..n];
    var i :| 0 <= i < |front| && KeyText(keyOf, front[i]) == k;
    var first := FirstWithKey(keyOf, front, k);
    assert first <= i;
    assert forall m :: 0 <= m < n ==> front[m] == items[m];
    FirstIs(keyOf, items, k, first);
  }

  /** Groups come in the order in which their first items do. */
  lemma {:induction false} KeysInOrder(keyOf: KeyFunction, items: seq<Value>, i: nat, j: nat)
    requires i < j < |KeysOf(keyOf, items)|
    ensures var keys := KeysOf(keyOf, items);
      FirstWithKey(keyOf, items, keys[i]) < FirstWithKey(keyOf, items, keys[j]) < |items|
    decreases |items|
  {
    var n := |items| - 1;
    var keys, before := KeysOf(keyOf, items), KeysOf(keyOf, items[..n]);
    assert keys[i] in before;
    FirstInFront(keyOf, items, n, keys[i]);
    if j < |before| {
      assert keys[j] in before;
      FirstInFront(keyOf, items, n, keys[j]);
      KeysInOrder(keyOf, items[..n], i, j);
    } else {
      LastIsFirst(keyOf, items, n);
    }
  }

  lemma LastIsFirst(keyOf: KeyFunction, items: seq<Value>, n: nat)
    requires n + 1 == |items| && KeyText(keyOf, items[n]) !in KeysOf(keyOf, items[..n])
    ensures FirstWithKey(keyOf, items, KeyText(keyOf, items[n])) == n
  {
    forall m | 0 <= m < n ensures KeyText(keyOf, items[m]) != KeyText(keyOf, items[n]) {
      assert items[..n][m] == items[m];
    }
    FirstIs(keyOf, items, KeyText(keyOf, items[n]), n);
  }

  function Sizes(groups: seq<Entry>): nat {
    if groups == [] then 0
    else (if groups[0].value.List? then |groups[0].value.items| else 0) + Sizes(groups[1..])
  }

  lemma {:induction false} SizesAppend(a: seq<Entry>, b: seq<Entry>)
    ensures Sizes(a + b) == Sizes(a) + Sizes(b)
  {
    if a == [] {
      assert a + b == b;
    } else {
      assert (a + b)[1..] == a[1..] + b;
      SizesAppend(a[1..], b);
    }
  }

  lemma SizesUpdate(groups: seq<Entry>, i: nat, k: string, items: seq<Value>, item: Value)
    requires i < |groups| && groups[i].value == List(items)
    ensures Sizes(groups[i := Entry(k, List(items + [item]))]) == Sizes(groups) + 1
  {
    var e := Entry(k, List(items + [item]));
    assert groups == groups[..i] + ([groups[i]] + groups[i + 1..]);
    assert groups[i := e] == groups[..i] + ([e] + groups[i + 1..]);
    SizesAppend(groups[..i], [groups[i]] + groups[i + 1..]);
    SizesAppend(groups[..i], [e] + groups[i + 1..]);
    assert ([e] + groups[i + 1..])[1..] == groups[i + 1..] == ([groups[i]] + groups[i + 1..])[1..];
  }

  /** No item is lost and none is filed twice: the sizes of the groups add up to the number of items. */
  lemma {:induction false} SizesAddUp(keyOf: KeyFunction, items: seq<Value>)
    ensures Sizes(Partition(keyOf, items)) == |items|
  {
    if items == [] {
      assert Partition(keyOf, items) == [];
    } else {
      var n := |items| - 1;
      var front, k := items[..n], KeyText(keyOf, items[n]);
      SizesAddUp(keyOf, front);
      FindInPartition(keyOf, front, k);
      if k in KeysOf(keyOf, front) {
        var i := Find(Partition(keyOf, front), k);
        OldKey(keyOf, items, n, i);
        PartitionAt(keyOf, front, i);
        SizesUpdate(Partition(keyOf, front), i, k, WithKey(keyOf, front, k), items[n]);
      } else {
        NewKey(keyOf, items, n);
        var last := [Entry(k, List([items[n]]))];
        assert last[1..] == [];
        SizesAppend(Partition(keyOf, front), last);
      }
    }
  }

  // ---------------------------------------------------------------- a key that does not fit

  /** Two items with one key of 128 bytes or more end up in two groups, under the same shorter key. */
  lemma LongKeySplitsGroup(x: Value, k: string)
    requires |k| >= MAX_NAME
    ensures Grouped(_ => Some(k), [x, x]) == Some([Entry(StoredKey(k), List([x])), Entry(StoredKey(k), List([x]))])
  {
    var keyOf: KeyFunction := _ => Some(k);
    var g := Entry(StoredKey(k), List([x]));
    assert [x, x][..1] == [x] && [x][..0] == [];
    assert Grouped(keyOf, []) == Some([]);
    assert Put([], k, List([x])) == [g];
    assert Grouped(keyOf, [x]) == Some([g]);
    assert Find([g], k) == 1;
    assert Put([g], k, List([x])) == [g, g];
  }
}
