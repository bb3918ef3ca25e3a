/**
The value tree of the object layer: what lists, maps and dictionaries hold.
Kinds that never nest other values (objects, blocks, classes, explicit numeric kinds, ...)
behave like the scalars here and are not told apart; matrices are not modelled.
*/
module Values {
  import opened Text

  datatype Value =
    | Empty
    | Str(text: string)
    | Num(n: int)
    | Boolean(b: bool)
    | List(items: seq<Value>)
    | Map(entries: seq<Entry>)
    | Dict(entries: seq<Entry>)
  {
    predicate MapLike() { Map? || Dict? }
  }

  datatype Entry = Entry(key: string, value: Value)

  /** Index of the first entry with this key, |entries| if there is none. */
  function Find(entries: seq<Entry>, key: string): (i: nat)
    ensures i <= |entries|
    ensures i < |entries| ==> entries[i].key == key
    ensures forall j :: 0 <= j < i ==> entries[j].key != key
  {
    if entries == [] || entries[0].key == key then 0 else 1 + Find(entries[1..], key)
  }

  /** `arksh_value_map_get_item` */
  function Lookup(entries: seq<Entry>, key: string): (v: Option<Value>) {
    var i := Find(entries, key);
    if i < |entries| then Some(entries[i].value) else None
  }

  /** What fits the key field of an entry. */
  function StoredKey(key: string): (k: string)
    ensures |k| < MAX_NAME
  {
    if |key| < MAX_NAME then key else key[..MAX_NAME - 1]
  }

  /** The entries after `arksh_value_map_set`: replaced in place, or added at the end. */
  function Put(entries: seq<Entry>, key: string, v: Value): (r: seq<Entry>) {
    var i := Find(entries, key);
    if i < |entries| then entries[i := Entry(entries[i].key, v)] else entries + [Entry(StoredKey(key), v)]
  }

  predicate HasKey(entries: seq<Entry>, key: string) { exists i :: 0 <= i < |entries| && entries[i].key == key }

  lemma FindAbsent(entries: seq<Entry>, key: string)
    ensures HasKey(entries, key) <==> Find(entries, key) < |entries|
  {
  }

  lemma FindFirst(entries: seq<Entry>, key: string, i: nat)
    requires i < |entries| && entries[i].key == key && forall j :: 0 <= j < i ==> entries[j].key != key
    ensures Find(entries, key) == i
  {
  }

  /** Reading back a key that fits the field; any other key reads as before. */
  lemma PutLookup(entries: seq<Entry>, key: string, v: Value, other: string)
    requires |key| < MAX_NAME
    ensures Lookup(Put(entries, key, v), other) == if other == key then Some(v) else Lookup(entries, other)
  {
    var r := Put(entries, key, v);
    var i, j := Find(entries, key), Find(entries, other);
    if other == key {
      FindFirst(r, key, i);
    } else if j < |entries| {
      FindFirst(r, other, j);
    } else {
      FindAbsent(r, other);
    }
  }

  /** A map or dictionary object as the source updates it. */
  class MapObject {
    var entries: seq<Entry>

    constructor ()
      ensures entries == []
    {
      entries := [];
    }

    /** `arksh_value_map_get_item` */
    method GetItem(key: string) returns (v: Option<Value>)
      ensures v == Lookup(entries, key)
    {
      var i := 0;
      while i < |entries|
        invariant i <= |entries| && forall j :: 0 <= j < i ==> entries[j].key != key
      {
        if entries[i].key == key { FindFirst(entries, key, i); return Some(entries[i].value); }
        i := i + 1;
      }
      FindAbsent(entries, key);
      return None;
    }

    /** `arksh_value_map_set`; an empty key is refused. */
    method Set(key: string, v: Value) returns (ok: bool)
      modifies this
      ensures ok == (key != "")
      ensures entries == if ok then Put(old(entries), key, v) else old(entries)
    {
      if key == "" { return false; }
      var i := 0;
      while i < |entries|
        invariant i <= |entries| && entries == old(entries) && forall j :: 0 <= j < i ==> entries[j].key != key
      {
        if entries[i].key == key {
          FindFirst(entries, key, i);
          entries := entries[i := Entry(entries[i].key, v)];
          return true;
        }
        i := i + 1;
      }
      FindAbsent(entries, key);
      entries := entries + [Entry(StoredKey(key), v)];
      return true;
    }
  }
}
