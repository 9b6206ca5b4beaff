/** The map-backed store: key to item, with `put(item)` filing an item under its own key. */
module MapStore {
  import opened Common

  /** Every entry is filed under its own item's key, as `put(item)` files it. */
  predicate Keyed<K, V>(m: map<K, Item<K, V>>)
  {
    forall k :: k in m ==> m[k].key == k
  }

  /** The store after `put` of each item of the batch in turn. */
  function PutAll<K, V>(m: map<K, Item<K, V>>, items: seq<Item<K, V>>): map<K, Item<K, V>>
  {
    if items == [] then m
    else
      var last := items[|items| - 1];
      PutAll(m, items[..|items| - 1])[last.key := last]
  }

  /** The store after `delete` of each key in turn. */
  function DeleteAll<K, V>(m: map<K, Item<K, V>>, ks: seq<K>): map<K, Item<K, V>>
  {
    if ks == [] then m else DeleteAll(m, ks[..|ks| - 1]) - {ks[|ks| - 1]}
  }

  /** The position of the last item of the batch carrying key `k`. */
  function LastIndexOf<K(==), V>(items: seq<Item<K, V>>, k: K): (j: nat)
    requires k in KeysOf(items)
    ensures j < |items| && items[j].key == k
    ensures forall j' :: j < j' < |items| ==> items[j'].key != k
  {
    var last := |items| - 1;
    if items[last].key == k then last
    else
      assert KeysOf(items) == KeysOf(items[..last]) + [items[last].key];
      LastIndexOf(items[..last], k)
  }

  /** A batch of puts leaves a key stored exactly when it was stored or is in the batch;
      a batch key holds the batch's last item for it, every other key keeps its entry. */
  lemma {:induction false} PutAllLookup<K, V>(m: map<K, Item<K, V>>, items: seq<Item<K, V>>, k: K)
    ensures k in PutAll(m, items) <==> k in m || k in KeysOf(items)
    ensures k in KeysOf(items) ==> PutAll(m, items)[k] == items[LastIndexOf(items, k)]
    ensures k !in KeysOf(items) && k in m ==> PutAll(m, items)[k] == m[k]
  {
    if items != [] {
      var last := |items| - 1;
      assert KeysOf(items) == KeysOf(items[..last]) + [items[last].key];
      PutAllLookup(m, items[..last], k);
    }
  }

  /** Putting keeps every entry filed under its own key. */
  lemma {:induction false} PutAllKeyed<K, V>(m: map<K, Item<K, V>>, items: seq<Item<K, V>>)
    requires Keyed(m)
    ensures Keyed(PutAll(m, items))
  {
    if items != [] {
      PutAllKeyed(m, items[..|items| - 1]);
    }
  }

  /** A batch of deletes removes exactly the listed keys and leaves every other entry alone. */
  lemma {:induction false} DeleteAllLookup<K, V>(m: map<K, Item<K, V>>, ks: seq<K>, k: K)
    ensures k in DeleteAll(m, ks) <==> k in m && k !in ks
    ensures k in DeleteAll(m, ks) ==> DeleteAll(m, ks)[k] == m[k]
  {
    if ks != [] {
      var last := |ks| - 1;
      assert ks == ks[..last] + [ks[last]];
      DeleteAllLookup(m, ks[..last], k);
    }
  }

  /** Deleting keys that are not stored changes nothing. */
  lemma {:induction false} DeleteAllAbsent<K, V>(m: map<K, Item<K, V>>, ks: seq<K>)
    requires forall i :: 0 <= i < |ks| ==> ks[i] !in m
    ensures DeleteAll(m, ks) == m
  {
    if ks != [] {
      DeleteAllAbsent(m, ks[..|ks| - 1]);
      assert m - {ks[|ks| - 1]} == m;
    }
  }

  /** The store object built by `createMapStore`: the closure-held `Map` is `entries`. */
  class Store<K(==), V> {
    var entries: map<K, Item<K, V>>

    constructor ()
      ensures entries == map[]
    {
      entries := map[];
    }

    /** `get`: the stored item, or the not-found marker for a key never put or deleted. */
    method Get(k: K) returns (r: Option<Item<K, V>>)
      ensures r.None? <==> k !in entries
      ensures r.Some? ==> r.value == entries[k]
    {
      r := if k in entries then Some(entries[k]) else None;
    }

    /** `put(item)`: file the item under `item.key`, overwriting; other keys keep their entries. */
    method Put(item: Item<K, V>)
      modifies this
      ensures entries == old(entries)[item.key := item]
      ensures forall k :: k != item.key ==> (k in entries <==> k in old(entries))
      ensures forall k :: k != item.key && k in entries ==> entries[k] == old(entries)[k]
    {
      entries := entries[item.key := item];
    }

    /** `delete`: drop the key if present and report whether it was; other keys keep their entries. */
    method Delete(k: K) returns (present: bool)
      modifies this
      ensures present <==> k in old(entries)
      ensures entries == old(entries) - {k}
      ensures k !in entries
      ensures forall k' :: k' != k ==> (k' in entries <==> k' in old(entries))
    {
      present := k in entries;
      entries := entries - {k};
    }
  }

  /** The store's own unit scenarios, through the contracts above: a missing key reads as
      not found, a put reads back, a second put with the same key overwrites, and a
      delete makes the key read as not found again. */
  method StoreScenario<K(==), V>(first: Item<K, V>, second: Item<K, V>)
    returns (before: Option<Item<K, V>>, afterPut: Option<Item<K, V>>,
             afterOverwrite: Option<Item<K, V>>, deleted: bool, afterDelete: Option<Item<K, V>>)
    requires second.key == first.key
    ensures before == None
    ensures afterPut == Some(first)
    ensures afterOverwrite == Some(second)
    ensures deleted
    ensures afterDelete == None
  {
    var store := new Store<K, V>();
    before := store.Get(first.key);
    store.Put(first);
    afterPut := store.Get(first.key);
    store.Put(second);
    afterOverwrite := store.Get(first.key);
    deleted := store.Delete(first.key);
    afterDelete := store.Get(first.key);
  }
}
