/** The cache orchestrator: a `Cache` object that owns a FIFO index and a map store and
    drives them in a fixed order on every operation. */
module GenCache {
  import opened Common
  import opened FifoIndex
  import opened MapStore
  import CacheSpec

  class Cache<K(==), V> {
    /** `cacheConfig.capacity`, reassigned by `setCapacity`. */
    var capacity: int
    const store: Store<K, V>
    const index: Index<K>

    /** The state the operations are specified against. */
    ghost function State(): CacheSpec.CacheState<K, V>
      reads this, store, index
    {
      CacheSpec.CacheState(capacity, index.keys, store.entries)
    }

    ghost predicate Valid()
      reads this, store, index
    {
      CacheSpec.Inv(State())
    }

    /** A cache over a fresh FIFO index and a fresh map store. */
    constructor (capacity: int)
      requires capacity > 0
      ensures Valid() && fresh(store) && fresh(index)
      ensures State() == CacheSpec.CacheState(capacity, [], map[])
    {
      this.capacity := capacity;
      store := new Store();
      index := new Index();
    }

    /** `getCapacity`. */
    method GetCapacity() returns (c: int)
      ensures c == capacity
    {
      c := capacity;
    }

    /** `setCapacity(c)`: record the capacity, then cut the surplus off the back of the
        index and delete those keys. */
    method SetCapacity(c: int)
      requires Valid() && c > 0
      modifies this, store, index
      ensures Valid()
      ensures State() == CacheSpec.Resize(old(State()), c)
    {
      capacity := c;
      var len := index.GetLength();
      var numberToClear := len - capacity;
      if numberToClear > 0 {
        var keysToRemove := index.RemoveLast(numberToClear);
        assert index.keys == old(index.keys)[..c] && keysToRemove == old(index.keys)[c..];
        Delete(keysToRemove);
      }
      CacheSpec.ResizePreservesInv(old(State()), c);
    }

    /** `get(key)`: the value `getMany([key])` reads, the absent-marker when missing or expired. */
    method Get(key: K, now: int) returns (v: Option<V>)
      requires Valid()
      modifies store, index
      ensures Valid()
      ensures State() == CacheSpec.Retrieve(old(State()), [key], now).state
      ensures v == CacheSpec.Retrieve(old(State()), [key], now).items[0].value
    {
      var items := GetMany([key], now);
      v := items[0].value;
    }

    /** `getMany(keys)` (the private `retrieve`): one item per requested key in request order,
        clearing the value of each expired stored item and delisting expired keys from the index. */
    method GetMany(keys: seq<K>, now: int) returns (items: seq<Item<K, V>>)
      requires Valid()
      modifies store, index
      ensures Valid()
      ensures State() == CacheSpec.Retrieve(old(State()), keys, now).state
      ensures items == CacheSpec.Retrieve(old(State()), keys, now).items
    {
      index.MarkGet(keys);
      ghost var entries0 := store.entries;
      var expiredKeys: seq<K> := [];
      items := [];
      var i := 0;
      while i < |keys|
        invariant 0 <= i <= |keys|
        invariant index.keys == old(index.keys)
        invariant store.entries == CacheSpec.Expire(entries0, keys[..i], now)
        invariant expiredKeys == CacheSpec.ExpiredKeys(entries0, keys[..i], now)
        invariant items == CacheSpec.ReadAll(entries0, keys[..i], now)
      {
        var key := keys[i];
        var found := store.Get(key);
        var item := if found.Some? then found.value else Item(key, None, None);
        if IsExpired(item, now) {
          // the stored item is overwritten through the reference `get` returned
          item := item.(value := None);
          store.entries := store.entries[key := item];
          expiredKeys := expiredKeys + [key];
        }
        CacheSpec.ExpireStep(entries0, keys, i, now);
        assert keys[..i + 1][..i] == keys[..i];
        items := items + [item];
        i := i + 1;
      }
      assert keys[..i] == keys;
      if |expiredKeys| > 0 {
        index.RemoveKeys(expiredKeys);
      } else {
        WithoutAbsent(index.keys, expiredKeys);
      }
      CacheSpec.RetrievePreservesInv(old(State()), keys, now);
    }

    /** `put(key, value, ttl)`: `putMany` of one item expiring at `now + ttl`, or never for ttl 0. */
    method Put(key: K, value: Option<V>, ttl: int, now: int)
      requires Valid()
      modifies store, index
      ensures Valid()
      ensures State() == CacheSpec.Put(old(State()), key, value, ttl, now)
    {
      PutMany([Item(key, value, ExpiryFor(ttl, now))]);
    }

    /** `putMany(items)` (the private `insert`): evict with pre-insert counts, truncate the
        batch to `capacity`, put each item, then add the batch's keys to the front of the index. */
    method PutMany(items: seq<Item<K, V>>)
      requires Valid()
      modifies store, index
      ensures Valid()
      ensures State() == CacheSpec.Insert(old(State()), items)
    {
      ghost var s0 := State();
      MakeRoom(|items|);
      var batch := items;
      if |batch| > capacity {
        batch := batch[..capacity];
      }
      assert batch == CacheSpec.Truncate(items, capacity);
      StoreAll(batch);
      index.AddKeys(KeysOf(batch));
      CacheSpec.InsertPreservesInv(s0, items);
    }

    /** The eviction phase of `insert`: when the index plus `n` new items would exceed the
        capacity, cut the surplus off the back of the index and delete those keys. */
    method MakeRoom(n: nat)
      modifies store, index
      ensures State() == CacheSpec.MakeRoom(old(State()), n)
    {
      var len := index.GetLength();
      var numberToClear := len + n - capacity;
      if numberToClear > 0 {
        var keysToRemove := index.RemoveLast(numberToClear);
        CacheSpec.EvictAsSplit(old(State()), numberToClear, index.keys, keysToRemove);
        Delete(keysToRemove);
      }
    }

    /** The store phase of `insert`: `store.put` of each item of the batch in turn. */
    method StoreAll(batch: seq<Item<K, V>>)
      modifies store
      ensures store.entries == PutAll(old(store.entries), batch)
    {
      var i := 0;
      while i < |batch|
        invariant 0 <= i <= |batch|
        invariant store.entries == PutAll(old(store.entries), batch[..i])
      {
        store.Put(batch[i]);
        assert batch[..i + 1][..i] == batch[..i];
        i := i + 1;
      }
      assert batch[..i] == batch;
    }

    /** `remove(key)`: `removeMany([key])`. */
    method Remove(key: K)
      requires Valid()
      modifies store, index
      ensures Valid()
      ensures State() == CacheSpec.Delete(old(State()), [key])
    {
      RemoveMany([key]);
    }

    /** `removeMany(keys)`: the private `delete`, on a valid cache. */
    method RemoveMany(keys: seq<K>)
      requires Valid()
      modifies store, index
      ensures Valid()
      ensures State() == CacheSpec.Delete(old(State()), keys)
    {
      Delete(keys);
      CacheSpec.DeletePreservesInv(old(State()), keys);
    }

    /** The private `delete(keys)`: filter the keys out of the index, then delete each from
        the store. `setCapacity` calls it while the index may still exceed the new capacity. */
    method Delete(keys: seq<K>)
      modifies store, index
      ensures State() == CacheSpec.Delete(old(State()), keys)
    {
      index.RemoveKeys(keys);
      var i := 0;
      while i < |keys|
        invariant 0 <= i <= |keys|
        invariant index.keys == Without(old(index.keys), keys)
        invariant store.entries == DeleteAll(old(store.entries), keys[..i])
      {
        var present := store.Delete(keys[i]);
        assert keys[..i + 1][..i] == keys[..i];
        i := i + 1;
      }
      assert keys[..i] == keys;
    }
  }

  /** Batch truncation through the class: with capacity 2, `putMany` of a, b and c keeps
      the first two items and never stores c. */
  method BatchTruncationScenario() returns (a: Option<int>, b: Option<int>, c: Option<int>)
    ensures a == Some(1) && b == Some(2) && c == None
  {
    var cache := new Cache<string, int>(2);
    var items := [Item("a", Some(1), None), Item("b", Some(2), None), Item("c", Some(3), None)];
    cache.PutMany(items);
    ghost var s := cache.State();
    CacheSpec.InsertEntries(CacheSpec.CacheState(2, [], map[]), items, "a");
    CacheSpec.InsertEntries(CacheSpec.CacheState(2, [], map[]), items, "b");
    CacheSpec.InsertEntries(CacheSpec.CacheState(2, [], map[]), items, "c");
    CacheSpec.RetrieveOne(s, "a", 0);
    CacheSpec.RetrieveOne(s, "b", 0);
    CacheSpec.RetrieveOne(s, "c", 0);
    a := cache.Get("a", 0);
    b := cache.Get("b", 0);
    c := cache.Get("c", 0);
  }

  /** Shrinking through the class: with capacity 5, separate puts of a, b and c, then
      `setCapacity(1)` evicts the two oldest, a and b, and keeps c. */
  method SetCapacityScenario() returns (a: Option<int>, b: Option<int>, c: Option<int>)
    ensures a == None && b == None && c == Some(3)
  {
    var cache := new Cache<string, int>(5);
    cache.Put("a", Some(1), 0, 0);
    cache.Put("b", Some(2), 0, 0);
    cache.Put("c", Some(3), 0, 0);
    ShrinkFacts(cache.State());
    cache.SetCapacity(1);
    ghost var s := cache.State();
    CacheSpec.RetrieveOne(s, "a", 0);
    CacheSpec.RetrieveOne(s, "b", 0);
    CacheSpec.RetrieveOne(s, "c", 0);
    a := cache.Get("a", 0);
    b := cache.Get("b", 0);
    c := cache.Get("c", 0);
  }

  /** The state reasoning behind `SetCapacityScenario`: after the three puts, shrinking to
      one keeps only c, with its item. */
  lemma ShrinkFacts(s3: CacheSpec.CacheState<string, int>)
    requires s3 == CacheSpec.Put(CacheSpec.Put(CacheSpec.Put(CacheSpec.CacheState(5, [], map[]),
                "a", Some(1), 0, 0), "b", Some(2), 0, 0), "c", Some(3), 0, 0)
    ensures "a" !in CacheSpec.Resize(s3, 1).entries && "b" !in CacheSpec.Resize(s3, 1).entries
    ensures "c" in CacheSpec.Resize(s3, 1).entries
    ensures CacheSpec.Resize(s3, 1).entries["c"] == Item("c", Some(3), None)
  {
    var ia, ib, ic := Item("a", Some(1), None), Item("b", Some(2), None), Item("c", Some(3), None);
    var s0 := CacheSpec.CacheState(5, [], map[]);
    var s1 := CacheSpec.Insert(s0, [ia]);
    var s2 := CacheSpec.Insert(s1, [ib]);
    CacheSpec.InsertWithinCapacity(s0, [ia]);
    CacheSpec.InsertWithinCapacity(s1, [ib]);
    CacheSpec.InsertWithinCapacity(s2, [ic]);
    CacheSpec.InsertEntries(s2, [ic], "c");
    assert s3.keys == ["c", "b", "a"];
    CacheSpec.ResizeEffect(s3, 1, "a");
    CacheSpec.ResizeEffect(s3, 1, "b");
    CacheSpec.ResizeEffect(s3, 1, "c");
  }

  /** Lazy expiry through the class: an item put at time 0 with ttl 10 reads back at
      time 0 and reads as absent at time 50, after which it is no longer indexed. */
  method TtlScenario() returns (early: Option<int>, late: Option<int>, indexed: seq<string>)
    ensures early == Some(7) && late == None && indexed == []
  {
    var cache := new Cache<string, int>(5);
    cache.Put("k", Some(7), 10, 0);
    early := cache.Get("k", 0);
    late := cache.Get("k", 50);
    indexed := cache.index.GetKeys();
  }
}
