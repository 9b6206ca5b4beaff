/** Shapes shared by the cache, its index and its store. */
module Common {

  /** The absent-marker: JavaScript's `null` for a missing item or a cleared value. */
  datatype Option<T> = None | Some(value: T)

  /** A cache entry `{key, value, expiry?}`. A `null` value is `None`; `expiry` is an
      absolute instant in integer milliseconds, or `None` when the field is unset. */
  datatype Item<K, V> = Item(key: K, value: Option<V>, expiry: Option<int>)

  /** The read-time expiry test `item.expiry && item.expiry < now`: an unset or zero
      expiry is falsy and never expires; otherwise the item is stale strictly after it. */
  predicate IsExpired<K, V>(item: Item<K, V>, now: int)
  {
    item.expiry.Some? && item.expiry.value != 0 && item.expiry.value < now
  }

  /** The expiry `put(key, value, ttl)` attaches: `now + ttl` for a non-zero ttl, none otherwise. */
  function ExpiryFor(ttl: int, now: int): Option<int>
  {
    if ttl != 0 then Some(now + ttl) else None
  }

  /** The keys of a batch, in batch order (`items.map(i => i.key)`). */
  function KeysOf<K, V>(items: seq<Item<K, V>>): seq<K>
  {
    seq(|items|, i requires 0 <= i < |items| => items[i].key)
  }

  function Min(a: int, b: int): int
  {
    if a < b then a else b
  }

  function Max(a: int, b: int): int
  {
    if a < b then b else a
  }
}
