# gencache: a verified model of the FIFO cache core

gencache is a small generic key/value cache with a fixed capacity. A `Cache` object owns
two collaborators and drives them in a fixed order on every call:

- a **FIFO index** (`createFifoIndex`): an ordered list of keys, newest at the front, most
  evictable at the back; duplicates allowed;
- a **map store** (`createMapStore`): key to item `{key, value, expiry?}`.

`putMany` evicts from the back of the index, cuts an oversized batch to `capacity`, puts
each item in the store and prepends the batch's keys to the index. `setCapacity` records the
new capacity and evicts the surplus. `getMany` reads each key, answers a not-found item for a
missing key, clears the value of an expired stored item and delists expired keys from the
index. `removeMany` filters keys out of the index and deletes them from the store.
`put`, `get` and `remove` are the one-key forms.

The model has five modules:

- `Common` (`common.dfy`): the item record, the absent-marker `Option`, the expiry test and
  the expiry `put` attaches.
- `FifoIndex` (`fifo_index.dfy`): class `Index` whose field `keys` is the closure-held array.
  Its methods are specified against the filter function `Without`, with lemmas about it.
- `MapStore` (`map_store.dfy`): class `Store` whose field `entries` is the closure-held `Map`.
  Batch puts and deletes are the functions `PutAll` and `DeleteAll`, with lookup lemmas.
- `CacheSpec` (`cache_spec.dfy`): every cache operation as a pure transformer of a
  `CacheState` (capacity, index, store). It holds the invariant `Inv` and the lemmas: what
  each operation does, that it keeps `Inv`, the put/get round trip, the expiry boundary,
  and FIFO eviction order.
- `GenCache` (`cache.dfy`): class `Cache`, holding `capacity`, a `Store` and an `Index`. It
  calls their methods in the source's order. Each public method keeps `Valid()` and ends in
  exactly the state the matching `CacheSpec` function gives.

The clock (`Date.now()`) is a parameter `now` of `Get`, `GetMany` and `Put`, in integer
milliseconds.

Behaviour of the code worth knowing:

- An oversized batch keeps its **first** `capacity` items (`items.splice(capacity)`), not
  the last ones (`InsertDropsOverflow`, `BatchTruncationScenario`).
- Expiry is tested with `expiry < now`. A read at exactly `put`-time plus ttl still returns
  the value (`PutThenExpire`).
- An expired key leaves the index but **stays in the store** with its value cleared.
  So the store can hold more items than `capacity`; only the index is bounded (`Inv`).
- Eviction deletes the evicted keys by key, through `removeKeys` and the store's `delete`.
  The back of the index holds the oldest entries, so an evicted key's other entries are
  newer ones, left by a later re-put; they leave the index too, and the key leaves the
  store. A key re-put since its oldest entry is therefore lost when that entry is evicted:
  with capacity 3 and index `a, b, a`, `put(c)` leaves index `c, b` and `a` unstored
  (`InsertDropsRePut`, `InsertIndex`, `EvictLookup`).
- Re-putting a key gains it a second index entry (`InsertWithinCapacity`).
- The eviction count uses the batch length before truncation (`EvictionCount`).

Interface mismatch: src/store/types.ts:2 and src/store/map/index.ts:8 declare
`put(key, value)`, but the cache (src/cache/index.ts:61) and the store's own tests call
`put(item)` and read the item back by `item.key`. The model's `Store.Put` takes the item and
files it under its key. Likewise src/index/types.ts:6 names `clearLast`; the cache calls
`removeLast` and `removeKeys`, which src/index/fifo/index.ts defines, and those are modelled.

`insert` evicts through the public `removeMany`; `Cache.PutMany` evicts through the private
`Delete` (via the helper `MakeRoom`). `removeMany` is exactly `delete`, so the effect is the
same. The helper only avoids demanding the invariant in the middle of `putMany`.

## Model

| member | source | states |
|---|---|---|
| Common.IsExpired | src/cache/index.ts:76 | `item.expiry && item.expiry < now`: an unset or zero expiry (falsy) never expires; otherwise stale strictly after the expiry |
| Common.ExpiryFor | src/cache/index.ts:40 | `ttl ? now + ttl : null`: ttl 0 (falsy) means no expiry, any other ttl expires at `now + ttl` |
| Common.KeysOf | src/cache/index.ts:62 | `items.map(i => i.key)`: the batch's keys in batch order |
| FifoIndex.Without | src/index/fifo/index.ts:13 | `index.filter(key => !keys.includes(key))`, never longer than the index |
| FifoIndex.WithoutMembership | src/index/fifo/index.ts:12-14 | after `removeKeys(ks)` a key is indexed iff it was indexed and is not in `ks` |
| FifoIndex.WithoutAppend | src/index/fifo/index.ts:13 | the filter works entry by entry: it distributes over concatenation, so survivors keep their relative order |
| FifoIndex.WithoutAbsent | src/index/fifo/index.ts:13 | removing keys none of which is indexed leaves the index unchanged |
| FifoIndex.WithoutCount | src/index/fifo/index.ts:13 | each surviving key keeps its exact number of occurrences; removed keys keep none |
| FifoIndex.Index.constructor | src/index/fifo/index.ts:3-4 | a fresh index is empty |
| FifoIndex.Index.GetKeys | src/index/fifo/index.ts:6 | returns the keys in index order |
| FifoIndex.Index.GetLength | src/index/fifo/index.ts:7 | returns the number of index entries |
| FifoIndex.Index.MarkGet | src/index/fifo/index.ts:8 | a read never reorders a FIFO index |
| FifoIndex.Index.AddKeys | src/index/fifo/index.ts:9-11 | the batch goes to the front in batch order, ahead of the old keys, none dropped |
| FifoIndex.Index.RemoveKeys | src/index/fifo/index.ts:12-14 | the new index is the old one filtered by `ks`; membership iff indexed and not removed |
| FifoIndex.Index.RemoveLast | src/index/fifo/index.ts:15 | removes the last `min(n, len)` entries, `n = 0` removing none; kept entries followed by the returned ones are the old index |
| FifoIndex.AddKeysScenario | src/index/lru/test.ts:35-43 | a fresh index lists no keys; `addKeys` of `key1, key2` then `key3, key4` gives `key3, key4, key1, key2` |
| FifoIndex.RemoveKeysScenario | src/index/lru/test.ts:45-53 | on `key1 .. key4`, `removeKeys([key2, key4])` leaves `key1, key3` |
| FifoIndex.RemoveLastScenario | src/index/lru/test.ts:55-67 | on `key1 .. key4`, `removeLast(2)` returns `key3, key4` and keeps `key1, key2`; `removeLast(0)` returns nothing and keeps all four |
| MapStore.PutAll | src/cache/index.ts:61 | `items.map(item => this.store.put(item))`: the store after each batch item is put in turn |
| MapStore.DeleteAll | src/cache/index.ts:67 | `keys.map(key => this.store.delete(key))`: the store after each key is deleted in turn |
| MapStore.LastIndexOf | src/cache/index.ts:61 | the position of the last batch item with a given key, which is the item a run of puts leaves stored |
| MapStore.PutAllLookup | src/cache/index.ts:61 | after putting a batch, a key is stored iff it was stored or is in the batch; a batch key holds its last batch item; other keys keep their items |
| MapStore.PutAllKeyed | src/store/map/test.ts:13-19 | putting keeps every entry filed under its own item's key |
| MapStore.DeleteAllLookup | src/cache/index.ts:67 | deleting a list of keys removes exactly those keys and leaves every other entry alone |
| MapStore.DeleteAllAbsent | src/store/map/index.ts:6 | deleting keys that are not stored changes nothing |
| MapStore.Store.constructor | src/store/map/index.ts:3-4 | a fresh store is empty |
| MapStore.Store.Get | src/store/map/index.ts:7 | the stored item for a stored key, the not-found marker otherwise |
| MapStore.Store.Put | src/store/map/index.ts:8-10 | files the item under its key, overwriting; every other key keeps its entry |
| MapStore.Store.Delete | src/store/map/index.ts:6 | reports whether the key was stored and removes it; every other key keeps its entry |
| MapStore.StoreScenario | src/store/map/test.ts:9-55 | missing key reads as not found; a put reads back; a second put overwrites; a delete makes the key read as not found |
| CacheSpec.Evict | src/cache/index.ts:53-54 | `removeLast(n)` then `delete` of the returned keys: the back `min(n, len)` index entries are cut off and those keys filtered out of the rest and deleted from the store |
| CacheSpec.Evicted | src/cache/index.ts:53 | the keys `putMany`'s `removeLast` returns: the back `EvictionCount` entries of the index |
| CacheSpec.Resize | src/cache/index.ts:24-31 | `setCapacity(c)`: the capacity becomes `c`, then `len - c` keys are evicted when positive |
| CacheSpec.ReadItem | src/cache/index.ts:75-79 | one key's read: `{key, value: null}` when not stored, the stored item with value cleared when expired, else the stored item |
| CacheSpec.ReadAll | src/cache/index.ts:74-82 | the `reduce`: each requested key's read, in request order |
| CacheSpec.ExpiredKeys | src/cache/index.ts:73-78 | `expiredKeys`: the requested keys that are stored and expired, in request order |
| CacheSpec.Expire | src/cache/index.ts:77 | `item.value = null` on each requested, stored, expired item; no other entry changes |
| CacheSpec.Put | src/cache/index.ts:39-40 | `put(k, v, ttl)`: `putMany` of the one item `{k, v, ExpiryFor(ttl, now)}` |
| CacheSpec.Truncate | src/cache/index.ts:57-59 | the batch is cut to its first `min(len, capacity)` items, unchanged |
| CacheSpec.EvictionCount | src/cache/index.ts:50-53 | the number of keys `putMany` evicts never exceeds the index length |
| CacheSpec.MakeRoom | src/cache/index.ts:50-55 | the eviction phase removes at least `min(len, max(0, len + n - capacity))` index entries and keeps the capacity |
| CacheSpec.Delete | src/cache/index.ts:65-68 | `delete` keeps the capacity and never lengthens the index |
| CacheSpec.DeleteLookup | src/cache/index.ts:65-68 | after `removeMany(ks)` no key of `ks` is indexed or stored; every other key keeps its index membership and stored item |
| CacheSpec.DeleteKeepsOrder | src/cache/index.ts:66 | the surviving index entries keep their order |
| CacheSpec.DeleteAbsent | src/cache/index.ts:65-68 | removing keys that are not stored leaves the cache unchanged |
| CacheSpec.DeleteKeepsSync | src/cache/index.ts:65-68 | deleting keeps every indexed key stored and every item filed under its key |
| CacheSpec.DeletePreservesInv | src/cache/index.ts:44 | `removeMany` keeps the cache invariant |
| CacheSpec.EvictLookup | src/cache/index.ts:52-55 | eviction removes the back `min(n, len)` entries, filters those keys out of the rest of the index and deletes them from the store; nothing else changes |
| CacheSpec.EvictAsSplit | src/cache/index.ts:53-54 | eviction is `removeLast(n)` followed by `delete` of exactly the keys it returned |
| CacheSpec.EvictKeepsSync | src/cache/index.ts:26-30 | eviction keeps every indexed key stored and every item filed under its key |
| CacheSpec.ResizeEffect | src/cache/index.ts:24-31 | `setCapacity(c)` sets the capacity; if the index is longer than `c` its back `len - c` keys leave index and store, otherwise nothing else changes; the index ends no longer than `c` |
| CacheSpec.ResizePreservesInv | src/cache/index.ts:24-31 | `setCapacity` keeps the cache invariant for any positive capacity |
| CacheSpec.Insert | src/cache/index.ts:48-63 | after `putMany` the capacity is unchanged and the index holds at most `capacity` keys |
| CacheSpec.InsertIndex | src/cache/index.ts:50-62 | the truncated batch's keys lead the index in batch order, followed by the surviving older keys with the evicted keys filtered out; membership iff in the batch or surviving |
| CacheSpec.InsertEntries | src/cache/index.ts:50-61 | a key is stored after `putMany` iff it is in the truncated batch or was stored and not evicted; a batch key holds its last batch item; other keys keep their items |
| CacheSpec.InsertDropsOverflow | src/cache/index.ts:57-61 | an item past the first `capacity`, with a key neither earlier in the kept batch nor already cached, is neither stored nor indexed |
| CacheSpec.InsertDropsRePut | src/cache/index.ts:50-62 | when a full index's oldest entry is a key re-put since (also at the front), a put of another key leaves that key neither indexed nor stored |
| CacheSpec.InsertWithinCapacity | src/cache/index.ts:61-62 | without eviction the batch keys are prepended and the items put; an already indexed key is not deduplicated, its occurrence counts add up |
| CacheSpec.InsertPreservesInv | src/cache/index.ts:48-63 | `putMany` keeps the cache invariant (index within capacity, every indexed key stored, items keyed) for any batch |
| CacheSpec.ExpiredKeysMembership | src/cache/index.ts:73-79 | the expired-key list holds exactly the requested keys that are stored and expired |
| CacheSpec.Retrieve | src/cache/index.ts:70-88 | one item per requested key; capacity and stored key set unchanged; the index never grows |
| CacheSpec.RetrieveItem | src/cache/index.ts:74-82 | the i-th result answers the i-th key: the not-found item if missing, the stored item if live, the stored item with value cleared if expired |
| CacheSpec.RetrieveState | src/cache/index.ts:76-86 | a requested, stored, expired key leaves the index but stays stored with value cleared; every other key keeps index membership and item |
| CacheSpec.RetrieveOne | src/cache/index.ts:33-36 | `get(k)` is the stored value when stored and live, the absent-marker otherwise; a read that finds nothing expired changes nothing |
| CacheSpec.RetrievePreservesInv | src/cache/index.ts:70-88 | `getMany` keeps the cache invariant |
| CacheSpec.PutThenGet | src/cache/index.ts:33-40 | with ttl at least 0, `get(k)` at the same instant right after `put(k, v, ttl)` returns `v`, and `k` stays indexed |
| CacheSpec.PutThenExpire | src/cache/index.ts:39-40 | with ttl above 0, a read up to and including `t0 + ttl` returns `v`; later it reads as absent, `k` is delisted, and its cleared item stays stored |
| CacheSpec.PutOneFifo | src/cache/index.ts:48-62 | one put of a new key into a distinct index puts it at the front and, when full, drops exactly the oldest entry |
| CacheSpec.PutOneKeepsFresh | src/cache/index.ts:48-62 | after one put of a new key the index is still distinct and the rest of the run's keys are still new |
| CacheSpec.PutEachFifo | src/cache/index.ts:48-62 | after a run of single puts of distinct new keys, the index is the newest `capacity` keys, newest first, ahead of the older keys |
| GenCache.Cache.constructor | src/cache/index.ts:12-20 | a new cache over an empty index and store, with the given capacity, satisfies the invariant |
| GenCache.Cache.GetCapacity | src/cache/index.ts:23 | returns the configured capacity |
| GenCache.Cache.SetCapacity | src/cache/index.ts:24-31 | keeps the invariant and ends in `Resize(old state, c)` |
| GenCache.Cache.Get | src/cache/index.ts:33-36 | keeps the invariant; returns the first read item's value and ends in the read's state |
| GenCache.Cache.GetMany | src/cache/index.ts:70-88 | keeps the invariant; returns the items and ends in the state `Retrieve` gives |
| GenCache.Cache.Put | src/cache/index.ts:39-40 | keeps the invariant; puts one item whose expiry is `now + ttl`, or none for ttl 0 |
| GenCache.Cache.PutMany | src/cache/index.ts:48-63 | keeps the invariant and ends in the state `Insert` gives |
| GenCache.Cache.MakeRoom | src/cache/index.ts:50-55 | the eviction phase: ends in the state `MakeRoom` gives |
| GenCache.Cache.StoreAll | src/cache/index.ts:61 | puts each item of the batch in turn: the store ends as `PutAll` of the batch |
| GenCache.Cache.Remove | src/cache/index.ts:43 | keeps the invariant and ends in `Delete(old state, [key])` |
| GenCache.Cache.RemoveMany | src/cache/index.ts:44 | keeps the invariant and ends in `Delete(old state, keys)` |
| GenCache.Cache.Delete | src/cache/index.ts:65-68 | filters the keys out of the index, deletes each from the store, and ends in `Delete(old state, keys)` |
| GenCache.BatchTruncationScenario | src/cache/index.ts:57-62 | with capacity 2, `putMany` of a, b, c keeps a and b and never stores c |
| GenCache.SetCapacityScenario | src/cache/index.ts:24-31 | with capacity 5, puts of a, b, c, then `setCapacity(1)`: a and b read as absent, c reads 3 |
| GenCache.ShrinkFacts | src/cache/index.ts:24-31 | after those three puts, shrinking to 1 leaves only c stored, with its item |
| GenCache.TtlScenario | src/cache/index.ts:76-86 | an item put at 0 with ttl 10 reads back at 0, reads as absent at 50 and is then no longer indexed |

## Left out

- src/index.ts (the `createCache` factory, its default options and its unsupported-type
  errors) is not part of this model; the cache is built directly over a fresh index and store.
- `Date.now()` is the parameter `now`. `getMany` reads it once for all keys, where the source
  reads the clock once per key.
- JavaScript aliasing is not modelled. This covers the items the store shares with callers
  and with `getMany`'s results, the live array `getKeys` returns, and the caller's batch
  array that `splice` truncates in place. The model copies values instead.
- The falsy tests (`|| null`, `value ? value.value : null`, `ttl ? … : null`) are modelled
  for the values the model has: a stored item is always truthy, and an unset ttl is ttl 0.
- FifoIndex.Index.RemoveLast: takes a natural count. A negative count, which `splice(-n, n)`
  would treat differently, never reaches it from the cache.
- GenCache.Cache.constructor: requires a positive capacity. With capacity 0 or less the
  source's `splice` and eviction arithmetic degenerate; the model does not cover them.
- GenCache.Cache.SetCapacity: requires a positive new capacity, for the same reason.
- CacheSpec.ResizeEffect: requires a positive new capacity, for the same reason; so do
  CacheSpec.ResizePreservesInv and every `Insert` lemma (through `Inv` or `capacity > 0`).
- MapStore.Store.Put: the body at src/store/map/index.ts:8-10 is `map.set(key, value)`.
  Called with one argument, as src/cache/index.ts:61 calls it, that body would file
  `undefined` under the item object itself. The model follows the call site and the store
  tests (src/store/map/test.ts:16-18) instead, filing the item under `item.key`.
- Floating-point timestamps and ttl, `NaN` and integer overflow of `now + ttl` are not
  modelled; time is an unbounded integer.
- The LRU index named by src/index/lru/test.ts (its `markGet` reorders keys) is not part of
  this model; only its FIFO scenarios, which `createFifoIndex` satisfies, are.
- src/cache/test.ts runs against a mock index and store and is not part of this model.
- Type-only files (src/*/types.ts, src/config/types.ts) carry no behaviour and are not modelled.
