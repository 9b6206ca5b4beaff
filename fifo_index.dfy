/** The FIFO eviction index: an ordered list of keys, newest at the front,
    most evictable at the back. Duplicate entries are allowed. */
module FifoIndex {

  /** The entries of `s` that are not listed in `ks`, in their original order
      (`index.filter(key => !ks.includes(key))`). */
  function Without<K(==)>(s: seq<K>, ks: seq<K>): (r: seq<K>)
    ensures |r| <= |s|
  {
    if s == [] then [] else (if s[0] in ks then [] else [s[0]]) + Without(s[1..], ks)
  }

  /** A key survives the filter exactly when it was there and was not asked for. */
  lemma {:induction false} WithoutMembership<K>(s: seq<K>, ks: seq<K>, x: K)
    ensures x in Without(s, ks) <==> x in s && x !in ks
  {
    if s != [] {
      WithoutMembership(s[1..], ks, x);
      assert x in s <==> x == s[0] || x in s[1..];
    }
  }

  /** Filtering is done entry by entry: it distributes over concatenation, so the
      survivors keep their relative order. */
  lemma {:induction false} WithoutAppend<K>(a: seq<K>, b: seq<K>, ks: seq<K>)
    ensures Without(a + b, ks) == Without(a, ks) + Without(b, ks)
  {
    if a == [] {
      assert a + b == b;
    } else {
      var head := if a[0] in ks then [] else [a[0]];
      assert (a + b)[0] == a[0] && (a + b)[1..] == a[1..] + b;
      assert Without(a + b, ks) == head + Without(a[1..] + b, ks);
      WithoutAppend(a[1..], b, ks);
    }
  }

  /** Removing keys none of which is present is a no-op. */
  lemma {:induction false} WithoutAbsent<K>(s: seq<K>, ks: seq<K>)
    requires forall i :: 0 <= i < |s| ==> s[i] !in ks
    ensures Without(s, ks) == s
  {
    if s != [] {
      WithoutAbsent(s[1..], ks);
      assert [s[0]] + s[1..] == s;
    }
  }

  /** Exactly the entries not in `ks` are kept, each as often as it occurred. */
  lemma {:induction false} WithoutCount<K>(s: seq<K>, ks: seq<K>, x: K)
    ensures multiset(Without(s, ks))[x] == if x in ks then 0 else multiset(s)[x]
  {
    if s != [] {
      WithoutCount(s[1..], ks, x);
      var head := if s[0] in ks then [] else [s[0]];
      assert Without(s, ks) == head + Without(s[1..], ks);
      assert s == [s[0]] + s[1..];
      assert multiset(s) == multiset([s[0]]) + multiset(s[1..]);
    }
  }

  /** The index object built by `createFifoIndex`: the closure-held array is `keys`. */
  class Index<K(==)> {
    var keys: seq<K>

    constructor ()
      ensures keys == []
    {
      keys := [];
    }

    /** `getKeys`: the keys in eviction order, newest first. */
    method GetKeys() returns (r: seq<K>)
      ensures r == keys
    {
      r := keys;
    }

    /** `getLength`: the number of entries `getKeys` lists. */
    method GetLength() returns (n: nat)
      ensures n == |keys|
    {
      n := |keys|;
    }

    /** `markGet`: reads never reorder a FIFO index. */
    method MarkGet(ks: seq<K>)
      ensures keys == old(keys)
    {
    }

    /** `addKeys` (`unshift(...ks)`): the batch goes to the front in batch order. */
    method AddKeys(ks: seq<K>)
      modifies this
      ensures keys == ks + old(keys)
      ensures |keys| == |ks| + |old(keys)|
    {
      keys := ks + keys;
    }

    /** `removeKeys`: keep exactly the entries not listed in `ks`, in order. */
    method RemoveKeys(ks: seq<K>)
      modifies this
      ensures keys == Without(old(keys), ks)
      ensures forall x :: x in keys <==> x in old(keys) && x !in ks
    {
      forall x {
        WithoutMembership(keys, ks, x);
      }
      keys := Without(keys, ks);
    }

    /** `removeLast` (`splice(-n, n)`): cut the last `min(n, |keys|)` entries off the
        back and return them in index order; `n == 0` removes nothing. */
    method RemoveLast(n: nat) returns (removed: seq<K>)
      modifies this
      ensures |removed| == if n < |old(keys)| then n else |old(keys)|
      ensures keys + removed == old(keys)
    {
      // splice(-0, 0) starts at 0 and deletes nothing; otherwise the start is
      // clamped at 0, so at most every entry goes
      var start := if n == 0 then |keys| else if n < |keys| then |keys| - n else 0;
      removed := keys[start..];
      keys := keys[..start];
    }
  }

  /** The index's `getKeys` and `addKeys` scenarios: a fresh index is empty, and each
      batch goes to the front in batch order. */
  method AddKeysScenario() returns (initial: seq<string>, added: seq<string>)
    ensures initial == []
    ensures added == ["key3", "key4", "key1", "key2"]
  {
    var index := new Index<string>();
    initial := index.GetKeys();
    index.AddKeys(["key1", "key2"]);
    index.AddKeys(["key3", "key4"]);
    added := index.GetKeys();
  }

  /** The index's `removeKeys` scenario: on `key1 .. key4`, removing `key2` and `key4`
      leaves `key1, key3` in place. */
  method RemoveKeysScenario() returns (filtered: seq<string>)
    ensures filtered == ["key1", "key3"]
  {
    var four := ["key1", "key2", "key3", "key4"];
    var ks := ["key2", "key4"];
    assert "key1" !in ks && "key3" !in ks;
    assert Without(four[3..], ks) == [];
    assert Without(four[2..], ks) == ["key3"];
    assert Without(four[1..], ks) == ["key3"];
    assert Without(four, ks) == ["key1", "key3"];
    var index := new Index<string>();
    index.AddKeys(four);
    assert index.keys == four + [] == four;
    index.RemoveKeys(ks);
    filtered := index.GetKeys();
  }

  /** The index's `removeLast` scenarios: on `key1 .. key4`, `removeLast(2)` returns the back
      two and keeps the front two; `removeLast(0)` returns nothing and keeps all four. */
  method RemoveLastScenario() returns (last: seq<string>, kept: seq<string>, none: seq<string>, all: seq<string>)
    ensures last == ["key3", "key4"] && kept == ["key1", "key2"]
    ensures none == [] && all == ["key1", "key2", "key3", "key4"]
  {
    var four := ["key1", "key2", "key3", "key4"];
    var trimming := new Index<string>();
    trimming.AddKeys(four);
    assert trimming.keys == four + [] == four;
    last := trimming.RemoveLast(2);
    assert trimming.keys == four[..2] && last == four[2..];
    kept := trimming.GetKeys();

    var untouched := new Index<string>();
    untouched.AddKeys(four);
    assert untouched.keys == four + [] == four;
    none := untouched.RemoveLast(0);
    assert untouched.keys + none == four && none == [];
    all := untouched.GetKeys();
  }
}
