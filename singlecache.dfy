/** A single-entry memo: it remembers the last key asked for and the value
    computed for it. */
module SingleCaches {
  import opened Options

  class SingleCache<K(==), V> {
    /** The one remembered pair, if any. */
    var cachePair: Option<(K, V)>
    /** How many times the value-producing function has been called. */
    ghost var calls: nat

    /** `SingleCache::new`: an empty cache. */
    constructor ()
      ensures cachePair == None
      ensures calls == 0
    {
      cachePair := None;
      calls := 0;
    }

    /** The cache remembers a pair whose key is `key`. */
    predicate Holds(key: K)
      reads this
    {
      cachePair.Some? && cachePair.value.0 == key
    }

    /** `get_or_set`: on a hit returns the remembered value without calling
        `func` and leaves the cache as it is; on a miss (empty cache or a
        different key) calls `func` once, remembers its result under `key`
        and returns it. Either way the cache then holds `key` paired with
        the returned value. */
    method GetOrSet(key: K, func: () -> V) returns (value: V)
      modifies this
      ensures old(Holds(key)) ==> value == old(cachePair).value.1 && calls == old(calls)
      ensures !old(Holds(key)) ==> value == func() && calls == old(calls) + 1
      ensures cachePair == Some((key, value))
    {
      if cachePair.Some? {
        var oldPair := cachePair.value;
        if key == oldPair.0 {
          return oldPair.1;
        }
      }
      value := func();
      calls := calls + 1;
      cachePair := Some((key, value));
    }
  }

  /** Two consecutive requests for the same key give the same value, and
      the second one is a hit that does not call `func`: together they call
      it once if the key was not held before, and not at all if it was. */
  method AskTwice<K(==), V>(cache: SingleCache<K, V>, key: K, func: () -> V) returns (first: V, second: V)
    modifies cache
    ensures first == second
    ensures cache.calls == old(cache.calls) + (if old(cache.Holds(key)) then 0 else 1)
    ensures cache.cachePair == Some((key, first))
  {
    first := cache.GetOrSet(key, func);
    var before := cache.calls;
    second := cache.GetOrSet(key, func);
    assert cache.calls == before;
  }

  /** The cache has room for one pair only: asking a fresh cache for k1,
      then k2, then k1 again with k1 != k2 misses every time, so `func`
      is called three times. */
  method AlternatingKeys<K(==), V>(k1: K, k2: K, func: () -> V) returns (cache: SingleCache<K, V>)
    requires k1 != k2
    ensures fresh(cache)
    ensures cache.calls == 3
    ensures cache.cachePair == Some((k1, func()))
  {
    cache := new SingleCache();
    var v1 := cache.GetOrSet(k1, func);
    var v2 := cache.GetOrSet(k2, func);
    var v3 := cache.GetOrSet(k1, func);
  }
}
