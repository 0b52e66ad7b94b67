/** LRUCacheStore as an object updated in place (src/infrastructure/cache/lru_store.py), together with
    the eviction callback of its tiered subclass (src/infrastructure/cache/tiered_store.py). */
module LruStore {
  import opened Text
  import opened Entities
  import opened LruContents

  /** The list that the eviction callback appends to. */
  class DemotionQueue {
    var items: Contents

    constructor ()
      ensures items == []
    {
      items := [];
    }
  }

  /** The scan of keys(): the expired keys and the valid ones, in store order. */
  method SplitByExpiry(s: Contents, now: Time) returns (expired: seq<Key>, valid: seq<Key>)
    ensures expired == KeysOf(Filter(s, Expired(now)))
    ensures valid == KeysOf(Filter(s, Unexpired(now)))
  {
    expired, valid := [], [];
    for i := 0 to |s|
      invariant expired == KeysOf(Filter(s[..i], Expired(now)))
      invariant valid == KeysOf(Filter(s[..i], Unexpired(now)))
    {
      ScanStep(s, i, Expired(now));
      ScanStep(s, i, Unexpired(now));
      if s[i].entry.IsExpired(now) {
        expired := expired + [s[i].key];
      } else {
        valid := valid + [s[i].key];
      }
    }
    TakeAll(s);
  }

  class LRUCacheStore {
    const maxSizeBytes: int
    /** Where evicted entries go; null in the plain store, which discards them. */
    const onEvict: DemotionQueue?
    var store: Contents
    var currentSizeBytes: int
    var hits: nat
    var misses: nat
    var evictions: nat

    /** The byte counter is the sum of the sizes, and no key is stored twice. */
    ghost predicate Valid()
      reads this
    {
      Distinct(store) && currentSizeBytes == Total(store)
    }

    ghost function Queue(): set<object> { if onEvict == null then {} else {onEvict} }

    constructor (maxSizeBytes: int, onEvict: DemotionQueue?)
      ensures Valid() && store == [] && hits == misses == evictions == 0
      ensures this.maxSizeBytes == maxSizeBytes && this.onEvict == onEvict
    {
      this.maxSizeBytes := maxSizeBytes;
      this.onEvict := onEvict;
      store := [];
      currentSizeBytes, hits, misses, evictions := 0, 0, 0, 0;
    }

    method Get(key: Key, now: Time) returns (entry: Option<CacheEntry>)
      requires Valid()
      modifies this`store, this`hits, this`misses
      ensures Valid()
      ensures store == LruContents.Get(old(store), key, now)
      ensures entry == match Lookup(old(store), key) case None => None case Some(e) => Some(e.Touch(now))
      ensures entry.Some? ==> store != [] && store[|store| - 1] == Item(key, entry.value)
      ensures if entry.Some? then hits == old(hits) + 1 && misses == old(misses)
              else misses == old(misses) + 1 && hits == old(hits)
    {
      entry := Lookup(store, key);
      if entry.None? {
        misses := misses + 1;
        return;
      }
      GetTotal(store, key, now);
      StepDistinct(store, maxSizeBytes, OpGet(key, now));
      entry := Some(entry.value.Touch(now));
      store := Remove(store, key) + [Item(key, entry.value)];
      hits := hits + 1;
    }

    /** Take an entry out and correct the byte counter. */
    method RemoveEntry(key: Key)
      requires Valid() && Has(store, key)
      modifies this`store, this`currentSizeBytes
      ensures Valid() && store == Remove(old(store), key)
    {
      var entry := Lookup(store, key).value;
      RemoveTotal(store, key);
      FilterDistinct(store, NotKey(key));
      store := Remove(store, key);
      currentSizeBytes := currentSizeBytes - entry.size;
    }

    /** Evict the least recently used entry, handing it to the callback if there is one. */
    method EvictLru()
      requires Valid() && store != []
      modifies this`store, this`currentSizeBytes, this`evictions, Queue()
      ensures Valid() && store == old(store)[1..]
      ensures evictions == old(evictions) + 1
      ensures onEvict != null ==> onEvict.items == old(onEvict.items) + [old(store)[0]]
    {
      var item := store[0];
      store := store[1..];
      currentSizeBytes := currentSizeBytes - item.entry.size;
      evictions := evictions + 1;
      if onEvict != null {
        onEvict.items := onEvict.items + [item];
      }
    }

    /** The eviction loop of put: evict until there is room, or the store is empty. */
    method MakeRoom(needed: nat)
      requires Valid()
      modifies this`store, this`currentSizeBytes, this`evictions, Queue()
      ensures Valid()
      ensures store == Evict(old(store), needed, maxSizeBytes)
      ensures evictions == old(evictions) + |Evicted(old(store), needed, maxSizeBytes)|
      ensures onEvict != null ==>
        onEvict.items == old(onEvict.items) + Evicted(old(store), needed, maxSizeBytes)
    {
      ghost var out: Contents := [];
      while currentSizeBytes + needed > maxSizeBytes && store != []
        invariant Valid()
        invariant Evict(store, needed, maxSizeBytes) == Evict(old(store), needed, maxSizeBytes)
        invariant out + Evicted(store, needed, maxSizeBytes) == Evicted(old(store), needed, maxSizeBytes)
        invariant evictions == old(evictions) + |out|
        invariant onEvict != null ==> onEvict.items == old(onEvict.items) + out
        decreases |store|
      {
        ghost var first, rest := store[0], Evicted(store[1..], needed, maxSizeBytes);
        assert out + ([first] + rest) == out + [first] + rest;
        out := out + [first];
        EvictLru();
      }
      assert out + [] == out;
    }

    method Put(key: Key, entry: CacheEntry)
      requires Valid()
      modifies this`store, this`currentSizeBytes, this`evictions, Queue()
      ensures Valid()
      ensures store == LruContents.Put(old(store), maxSizeBytes, key, entry)
      ensures evictions == old(evictions) + |PushedOut(old(store), maxSizeBytes, key, entry)|
      ensures onEvict != null ==>
        onEvict.items == old(onEvict.items) + PushedOut(old(store), maxSizeBytes, key, entry)
    {
      if Has(store, key) {
        RemoveEntry(key);
      } else {
        RemoveTotal(store, key);
      }
      RemovedKey(old(store), key);
      EvictFresh(store, entry.size, maxSizeBytes, key);
      MakeRoom(entry.size);
      TotalConcat(store, [Item(key, entry)]);
      SnocDistinct(store, Item(key, entry));
      store := store + [Item(key, entry)];
      currentSizeBytes := currentSizeBytes + entry.size;
    }

    method Delete(key: Key) returns (removed: bool)
      requires Valid()
      modifies this`store, this`currentSizeBytes
      ensures Valid()
      ensures removed == Has(old(store), key)
      ensures store == Remove(old(store), key)
    {
      if !Has(store, key) {
        RemoveTotal(store, key);
        return false;
      }
      RemoveEntry(key);
      removed := true;
    }

    /** The removal loop shared by delete_by_prefix and keys. */
    method RemoveEach(keys: seq<Key>)
      requires Valid()
      requires StoredKeys(store, keys)
      modifies this`store, this`currentSizeBytes
      ensures Valid()
      ensures store == Filter(old(store), NotAmong(keys))
    {
      FilterAll(store, NotAmong(keys[..0]));
      for i := 0 to |keys|
        invariant Valid()
        invariant store == Filter(old(store), NotAmong(keys[..i]))
      {
        HasAfterFilter(old(store), keys[i], NotAmong(keys[..i]));
        RemoveEntry(keys[i]);
        FilterTwice(old(store), NotAmong(keys[..i]), NotKey(keys[i]), NotAmong(keys[..i + 1]));
      }
      TakeAll(keys);
    }

    method DeleteByPrefix(prefix: string) returns (count: nat)
      requires Valid()
      modifies this`store, this`currentSizeBytes
      ensures Valid()
      ensures store == DeletePrefix(old(store), prefix)
      ensures count == |Filter(old(store), HasPrefix(prefix))|
      ensures count + |store| == |old(store)|
    {
      var keysToDelete := KeysOf(Filter(store, HasPrefix(prefix)));
      FilteredKeys(store, HasPrefix(prefix));
      RemoveEach(keysToDelete);
      AmongFiltered(old(store), HasPrefix(prefix), NotPrefix(prefix));
      FilterSplit(old(store), HasPrefix(prefix), NotPrefix(prefix));
      count := |keysToDelete|;
    }

    method Keys(now: Time) returns (valid: seq<Key>)
      requires Valid()
      modifies this`store, this`currentSizeBytes
      ensures Valid()
      ensures store == Prune(old(store), now)
      ensures valid == KeysOf(store)
    {
      var expired;
      expired, valid := SplitByExpiry(store, now);
      FilteredKeys(store, Expired(now));
      RemoveEach(expired);
      AmongFiltered(old(store), Expired(now), Unexpired(now));
    }
  }
}
