/** TieredCacheStore as an object updated in place (src/infrastructure/cache/tiered_store.py). */
module TieredStore {
  import opened Text
  import opened Entities
  import opened LruContents
  import opened LruStore
  import opened TieredContents

  class TieredCacheStore {
    /** Names the directory of a key; the constructor sets it to UrlSafeKey. */
    const keyDir: Key -> string
    const hot: LRUCacheStore
    /** Filled by the hot store's eviction callback. */
    const pending: DemotionQueue
    var cold: Cold
    var hotHits: nat
    var hotMisses: nat
    var coldHits: nat
    var coldMisses: nat
    var promotions: nat
    var demotions: nat

    ghost const Repr: set<object> := {this, hot, pending}

    /** Between operations the demotion queue is empty. */
    ghost predicate Valid()
      reads Repr
    {
      hot.Valid() && hot.onEvict == pending && pending.items == []
    }

    ghost function Abs(): Tiers
      reads Repr
    {
      Tiers(hot.store, cold, hot.evictions,
            Counters(hotHits, hotMisses, coldHits, coldMisses, promotions, demotions))
    }

    ghost function Capacity(): int { hot.maxSizeBytes }

    constructor (hotMaxSizeBytes: int)
      ensures Valid() && fresh(Repr) && Abs() == EMPTY && Capacity() == hotMaxSizeBytes && keyDir == UrlSafeKey
    {
      keyDir := UrlSafeKey;
      var queue := new DemotionQueue();
      pending := queue;
      hot := new LRUCacheStore(hotMaxSizeBytes, queue);
      cold := map[];
      hotHits, hotMisses, coldHits, coldMisses, promotions, demotions := 0, 0, 0, 0, 0, 0;
    }

    /** Write all pending demotions to the cold tier. */
    method FlushDemotions()
      modifies this`cold, this`demotions, pending
      ensures pending.items == []
      ensures cold == WriteAll(old(cold), keyDir, old(pending.items))
      ensures demotions == old(demotions) + |old(pending.items)|
    {
      var items := pending.items;
      pending.items := [];
      for i := 0 to |items|
        invariant pending.items == []
        invariant cold == WriteAll(old(cold), keyDir, items[..i])
        invariant demotions == old(demotions) + i
      {
        assert items[..i + 1][..i] == items[..i];
        cold := cold[keyDir(items[i].key) := ToFile(items[i].key, items[i].entry)];
        demotions := demotions + 1;
      }
      TakeAll(items);
    }

    /** Put into the hot tier, then flush any demotions that triggered. */
    method PutHot(key: Key, entry: CacheEntry)
      requires Valid()
      modifies Repr
      ensures Valid()
      ensures Abs() == HotPut(old(Abs()), keyDir, Capacity(), key, entry)
    {
      hot.Put(key, entry);
      assert pending.items == PushedOut(old(hot.store), hot.maxSizeBytes, key, entry);
      FlushDemotions();
    }

    method ColdDelete(key: Key) returns (removed: bool)
      modifies this`cold
      ensures removed == (keyDir(key) in old(cold))
      ensures cold == old(cold) - {keyDir(key)}
    {
      removed := keyDir(key) in cold;
      cold := cold - {keyDir(key)};
    }

    method Get(key: Key, now: Time) returns (entry: Option<CacheEntry>)
      requires Valid()
      modifies Repr
      ensures Valid()
      ensures (Abs(), entry) == TierGet(old(Abs()), keyDir, Capacity(), key, now)
    {
      hide Filter, Evict, Evicted, WriteAll, HotPut, Distinct, Total;
      entry := hot.Get(key, now);
      if entry.Some? {
        hotHits := hotHits + 1;
        return;
      }
      hotMisses := hotMisses + 1;
      if keyDir(key) !in cold {
        coldMisses := coldMisses + 1;
        return;
      }
      var found := FromFile(cold[keyDir(key)]);
      if found.IsExpired(now) {
        var _ := ColdDelete(key);
        coldMisses := coldMisses + 1;
        return;
      }
      coldHits := coldHits + 1;
      promotions := promotions + 1;
      var _ := ColdDelete(key);
      entry := Some(found.Touch(now));
      PutHot(key, entry.value);
    }

    method Put(key: Key, entry: CacheEntry)
      requires Valid()
      modifies Repr
      ensures Valid()
      ensures Abs() == TierPut(old(Abs()), keyDir, Capacity(), key, entry)
    {
      var _ := ColdDelete(key);
      PutHot(key, entry);
    }

    method Delete(key: Key) returns (removed: bool)
      requires Valid()
      modifies Repr
      ensures Valid()
      ensures (Abs(), removed) == TierDelete(old(Abs()), keyDir, key)
    {
      var hotRemoved := hot.Delete(key);
      var coldRemoved := ColdDelete(key);
      removed := hotRemoved || coldRemoved;
    }

    /** The directory scan: count and remove the directories whose recorded key has the prefix. */
    method ColdDeleteByPrefix(prefix: string) returns (count: nat)
      modifies this`cold
      ensures cold == old(cold) - ColdMatches(old(cold), prefix)
      ensures count == |ColdMatches(old(cold), prefix)|
    {
      count := 0;
      var todo := cold.Keys;
      ghost var all := ColdMatches(cold, prefix);
      assert all - todo == {};
      while todo != {}
        invariant todo <= old(cold).Keys
        invariant cold == old(cold) - (all - todo)
        invariant count == |all - todo|
        decreases todo
      {
        var d :| d in todo;
        ScanOne(old(cold), all, todo, d);
        todo := todo - {d};
        if prefix <= cold[d].key {
          cold := cold - {d};
          count := count + 1;
        }
      }
      assert all - todo == all;
    }

    method DeleteByPrefix(prefix: string) returns (count: nat)
      requires Valid()
      modifies Repr
      ensures Valid()
      ensures (Abs(), count) == TierDeletePrefix(old(Abs()), prefix)
    {
      count := hot.DeleteByPrefix(prefix);
      var more := ColdDeleteByPrefix(prefix);
      count := count + more;
    }

    /** The directory scan of keys(): list what is valid, then prune what has expired. */
    method ColdListKeys(now: Time) returns (keys: set<Key>)
      modifies this`cold
      ensures cold == old(cold) - ColdExpired(old(cold), now)
      ensures keys == ColdKeys(cold)
    {
      keys := {};
      var todo := cold.Keys;
      var expired: set<string> := {};
      while todo != {}
        invariant todo <= cold.Keys && cold == old(cold)
        invariant expired == ColdExpired(cold, now) - todo
        invariant keys == set d | d in cold && d !in todo && d !in expired :: cold[d].key
        decreases todo
      {
        var d :| d in todo;
        todo := todo - {d};
        if cold[d].IsExpired(now) {
          expired := expired + {d};
        } else {
          keys := keys + {cold[d].key};
        }
      }
      SurvivorKeys(cold, expired);
      cold := cold - expired;
    }

    method Keys(now: Time) returns (keys: set<Key>)
      requires Valid()
      modifies Repr
      ensures Valid()
      ensures (Abs(), keys) == TierKeys(old(Abs()), now)
    {
      var hotKeys := hot.Keys(now);
      var coldKeys := ColdListKeys(now);
      KeysOfIsHotKeys(hot.store);
      keys := (set k | k in hotKeys) + coldKeys;
    }
  }

  /** One step of a scan that removes the directories in all, with todo still to visit. */
  lemma ScanOne(cold: Cold, all: set<string>, todo: set<string>, d: string)
    requires d in todo
    ensures d in all ==> |all - (todo - {d})| == |all - todo| + 1
    ensures d in all ==> cold - (all - todo) - {d} == cold - (all - (todo - {d}))
    ensures d !in all ==> all - (todo - {d}) == all - todo
  {
    if d in all {
      assert all - (todo - {d}) == (all - todo) + {d};
    }
  }

  lemma SurvivorKeys(cold: Cold, gone: set<string>)
    ensures ColdKeys(cold - gone) == set d | d in cold && d !in gone :: cold[d].key
  {
    var kept := set d | d in cold && d !in gone :: cold[d].key;
    forall k | k in kept ensures k in ColdKeys(cold - gone) {
      var d :| d in cold && d !in gone && cold[d].key == k;
      assert d in cold - gone;
    }
    forall k | k in ColdKeys(cold - gone) ensures k in kept {
      var d :| d in cold - gone && (cold - gone)[d].key == k;
    }
  }

  lemma KeysOfIsHotKeys(s: Contents)
    ensures (set k | k in KeysOf(s)) == HotKeys(s)
  {
    var listed := set k | k in KeysOf(s);
    forall k | k in listed ensures k in HotKeys(s) {
      var i :| 0 <= i < |s| && KeysOf(s)[i] == k;
      assert s[i] in s;
    }
    forall k | k in HotKeys(s) ensures k in listed {
      var it :| it in s && it.key == k;
      var i :| 0 <= i < |s| && s[i] == it;
      assert KeysOf(s)[i] in KeysOf(s);
    }
    assert listed == HotKeys(s);
  }
}
