/** The hot/cold store refines an unbounded map, exactly when the keys in use have distinct directories. */
module TieredRefinement {
  import opened Text
  import opened Entities
  import opened LruContents
  import opened TieredContents

  // ---------- writing demotions ----------

  /** w is cold with exactly these items written to the directories of their keys. */
  ghost predicate Written(cold: Cold, dir: Key -> string, items: Contents, w: Cold) {
    && (forall it :: it in items ==> dir(it.key) in w && w[dir(it.key)] == ToFile(it.key, it.entry))
    && (forall d :: d in w ==> (d in cold && w[d] == cold[d]) || WrittenAt(dir, items, d, w[d]))
    && (forall d :: d in cold && (forall it :: it in items ==> dir(it.key) != d) ==> d in w && w[d] == cold[d])
  }

  ghost predicate WrittenAt(dir: Key -> string, items: Contents, d: string, f: ColdFile) {
    exists it :: it in items && dir(it.key) == d && f == ToFile(it.key, it.entry)
  }

  lemma {:induction false} WriteAllWrites(cold: Cold, dir: Key -> string, items: Contents, keys: set<Key>)
    requires Distinct(items) && InjectiveOn(dir, keys)
    requires forall it :: it in items ==> it.key in keys
    ensures Written(cold, dir, items, WriteAll(cold, dir, items))
  {
    if items != [] {
      var init, last := items[..|items| - 1], items[|items| - 1];
      assert items == init + [last];
      WriteAllWrites(cold, dir, init, keys);
      var v, w := WriteAll(cold, dir, init), WriteAll(cold, dir, items);
      forall it | it in items
        ensures dir(it.key) in w && w[dir(it.key)] == ToFile(it.key, it.entry)
      {
        if it != last {
          var i :| 0 <= i < |init| && init[i] == it;
          assert items[i].key != items[|items| - 1].key;
        }
      }
      forall d | d in w
        ensures (d in cold && w[d] == cold[d]) || WrittenAt(dir, items, d, w[d])
      {
        if d == dir(last.key) {
          assert last in items;
        } else if WrittenAt(dir, init, d, v[d]) {
          var it :| it in init && dir(it.key) == d && v[d] == ToFile(it.key, it.entry);
          assert it in items;
        }
      }
      assert last in items;
      assert forall it :: it in init ==> it in items;
    }
  }

  // ---------- putting into the hot tier ----------

  lemma HasMember(s: Contents, it: Item)
    requires it in s
    ensures Has(s, it.key)
  {
  }

  lemma MemberOf(s: Contents, k: Key) returns (it: Item)
    requires Has(s, k)
    ensures it in s && it.key == k
  {
    var i :| 0 <= i < |s| && s[i].key == k;
    it := s[i];
  }

  /** hot after a put of k is kept with k at the end; out was pushed out; together they are the others. */
  ghost predicate Partition(hot: Contents, k: Key, kept: Contents, out: Contents) {
    && Distinct(out)
    && (forall it :: it in kept || it in out <==> it in hot && it.key != k)
    && forall x, y :: x in kept && y in out ==> x.key != y.key
  }

  lemma PutPartition(s: Contents, cap: int, k: Key, e: CacheEntry) returns (kept: Contents)
    requires Distinct(s)
    ensures LruContents.Put(s, cap, k, e) == kept + [Item(k, e)]
    ensures Distinct(kept + [Item(k, e)])
    ensures Partition(s, k, kept, PushedOut(s, cap, k, e))
  {
    PutSurvivors(s, cap, k, e);
    var out := PushedOut(s, cap, k, e);
    kept :| LruContents.Put(s, cap, k, e) == kept + [Item(k, e)] && Remove(s, k) == out + kept;
    var others := Remove(s, k);
    StepDistinct(s, cap, OpPut(k, e));
    FilterDistinct(s, NotKey(k));
    SplitDistinct(out, kept);
    assert forall it :: it in others <==> it in out || it in kept;
  }

  lemma SplitDistinct(a: Contents, b: Contents)
    requires Distinct(a + b)
    ensures Distinct(a)
    ensures forall x, y :: x in b && y in a ==> x.key != y.key
  {
    var both := a + b;
    forall i, j | 0 <= i < j < |a| ensures a[i].key != a[j].key {
      assert both[i] == a[i] && both[j] == a[j];
    }
    forall x, y | x in b && y in a ensures x.key != y.key {
      var i :| 0 <= i < |b| && b[i] == x;
      var j :| 0 <= j < |a| && a[j] == y;
      assert both[j] == y && both[|a| + i] == x;
    }
  }

  /** The hot tier is in the ideal map, except for k. */
  ghost predicate HotInBut(hot: Contents, cold: Cold, dir: Key -> string, m: Ideal, k: Key) {
    && Distinct(hot)
    && forall it :: it in hot && it.key != k ==> ItemIn(it, m) && dir(it.key) !in cold
  }

  lemma HotAfterPut(hot: Contents, cold: Cold, dir: Key -> string, keys: set<Key>, m: Ideal,
                    k: Key, e: CacheEntry, kept: Contents, out: Contents, w: Cold)
    requires InjectiveOn(dir, keys) && m.Keys <= keys
    requires HotInBut(hot, cold, dir, m, k) && ItemIn(Item(k, e), m) && dir(k) !in cold
    requires Partition(hot, k, kept, out) && Distinct(kept + [Item(k, e)]) && Written(cold, dir, out, w)
    ensures HotIn(kept + [Item(k, e)], w, dir, m)
  {
    forall it | it in kept + [Item(k, e)]
      ensures ItemIn(it, m) && dir(it.key) !in w
    {
      assert it.key in keys && it.key in m;
      forall o | o in out ensures dir(o.key) != dir(it.key) {
        assert ItemIn(o, m);
      }
    }
  }

  lemma ColdAfterPut(hot: Contents, cold: Cold, dir: Key -> string, m: Ideal,
                     k: Key, kept: Contents, out: Contents, w: Cold)
    requires HotInBut(hot, cold, dir, m, k) && ColdIn(cold, dir, m)
    requires Partition(hot, k, kept, out) && Written(cold, dir, out, w)
    ensures ColdIn(w, dir, m)
  {
    forall d | d in w ensures FileIn(w[d], m) && dir(w[d].key) == d {
      if !(d in cold && w[d] == cold[d]) {
        var it :| it in out && dir(it.key) == d && w[d] == ToFile(it.key, it.entry);
        assert ItemIn(it, m);
      }
    }
  }

  lemma CoveredAfterPut(hot: Contents, cold: Cold, dir: Key -> string, keys: set<Key>, m: Ideal, now: Time,
                        k: Key, e: CacheEntry, kept: Contents, out: Contents, w: Cold)
    requires HotInBut(hot, cold, dir, m, k)
    requires forall o :: o in m && o != k && !m[o].IsExpired(now) ==> Has(hot, o) || InCold(cold, dir, o)
    requires Partition(hot, k, kept, out) && Written(cold, dir, out, w)
    ensures Covered(kept + [Item(k, e)], w, dir, m, now)
  {
    var after := kept + [Item(k, e)];
    forall o | o in m && !m[o].IsExpired(now)
      ensures Has(after, o) || InCold(w, dir, o)
    {
      if o == k {
        HasMember(after, Item(k, e));
      } else if Has(hot, o) {
        var it := MemberOf(hot, o);
        if it in kept {
          assert it in after;
          HasMember(after, it);
        } else {
          assert it in out;
        }
      } else {
        assert forall it :: it in out ==> dir(it.key) != dir(o);
      }
    }
  }

  lemma HotPutRefines(t: Tiers, dir: Key -> string, cap: int, keys: set<Key>, m: Ideal, now: Time,
                      k: Key, e: CacheEntry)
    requires InjectiveOn(dir, keys) && m.Keys <= keys
    requires HotInBut(t.hot, t.cold, dir, m, k) && ItemIn(Item(k, e), m) && dir(k) !in t.cold
    requires ColdIn(t.cold, dir, m) && Balanced(t)
    requires forall o :: o in m && o != k && !m[o].IsExpired(now) ==> Has(t.hot, o) || InCold(t.cold, dir, o)
    ensures Refines(HotPut(t, dir, cap, k, e), dir, keys, m, now)
  {
    var kept := PutPartition(t.hot, cap, k, e);
    var out := PushedOut(t.hot, cap, k, e);
    var w := WriteAll(t.cold, dir, out);
    WriteAllWrites(t.cold, dir, out, keys);
    HotAfterPut(t.hot, t.cold, dir, keys, m, k, e, kept, out, w);
    ColdAfterPut(t.hot, t.cold, dir, m, k, kept, out, w);
    CoveredAfterPut(t.hot, t.cold, dir, keys, m, now, k, e, kept, out, w);
  }

  // ---------- one step ----------

  lemma LaterCovered(hot: Contents, cold: Cold, dir: Key -> string, m: Ideal, now: Time, later: Time)
    requires Covered(hot, cold, dir, m, now) && now <= later
    ensures Covered(hot, cold, dir, m, later)
  {
    forall k | k in m && !m[k].IsExpired(later) ensures !m[k].IsExpired(now) {
    }
  }

  lemma ColdFewer(cold: Cold, dir: Key -> string, m: Ideal, gone: set<string>, n: Ideal)
    requires ColdIn(cold, dir, m)
    requires forall d :: d in cold && d !in gone ==> cold[d].key in n && m[cold[d].key] == n[cold[d].key]
    ensures ColdIn(cold - gone, dir, n)
  {
    forall d | d in cold - gone ensures FileIn((cold - gone)[d], n) && dir((cold - gone)[d].key) == d {
      assert FileIn(cold[d], m);
    }
  }

  lemma PutRefines(t: Tiers, dir: Key -> string, cap: int, keys: set<Key>, m: Ideal, now: Time,
                   k: Key, e: CacheEntry)
    requires InjectiveOn(dir, keys) && Refines(t, dir, keys, m, now) && k in keys
    ensures Refines(TierPut(t, dir, cap, k, e), dir, keys, m[k := e], now)
  {
    var u := t.(cold := t.cold - {dir(k)});
    assert e == e.Touch(e.lastAccessed);
    forall d | d in t.cold && d !in {dir(k)} ensures t.cold[d].key != k && t.cold[d].key in m {
      assert FileIn(t.cold[d], m);
    }
    ColdFewer(t.cold, dir, m, {dir(k)}, m[k := e]);
    HotPutRefines(u, dir, cap, keys, m[k := e], now, k, e);
  }

  /** The entry a client gets, against the ideal map. */
  ghost predicate GetAllowed(m: Ideal, k: Key, now: Time, entry: Option<CacheEntry>) {
    && (k in m && !m[k].IsExpired(now) ==> entry.Some?)
    && (entry.Some? ==> k in m && Agrees(entry.value, m[k]) && entry.value.lastAccessed == now)
  }

  lemma HotGetRefines(hot: Contents, cold: Cold, dir: Key -> string, m: Ideal, now: Time, k: Key, e: CacheEntry)
    requires HotIn(hot, cold, dir, m) && Covered(hot, cold, dir, m, now) && Lookup(hot, k) == Some(e)
    ensures GetAllowed(m, k, now, Some(e.Touch(now)))
    ensures HotIn(LruContents.Get(hot, k, now), cold, dir, m)
    ensures Covered(LruContents.Get(hot, k, now), cold, dir, m, now)
  {
    var after, it := LruContents.Get(hot, k, now), Item(k, e.Touch(now));
    StepDistinct(hot, 0, OpGet(k, now));
    assert ItemIn(Item(k, e), m);
    assert ItemIn(it, m);
    assert after == Remove(hot, k) + [it];
    assert forall x :: x in after <==> x in Remove(hot, k) || x == it;
    forall o | Has(hot, o) ensures Has(after, o) {
      var x := MemberOf(hot, o);
      HasMember(after, if o == k then it else x);
    }
  }

  lemma ColdGetRefines(t: Tiers, dir: Key -> string, cap: int, keys: set<Key>, m: Ideal, now: Time, k: Key,
                       c: Counters)
    requires InjectiveOn(dir, keys) && Refines(t, dir, keys, m, now) && k in keys
    requires !Has(t.hot, k) && dir(k) in t.cold && Balanced(t.(counters := c))
    ensures var e := FromFile(t.cold[dir(k)]);
      var u := Tiers(t.hot, t.cold - {dir(k)}, t.evictions, c);
      && (e.IsExpired(now) ==> GetAllowed(m, k, now, None) && Refines(u, dir, keys, m, now))
      && (!e.IsExpired(now) ==>
            GetAllowed(m, k, now, Some(e.Touch(now)))
            && Refines(HotPut(u, dir, cap, k, e.Touch(now)), dir, keys, m, now))
  {
    assert FileIn(t.cold[dir(k)], m);
    assert t.cold[dir(k)].key == k;
    var e := FromFile(t.cold[dir(k)]);
    var u := Tiers(t.hot, t.cold - {dir(k)}, t.evictions, c);
    forall d | d in t.cold ensures FileIn(t.cold[d], m) {
    }
    ColdFewer(t.cold, dir, m, {dir(k)}, m);
    forall o | o in m && o != k && !m[o].IsExpired(now) ensures Has(u.hot, o) || InCold(u.cold, dir, o) {
      assert dir(o) != dir(k);
    }
    if !e.IsExpired(now) {
      assert ItemIn(Item(k, e.Touch(now)), m);
      HotPutRefines(u, dir, cap, keys, m, now, k, e.Touch(now));
    }
  }

  lemma GetRefines(t: Tiers, dir: Key -> string, cap: int, keys: set<Key>, m: Ideal, now: Time, k: Key)
    requires InjectiveOn(dir, keys) && Refines(t, dir, keys, m, now) && k in keys
    ensures var (u, entry) := TierGet(t, dir, cap, k, now);
      GetAllowed(m, k, now, entry) && Refines(u, dir, keys, m, now)
  {
    var c := t.counters;
    if Lookup(t.hot, k).Some? {
      HotGetRefines(t.hot, t.cold, dir, m, now, k, Lookup(t.hot, k).value);
    } else if dir(k) in t.cold {
      var missed := c.(hotMisses := c.hotMisses + 1);
      if FromFile(t.cold[dir(k)]).IsExpired(now) {
        ColdGetRefines(t, dir, cap, keys, m, now, k, missed.(coldMisses := c.coldMisses + 1));
      } else {
        ColdGetRefines(t, dir, cap, keys, m, now, k,
                       missed.(coldHits := c.coldHits + 1, promotions := c.promotions + 1));
      }
    } else {
      assert !Has(t.hot, k) && !InCold(t.cold, dir, k);
    }
  }

  lemma FilterCovers(hot: Contents, keep: Item -> bool, k: Key)
    requires Has(hot, k) && forall it :: it in hot && it.key == k ==> keep(it)
    ensures Has(Filter(hot, keep), k)
  {
    var it := MemberOf(hot, k);
    HasMember(Filter(hot, keep), it);
  }

  lemma DeleteRefines(t: Tiers, dir: Key -> string, keys: set<Key>, m: Ideal, now: Time, k: Key)
    requires InjectiveOn(dir, keys) && Refines(t, dir, keys, m, now) && k in keys
    ensures Refines(TierDelete(t, dir, k).0, dir, keys, m - {k}, now)
    ensures k in m && !m[k].IsExpired(now) ==> TierDelete(t, dir, k).1
    ensures TierDelete(t, dir, k).1 ==> k in m
  {
    var u := TierDelete(t, dir, k).0;
    FilterDistinct(t.hot, NotKey(k));
    forall d | d in t.cold ensures FileIn(t.cold[d], m) {
    }
    ColdFewer(t.cold, dir, m, {dir(k)}, m - {k});
    forall o | o in m - {k} && !m[o].IsExpired(now) ensures Has(u.hot, o) || InCold(u.cold, dir, o) {
      if Has(t.hot, o) {
        FilterCovers(t.hot, NotKey(k), o);
      }
    }
    if Has(t.hot, k) {
      var it := MemberOf(t.hot, k);
    }
  }

  // ---------- counting and listing ----------

  lemma {:induction false} HotKeysCard(s: Contents)
    requires Distinct(s)
    ensures |HotKeys(s)| == |s|
  {
    if s != [] {
      HotKeysCard(s[1..]);
      assert s == [s[0]] + s[1..];
      assert HotKeys(s) == {s[0].key} + HotKeys(s[1..]);
      forall it | it in s[1..] ensures it.key != s[0].key {
        var i :| 0 <= i < |s[1..]| && s[1..][i] == it;
        assert s[i + 1] == it;
      }
    }
  }

  ghost function KeysAt(cold: Cold, ds: set<string>): set<Key>
    requires ds <= cold.Keys
  {
    set d | d in ds :: cold[d].key
  }

  lemma {:induction false} KeysAtCard(cold: Cold, dir: Key -> string, ds: set<string>)
    requires ds <= cold.Keys && forall d :: d in cold ==> dir(cold[d].key) == d
    ensures |KeysAt(cold, ds)| == |ds|
  {
    if ds != {} {
      var d :| d in ds;
      KeysAtCard(cold, dir, ds - {d});
      assert KeysAt(cold, ds) == KeysAt(cold, ds - {d}) + {cold[d].key};
      assert cold[d].key !in KeysAt(cold, ds - {d});
    }
  }

  /** The keys held in either tier. */
  ghost function Resident(t: Tiers): set<Key> { HotKeys(t.hot) + ColdKeys(t.cold) }

  lemma SubsetCard<T>(a: set<T>, b: set<T>)
    requires a <= b
    ensures |a| <= |b|
  {
    if a != {} {
      var x :| x in a;
      SubsetCard(a - {x}, b - {x});
    }
  }

  lemma ResidentInIdeal(t: Tiers, dir: Key -> string, keys: set<Key>, m: Ideal, now: Time)
    requires Refines(t, dir, keys, m, now)
    ensures Resident(t) <= m.Keys
    ensures forall k :: k in m && !m[k].IsExpired(now) ==> k in Resident(t)
  {
    forall k | k in Resident(t) ensures k in m {
      if k in HotKeys(t.hot) {
        var it :| it in t.hot && it.key == k;
        assert ItemIn(it, m);
      } else {
        var d :| d in t.cold && t.cold[d].key == k;
        assert FileIn(t.cold[d], m);
      }
    }
    forall k | k in m && !m[k].IsExpired(now) ensures k in Resident(t) {
      if Has(t.hot, k) {
        var it := MemberOf(t.hot, k);
      } else {
        assert InCold(t.cold, dir, k);
      }
    }
  }

  lemma UnionCard<T>(a: set<T>, b: set<T>)
    requires a * b == {}
    ensures |a + b| == |a| + |b|
  {
  }

  /** delete_by_prefix counts exactly the resident keys with the prefix. */
  lemma PrefixCount(t: Tiers, dir: Key -> string, m: Ideal, prefix: string)
    requires HotIn(t.hot, t.cold, dir, m) && ColdIn(t.cold, dir, m)
    ensures TierDeletePrefix(t, prefix).1 == |set k | k in Resident(t) && prefix <= k|
  {
    var hot, ds := Filter(t.hot, HasPrefix(prefix)), ColdMatches(t.cold, prefix);
    FilterDistinct(t.hot, HasPrefix(prefix));
    HotKeysCard(hot);
    KeysAtCard(t.cold, dir, ds);
    var a, b := HotKeys(hot), KeysAt(t.cold, ds);
    forall k | k in a ensures k !in b {
      var it :| it in hot && it.key == k;
      assert dir(it.key) !in t.cold;
    }
    UnionCard(a, b);
    ResidentSplit(t, prefix);
  }

  lemma ResidentSplit(t: Tiers, prefix: string)
    ensures (set k | k in Resident(t) && prefix <= k)
      == HotKeys(Filter(t.hot, HasPrefix(prefix))) + KeysAt(t.cold, ColdMatches(t.cold, prefix))
  {
  }

  lemma PrefixBounds(t: Tiers, dir: Key -> string, keys: set<Key>, m: Ideal, now: Time, prefix: string)
    requires Refines(t, dir, keys, m, now)
    ensures |Matching(m, prefix, now)| <= TierDeletePrefix(t, prefix).1 <= |set k | k in m && prefix <= k|
  {
    ResidentInIdeal(t, dir, keys, m, now);
    PrefixCount(t, dir, m, prefix);
    var counted := set k | k in Resident(t) && prefix <= k;
    assert Matching(m, prefix, now) <= counted <= (set k | k in m && prefix <= k);
    SubsetCard(Matching(m, prefix, now), counted);
    SubsetCard(counted, set k | k in m && prefix <= k);
  }

  lemma DeletePrefixRefines(t: Tiers, dir: Key -> string, keys: set<Key>, m: Ideal, now: Time, prefix: string)
    requires Refines(t, dir, keys, m, now)
    ensures Refines(TierDeletePrefix(t, prefix).0, dir, keys, map k | k in m && !(prefix <= k) :: m[k], now)
  {
    var u := TierDeletePrefix(t, prefix).0;
    var n := map k | k in m && !(prefix <= k) :: m[k];
    FilterDistinct(t.hot, NotPrefix(prefix));
    forall d | d in t.cold ensures FileIn(t.cold[d], m) {
    }
    ColdFewer(t.cold, dir, m, ColdMatches(t.cold, prefix), n);
    forall o | o in n && !n[o].IsExpired(now) ensures Has(u.hot, o) || InCold(u.cold, dir, o) {
      if Has(t.hot, o) {
        FilterCovers(t.hot, NotPrefix(prefix), o);
      }
    }
  }

  lemma KeysRefines(t: Tiers, dir: Key -> string, keys: set<Key>, m: Ideal, now: Time)
    requires Refines(t, dir, keys, m, now)
    ensures Refines(TierKeys(t, now).0, dir, keys, m, now)
    ensures TierKeys(t, now).1 == set k | k in m && !m[k].IsExpired(now)
  {
    var u := TierKeys(t, now).0;
    FilterDistinct(t.hot, Unexpired(now));
    forall d | d in t.cold ensures FileIn(t.cold[d], m) {
    }
    ColdFewer(t.cold, dir, m, ColdExpired(t.cold, now), m);
    forall o | o in m && !m[o].IsExpired(now) ensures Has(u.hot, o) || InCold(u.cold, dir, o) {
      if Has(t.hot, o) {
        assert forall it :: it in t.hot ==> ItemIn(it, m);
        FilterCovers(t.hot, Unexpired(now), o);
      } else {
        assert FileIn(t.cold[dir(o)], m);
      }
    }
    ResidentInIdeal(u, dir, keys, m, now);
    forall k | k in Resident(u) ensures !m[k].IsExpired(now) {
      if k in HotKeys(u.hot) {
        var it :| it in u.hot && it.key == k;
        assert ItemIn(it, m);
      } else {
        var d :| d in u.cold && u.cold[d].key == k;
        assert FileIn(u.cold[d], m);
      }
    }
  }

  /** Every step shows a client only what the unbounded map allows, and keeps the refinement. */
  lemma StepRefines(t: Tiers, dir: Key -> string, cap: int, keys: set<Key>, m: Ideal, ev: Event)
    requires InjectiveOn(dir, keys) && Refines(t, dir, keys, m, ev.now) && Within(ev, keys)
    ensures var (u, obs) := TierStep(t, dir, cap, ev);
      Allowed(m, ev, obs) && Refines(u, dir, keys, IdealStep(m, ev), ev.now)
  {
    match ev.action
    case DoGet(k) => GetRefines(t, dir, cap, keys, m, ev.now, k);
    case DoPut(k, e) => PutRefines(t, dir, cap, keys, m, ev.now, k, e);
    case DoDelete(k) => DeleteRefines(t, dir, keys, m, ev.now, k);
    case DoDeletePrefix(prefix) =>
      DeletePrefixRefines(t, dir, keys, m, ev.now, prefix);
      PrefixBounds(t, dir, keys, m, ev.now, prefix);
    case DoKeys => KeysRefines(t, dir, keys, m, ev.now);
  }

  // ---------- whole runs ----------

  /** The last event of a run shows only what the unbounded map allows. */
  ghost predicate LastAllowed(dir: Key -> string, cap: int, evs: seq<Event>)
    requires evs != []
  {
    var init, ev := evs[..|evs| - 1], evs[|evs| - 1];
    Allowed(IdealRun(init), ev, TierStep(TierRun(dir, cap, init), dir, cap, ev).1)
  }

  lemma RunOverPrefix(evs: seq<Event>, keys: set<Key>)
    requires evs != [] && RunOver(evs, keys)
    ensures RunOver(evs[..|evs| - 1], keys)
  {
  }

  lemma {:induction false} RunRefines(dir: Key -> string, cap: int, keys: set<Key>, evs: seq<Event>)
    requires InjectiveOn(dir, keys) && RunOver(evs, keys) && evs != []
    ensures LastAllowed(dir, cap, evs)
    ensures Refines(TierRun(dir, cap, evs), dir, keys, IdealRun(evs), evs[|evs| - 1].now)
  {
    var init, ev := evs[..|evs| - 1], evs[|evs| - 1];
    RunOverPrefix(evs, keys);
    if init != [] {
      RunRefines(dir, cap, keys, init);
      var t := TierRun(dir, cap, init);
      LaterCovered(t.hot, t.cold, dir, IdealRun(init), init[|init| - 1].now, ev.now);
    }
    StepRefines(TierRun(dir, cap, init), dir, cap, keys, IdealRun(init), ev);
  }

  /** Two keys that share a directory: a second put of one erases the demoted copy of the other. */
  lemma CollisionLoses(dir: Key -> string, cap: int, keys: set<Key>, k1: Key, k2: Key)
    returns (evs: seq<Event>)
    requires k1 in keys && k2 in keys && k1 != k2 && dir(k1) == dir(k2)
    ensures evs != [] && RunOver(evs, keys) && !LastAllowed(dir, cap, evs)
  {
    var big := CacheEntry([], map[], None, 0.0, 1.0, 0.0, if cap < 0 then 0 else cap + 1, 200, 0.0, None);
    var put1, put2 := Event(0.0, DoPut(k1, big)), Event(0.0, DoPut(k2, big));
    var ask := Event(0.0, DoGet(k1));
    hide TierPut, TierGet, TierRun, IdealRun, LastAllowed, Allowed, Has, RunOver;
    evs := [put1, put2, put2] + [ask];
    AtOnce(evs, keys);
    RunOfThree(dir, cap, put1, put2, put2);
    var t := LosesFirst(dir, cap, k1, k2, big);
    LostHere(t, dir, cap, map[k1 := big, k2 := big], k1, ask);
    assert map[k1 := big][k2 := big] == map[k1 := big, k2 := big];
    LastIsLost(dir, cap, [put1, put2, put2], t, map[k1 := big, k2 := big], ask);
  }

  lemma AtOnce(evs: seq<Event>, keys: set<Key>)
    requires forall ev :: ev in evs ==> ev.now == 0.0 && Within(ev, keys)
    ensures RunOver(evs, keys)
  {
  }

  lemma LastIsLost(dir: Key -> string, cap: int, init: seq<Event>, t: Tiers, m: Ideal, ask: Event)
    requires TierRun(dir, cap, init) == t && IdealRun(init) == m
    requires !Allowed(m, ask, TierStep(t, dir, cap, ask).1)
    ensures !LastAllowed(dir, cap, init + [ask])
  {
    hide TierStep, Allowed;
    assert (init + [ask])[..|init|] == init;
  }

  /** Two entries larger than the capacity, in one directory: the second put of the second loses the first. */
  lemma LosesFirst(dir: Key -> string, cap: int, k1: Key, k2: Key, big: CacheEntry) returns (t: Tiers)
    requires k1 != k2 && dir(k1) == dir(k2) && big.size as int > cap
    ensures t == TierPut(TierPut(TierPut(EMPTY, dir, cap, k1, big), dir, cap, k2, big), dir, cap, k2, big)
    ensures !Has(t.hot, k1) && dir(k1) !in t.cold
  {
    var t1 := PutLoner(EMPTY, dir, cap, k1, big);
    var t2 := PutLoner(t1, dir, cap, k2, big);
    t := PutLoner(t2, dir, cap, k2, big);
  }

  lemma RunOfThree(dir: Key -> string, cap: int, e1: Event, e2: Event, e3: Event)
    ensures TierRun(dir, cap, [e1, e2, e3]) ==
      TierStep(TierStep(TierStep(EMPTY, dir, cap, e1).0, dir, cap, e2).0, dir, cap, e3).0
    ensures IdealRun([e1, e2, e3]) == IdealStep(IdealStep(IdealStep(map[], e1), e2), e3)
  {
    hide TierStep, IdealStep;
    RunSnoc(dir, cap, [], e1);
    RunSnoc(dir, cap, [e1], e2);
    RunSnoc(dir, cap, [e1, e2], e3);
    assert [] + [e1] == [e1] && [e1] + [e2] == [e1, e2] && [e1, e2] + [e3] == [e1, e2, e3];
  }

  lemma RunSnoc(dir: Key -> string, cap: int, evs: seq<Event>, ev: Event)
    ensures TierRun(dir, cap, evs + [ev]) == TierStep(TierRun(dir, cap, evs), dir, cap, ev).0
    ensures IdealRun(evs + [ev]) == IdealStep(IdealRun(evs), ev)
  {
    assert (evs + [ev])[..|evs|] == evs;
  }

  /** A get that finds nothing, of a key that is in the ideal map and not expired. */
  lemma LostHere(t: Tiers, dir: Key -> string, cap: int, m: Ideal, k: Key, ask: Event)
    requires ask.action == DoGet(k) && k in m && !m[k].IsExpired(ask.now)
    requires !Has(t.hot, k) && dir(k) !in t.cold
    ensures !Allowed(m, ask, TierStep(t, dir, cap, ask).1)
  {
  }

  /** Putting an entry larger than the capacity leaves it alone in the hot tier. */
  lemma PutLoner(t: Tiers, dir: Key -> string, cap: int, k: Key, e: CacheEntry) returns (u: Tiers)
    requires e.size as int > cap && |t.hot| <= 1
    ensures u == TierPut(t, dir, cap, k, e)
    ensures u.hot == [Item(k, e)]
    ensures if t.hot != [] && t.hot[0].key != k
      then u.cold == (t.cold - {dir(k)})[dir(t.hot[0].key) := ToFile(t.hot[0].key, t.hot[0].entry)]
      else u.cold == t.cold - {dir(k)}
  {
    u := TierPut(t, dir, cap, k, e);
    var others := Remove(t.hot, k);
    assert others == if t.hot != [] && t.hot[0].key != k then t.hot else [];
    EvictIsLongest(others, e.size, cap);
    assert Evict(others, e.size, cap) == [];
    assert PushedOut(t.hot, cap, k, e) == others;
    if others != [] {
      assert others[..|others| - 1] == [];
      assert WriteAll(t.cold - {dir(k)}, dir, []) == t.cold - {dir(k)};
    }
  }

  /** The store refines the unbounded map over every run that names only these keys,
      if and only if the keys have distinct directories. */
  lemma RefinesIffDistinctDirectories(dir: Key -> string, cap: int, keys: set<Key>)
    ensures (forall evs | RunOver(evs, keys) && evs != [] :: LastAllowed(dir, cap, evs))
            <==> InjectiveOn(dir, keys)
  {
    if InjectiveOn(dir, keys) {
      forall evs | RunOver(evs, keys) && evs != [] ensures LastAllowed(dir, cap, evs) {
        RunRefines(dir, cap, keys, evs);
      }
    } else {
      var k1, k2 :| k1 in keys && k2 in keys && dir(k1) == dir(k2) && k1 != k2;
      var evs := CollisionLoses(dir, cap, keys, k1, k2);
    }
  }

  /** Equal up to characters that directory names do not keep. */
  ghost predicate LookAlike(k1: Key, k2: Key) {
    |k1| == |k2| && forall i :: 0 <= i < |k1| ==> k1[i] == k2[i] || (Unsafe(k1[i]) && Unsafe(k2[i]))
  }

  lemma {:induction false} LookAlikeReplaced(k1: Key, k2: Key)
    requires LookAlike(k1, k2)
    ensures Replaced(k1) == Replaced(k2)
  {
    if k1 != [] {
      LookAlikeReplaced(k1[1..], k2[1..]);
    }
  }

  /** The shipped directory function is not injective: such keys collide, so over them the store
      does not refine the map. */
  lemma LookAlikesCollide(cap: int, k1: Key, k2: Key)
    requires LookAlike(k1, k2) && k1 != k2
    ensures UrlSafeKey(k1) == UrlSafeKey(k2)
    ensures exists evs :: RunOver(evs, {k1, k2}) && evs != [] && !LastAllowed(UrlSafeKey, cap, evs)
  {
    LookAlikeReplaced(k1, k2);
    var evs := CollisionLoses(UrlSafeKey, cap, {k1, k2}, k1, k2);
  }
}
