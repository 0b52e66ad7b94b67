/** What the operations of an LRU store compute, on values: the recency order as a sequence,
    least recently used first (src/infrastructure/cache/lru_store.py). */
module LruContents {
  import opened Text
  import opened Entities

  type Key = string

  datatype Item = Item(key: Key, entry: CacheEntry)

  type Contents = seq<Item>

  // ---------- filters ----------

  function Filter(s: Contents, keep: Item -> bool): (r: Contents)
    ensures forall it :: it in r <==> it in s && keep(it)
    ensures |r| <= |s|
  {
    if s == [] then []
    else
      var rest := Filter(s[1..], keep);
      if keep(s[0]) then [s[0]] + rest else rest
  }

  function NotKey(k: Key): Item -> bool { (it: Item) => it.key != k }

  function NotPrefix(prefix: string): Item -> bool { (it: Item) => !(prefix <= it.key) }

  function Unexpired(now: Time): Item -> bool { (it: Item) => !it.entry.IsExpired(now) }

  function HasPrefix(prefix: string): Item -> bool { (it: Item) => prefix <= it.key }

  function Expired(now: Time): Item -> bool { (it: Item) => it.entry.IsExpired(now) }

  function NotAmong(keys: seq<Key>): Item -> bool { (it: Item) => it.key !in keys }

  lemma {:induction false} FilterConcat(a: Contents, b: Contents, keep: Item -> bool)
    ensures Filter(a + b, keep) == Filter(a, keep) + Filter(b, keep)
  {
    if a == [] {
      assert a + b == b;
    } else {
      assert (a + b)[1..] == a[1..] + b;
      FilterConcat(a[1..], b, keep);
    }
  }

  lemma {:induction false} FilterAll(s: Contents, keep: Item -> bool)
    requires forall it :: it in s ==> keep(it)
    ensures Filter(s, keep) == s
  {
    if s != [] {
      assert s[0] in s;
      FilterAll(s[1..], keep);
    }
  }

  lemma FilterSnoc(s: Contents, it: Item, keep: Item -> bool)
    ensures Filter(s + [it], keep) == if keep(it) then Filter(s, keep) + [it] else Filter(s, keep)
  {
    FilterConcat(s, [it], keep);
  }

  lemma {:induction false} FilterSame(s: Contents, p: Item -> bool, q: Item -> bool)
    requires forall it :: it in s ==> p(it) == q(it)
    ensures Filter(s, p) == Filter(s, q)
  {
    if s != [] {
      assert s[0] in s;
      FilterSame(s[1..], p, q);
    }
  }

  lemma {:induction false} FilterTwice(s: Contents, p: Item -> bool, q: Item -> bool, both: Item -> bool)
    requires forall it :: both(it) <==> p(it) && q(it)
    ensures Filter(Filter(s, p), q) == Filter(s, both)
  {
    if s != [] {
      FilterTwice(s[1..], p, q, both);
    }
  }

  lemma {:induction false} FilterSplit(s: Contents, p: Item -> bool, q: Item -> bool)
    requires forall it :: p(it) <==> !q(it)
    ensures |Filter(s, p)| + |Filter(s, q)| == |s|
  {
    if s != [] {
      FilterSplit(s[1..], p, q);
    }
  }

  // ---------- keys and sizes ----------

  function KeysOf(s: Contents): (keys: seq<Key>)
    ensures |keys| == |s| && forall i :: 0 <= i < |s| ==> keys[i] == s[i].key
  {
    if s == [] then [] else KeysOf(s[..|s| - 1]) + [s[|s| - 1].key]
  }

  lemma KeysOfSnoc(s: Contents, it: Item)
    ensures KeysOf(s + [it]) == KeysOf(s) + [it.key]
  {
    assert (s + [it])[..|s|] == s;
  }

  /** One step of a scan that collects the keys a filter selects. */
  lemma ScanStep(s: Contents, i: nat, p: Item -> bool)
    requires i < |s|
    ensures KeysOf(Filter(s[..i + 1], p)) ==
      KeysOf(Filter(s[..i], p)) + if p(s[i]) then [s[i].key] else []
  {
    assert s[..i + 1] == s[..i] + [s[i]];
    FilterSnoc(s[..i], s[i], p);
    KeysOfSnoc(Filter(s[..i], p), s[i]);
  }

  /** Stored keys, none of them twice. */
  ghost predicate StoredKeys(s: Contents, keys: seq<Key>) {
    && (forall k :: k in keys ==> Has(s, k))
    && forall i, j :: 0 <= i < j < |keys| ==> keys[i] != keys[j]
  }

  lemma FilteredKeys(s: Contents, p: Item -> bool)
    requires Distinct(s)
    ensures StoredKeys(s, KeysOf(Filter(s, p)))
  {
    FilterDistinct(s, p);
    var chosen := Filter(s, p);
    forall k | k in KeysOf(chosen) ensures Has(s, k) {
      var i :| 0 <= i < |chosen| && KeysOf(chosen)[i] == k;
      assert chosen[i] in chosen;
    }
  }

  /** Removing the selected keys one by one leaves what the complement selects. */
  lemma AmongFiltered(s: Contents, p: Item -> bool, q: Item -> bool)
    requires Distinct(s) && forall it :: q(it) <==> !p(it)
    ensures Filter(s, NotAmong(KeysOf(Filter(s, p)))) == Filter(s, q)
  {
    var chosen := Filter(s, p);
    forall it | it in s ensures it.key in KeysOf(chosen) <==> p(it) {
      if p(it) {
        var i :| 0 <= i < |chosen| && chosen[i] == it;
        assert KeysOf(chosen)[i] == it.key;
      }
      if it.key in KeysOf(chosen) {
        var i :| 0 <= i < |chosen| && KeysOf(chosen)[i] == it.key;
        assert chosen[i] in chosen;
        LookupIsMember(s, chosen[i]);
        LookupIsMember(s, it);
      }
    }
    FilterSame(s, NotAmong(KeysOf(chosen)), q);
  }

  lemma HasAfterFilter(s: Contents, k: Key, keep: Item -> bool)
    requires Has(s, k) && forall it: Item :: it.key == k ==> keep(it)
    ensures Has(Filter(s, keep), k)
  {
    var i :| 0 <= i < |s| && s[i].key == k;
    assert s[i] in Filter(s, keep);
  }

  function Total(s: Contents): nat {
    if s == [] then 0 else s[0].entry.size + Total(s[1..])
  }

  lemma {:induction false} TotalConcat(a: Contents, b: Contents)
    ensures Total(a + b) == Total(a) + Total(b)
  {
    if a == [] {
      assert a + b == b;
    } else {
      assert (a + b)[1..] == a[1..] + b;
      TotalConcat(a[1..], b);
    }
  }

  predicate Has(s: Contents, k: Key) { exists i :: 0 <= i < |s| && s[i].key == k }

  /** Dictionary keys do not repeat. */
  ghost predicate Distinct(s: Contents) {
    forall i, j :: 0 <= i < j < |s| ==> s[i].key != s[j].key
  }

  function Lookup(s: Contents, k: Key): (r: Option<CacheEntry>)
    ensures r.Some? <==> Has(s, k)
    ensures r.Some? ==> Item(k, r.value) in s
  {
    if s == [] then None
    else if s[0].key == k then Some(s[0].entry)
    else
      assert forall i :: 1 <= i < |s| ==> s[i] == s[1..][i - 1];
      Lookup(s[1..], k)
  }

  lemma {:induction false} LookupIsMember(s: Contents, it: Item)
    requires Distinct(s) && it in s
    ensures Lookup(s, it.key) == Some(it.entry)
  {
    if s[0] != it {
      var i :| 0 <= i < |s| && s[i] == it;
      LookupIsMember(s[1..], it);
    }
  }

  function Remove(s: Contents, k: Key): Contents { Filter(s, NotKey(k)) }

  lemma {:induction false} FilterDistinct(s: Contents, keep: Item -> bool)
    requires Distinct(s)
    ensures Distinct(Filter(s, keep))
  {
    if s != [] {
      FilterDistinct(s[1..], keep);
      var rest := Filter(s[1..], keep);
      forall j | 0 <= j < |rest| ensures rest[j].key != s[0].key {
        assert rest[j] in rest;
        assert rest[j] in s[1..];
      }
    }
  }

  lemma {:induction false} RemoveTotal(s: Contents, k: Key)
    requires Distinct(s)
    ensures Lookup(s, k).None? ==> Remove(s, k) == s
    ensures Lookup(s, k).Some? ==> Total(Remove(s, k)) + Lookup(s, k).value.size == Total(s)
    ensures Lookup(s, k).Some? ==> |Remove(s, k)| + 1 == |s|
  {
    if s != [] {
      if s[0].key == k {
        FilterAll(s[1..], NotKey(k));
      } else {
        RemoveTotal(s[1..], k);
      }
    }
  }

  // ---------- the operations ----------

  /** Drop from the least recently used end until the new entry fits, or nothing is left. */
  function Evict(s: Contents, needed: nat, cap: int): Contents {
    if s != [] && Total(s) + needed > cap then Evict(s[1..], needed, cap) else s
  }

  /** What Evict drops, in order. */
  function Evicted(s: Contents, needed: nat, cap: int): Contents {
    if s != [] && Total(s) + needed > cap then [s[0]] + Evicted(s[1..], needed, cap) else []
  }

  function Put(s: Contents, cap: int, k: Key, e: CacheEntry): Contents {
    Evict(Remove(s, k), e.size, cap) + [Item(k, e)]
  }

  /** What a put pushes out, in eviction order. */
  function PushedOut(s: Contents, cap: int, k: Key, e: CacheEntry): Contents {
    Evicted(Remove(s, k), e.size, cap)
  }

  /** A get moves the entry to the most recently used end and stamps it. */
  function Get(s: Contents, k: Key, now: Time): Contents {
    match Lookup(s, k)
    case None => s
    case Some(e) => Remove(s, k) + [Item(k, e.Touch(now))]
  }

  function DeletePrefix(s: Contents, prefix: string): Contents { Filter(s, NotPrefix(prefix)) }

  /** keys() prunes what has expired. */
  function Prune(s: Contents, now: Time): Contents { Filter(s, Unexpired(now)) }

  // ---------- the meaning of put ----------

  /** What is dropped and what is kept are the whole, in order. */
  lemma {:induction false} EvictSplits(s: Contents, needed: nat, cap: int)
    ensures Evicted(s, needed, cap) + Evict(s, needed, cap) == s
    ensures forall it :: it in Evict(s, needed, cap) ==> it in s
  {
    if s != [] && Total(s) + needed > cap {
      EvictSplits(s[1..], needed, cap);
      var out, kept := Evicted(s[1..], needed, cap), Evict(s[1..], needed, cap);
      hide Total, Evict, Evicted;
      assert [s[0]] + out + kept == [s[0]] + (out + kept);
      assert [s[0]] + s[1..] == s;
    }
  }

  /** Eviction keeps the longest most-recently-used suffix that leaves room, or nothing. */
  lemma {:induction false} EvictIsLongest(s: Contents, needed: nat, cap: int)
    ensures var out, kept := Evicted(s, needed, cap), Evict(s, needed, cap);
      && out + kept == s
      && (kept == [] || Total(kept) + needed <= cap)
      && forall m :: 0 <= m < |out| ==> Total(s[m..]) + needed > cap
  {
    EvictSplits(s, needed, cap);
    if s != [] && Total(s) + needed > cap {
      EvictIsLongest(s[1..], needed, cap);
      forall m | 0 <= m < |Evicted(s, needed, cap)| ensures Total(s[m..]) + needed > cap {
        if m > 0 {
          assert s[m..] == s[1..][m - 1..];
        }
      }
    }
  }

  /** The survivors of a put are exactly the longest most-recently-used suffix of the other entries
      that leaves room for the new one, or nothing; what is pushed out is the rest, in order. */
  lemma PutSurvivors(s: Contents, cap: int, k: Key, e: CacheEntry)
    ensures exists kept ::
      && Put(s, cap, k, e) == kept + [Item(k, e)]
      && Remove(s, k) == PushedOut(s, cap, k, e) + kept
      && (kept == [] || Total(kept) + e.size <= cap)
      && forall m :: 0 <= m < |PushedOut(s, cap, k, e)| ==> Total(Remove(s, k)[m..]) + e.size > cap
  {
    EvictIsLongest(Remove(s, k), e.size, cap);
    assert Put(s, cap, k, e) == Evict(Remove(s, k), e.size, cap) + [Item(k, e)];
  }

  // ---------- runs ----------

  datatype Op =
    | OpGet(key: Key, now: Time)
    | OpPut(key: Key, entry: CacheEntry)
    | OpDelete(key: Key)
    | OpDeletePrefix(prefix: string)
    | OpKeys(now: Time)

  function Step(s: Contents, cap: int, op: Op): Contents {
    match op
    case OpGet(k, now) => Get(s, k, now)
    case OpPut(k, e) => Put(s, cap, k, e)
    case OpDelete(k) => Remove(s, k)
    case OpDeletePrefix(prefix) => DeletePrefix(s, prefix)
    case OpKeys(now) => Prune(s, now)
  }

  function Run(cap: int, ops: seq<Op>): Contents {
    if ops == [] then [] else Step(Run(cap, ops[..|ops| - 1]), cap, ops[|ops| - 1])
  }

  ghost predicate Uses(op: Op, k: Key) { (op.OpGet? || op.OpPut?) && op.key == k }

  /** The index of the last get or put of k, or -1. */
  ghost function LastUse(ops: seq<Op>, k: Key): (i: int)
    ensures -1 <= i < |ops|
    ensures i >= 0 ==> Uses(ops[i], k)
    ensures forall j :: i < j < |ops| ==> !Uses(ops[j], k)
  {
    if ops == [] then -1
    else if Uses(ops[|ops| - 1], k) then |ops| - 1
    else LastUse(ops[..|ops| - 1], k)
  }

  /** Within capacity, unless one lone entry is stored. */
  predicate WithinCapacity(s: Contents, cap: int) { Total(s) <= cap || |s| <= 1 }

  ghost predicate InLastUseOrder(s: Contents, ops: seq<Op>) {
    forall i, j :: 0 <= i < j < |s| ==> LastUse(ops, s[i].key) < LastUse(ops, s[j].key)
  }

  lemma {:induction false} FilterTotal(s: Contents, keep: Item -> bool)
    ensures Total(Filter(s, keep)) <= Total(s)
  {
    if s != [] {
      FilterTotal(s[1..], keep);
    }
  }

  lemma GetTotal(s: Contents, k: Key, now: Time)
    requires Distinct(s)
    ensures Total(Get(s, k, now)) == Total(s) && |Get(s, k, now)| == |s|
  {
    RemoveTotal(s, k);
    if Lookup(s, k).Some? {
      TotalConcat(Remove(s, k), [Item(k, Lookup(s, k).value.Touch(now))]);
    }
  }

  lemma PutTotal(s: Contents, cap: int, k: Key, e: CacheEntry)
    ensures Total(Put(s, cap, k, e)) == Total(Evict(Remove(s, k), e.size, cap)) + e.size
  {
    TotalConcat(Evict(Remove(s, k), e.size, cap), [Item(k, e)]);
  }

  lemma StepWithinCapacity(s: Contents, cap: int, op: Op)
    requires Distinct(s) && WithinCapacity(s, cap)
    ensures WithinCapacity(Step(s, cap, op), cap)
  {
    match op
    case OpGet(k, now) => GetTotal(s, k, now);
    case OpPut(k, e) =>
      EvictIsLongest(Remove(s, k), e.size, cap);
      PutTotal(s, cap, k, e);
    case OpDelete(k) => FilterTotal(s, NotKey(k));
    case OpDeletePrefix(prefix) => FilterTotal(s, NotPrefix(prefix));
    case OpKeys(now) => FilterTotal(s, Unexpired(now));
  }

  /** Adding a fresh key at the end keeps keys distinct. */
  lemma SnocDistinct(s: Contents, it: Item)
    requires Distinct(s) && !Has(s, it.key)
    ensures Distinct(s + [it])
  {
  }

  lemma RemovedKey(s: Contents, k: Key)
    ensures !Has(Remove(s, k), k)
  {
    forall i | 0 <= i < |Remove(s, k)| ensures Remove(s, k)[i].key != k {
      assert Remove(s, k)[i] in Remove(s, k);
    }
  }

  lemma EvictFresh(s: Contents, needed: nat, cap: int, k: Key)
    requires !Has(s, k)
    ensures !Has(Evict(s, needed, cap), k)
  {
    EvictSplits(s, needed, cap);
    var kept := Evict(s, needed, cap);
    forall i | 0 <= i < |kept| ensures kept[i].key != k {
      assert kept[i] in s;
    }
  }

  lemma {:induction false} EvictDistinct(s: Contents, needed: nat, cap: int)
    requires Distinct(s)
    ensures Distinct(Evict(s, needed, cap))
  {
    if s != [] && Total(s) + needed > cap {
      EvictDistinct(s[1..], needed, cap);
    }
  }

  lemma StepDistinct(s: Contents, cap: int, op: Op)
    requires Distinct(s)
    ensures Distinct(Step(s, cap, op))
  {
    match op
    case OpGet(k, now) =>
      FilterDistinct(s, NotKey(k));
      RemovedKey(s, k);
      if Lookup(s, k).Some? {
        SnocDistinct(Remove(s, k), Item(k, Lookup(s, k).value.Touch(now)));
      }
    case OpPut(k, e) =>
      FilterDistinct(s, NotKey(k));
      RemovedKey(s, k);
      EvictFresh(Remove(s, k), e.size, cap, k);
      EvictDistinct(Remove(s, k), e.size, cap);
      SnocDistinct(Evict(Remove(s, k), e.size, cap), Item(k, e));
    case OpDelete(k) => FilterDistinct(s, NotKey(k));
    case OpDeletePrefix(prefix) => FilterDistinct(s, NotPrefix(prefix));
    case OpKeys(now) => FilterDistinct(s, Unexpired(now));
  }

  lemma {:induction false} FilterOrder(s: Contents, keep: Item -> bool, ops: seq<Op>)
    requires InLastUseOrder(s, ops)
    ensures InLastUseOrder(Filter(s, keep), ops)
  {
    if s != [] {
      FilterOrder(s[1..], keep, ops);
      var rest := Filter(s[1..], keep);
      forall j | 0 <= j < |rest| ensures LastUse(ops, s[0].key) < LastUse(ops, rest[j].key) {
        assert rest[j] in rest;
        assert rest[j] in s[1..];
      }
    }
  }

  lemma {:induction false} EvictOrder(s: Contents, needed: nat, cap: int, ops: seq<Op>)
    requires InLastUseOrder(s, ops)
    ensures InLastUseOrder(Evict(s, needed, cap), ops)
  {
    if s != [] && Total(s) + needed > cap {
      EvictOrder(s[1..], needed, cap, ops);
    }
  }

  /** A use of k leaves the last use of every other key alone. */
  lemma OrderFrame(s: Contents, ops: seq<Op>, op: Op)
    requires InLastUseOrder(s, ops)
    requires forall i :: 0 <= i < |s| ==> !Uses(op, s[i].key)
    ensures InLastUseOrder(s, ops + [op])
  {
    assert (ops + [op])[..|ops|] == ops;
    forall i | 0 <= i < |s| ensures LastUse(ops + [op], s[i].key) == LastUse(ops, s[i].key) {
    }
  }

  lemma OrderAppend(s: Contents, ops: seq<Op>, op: Op, it: Item)
    requires InLastUseOrder(s, ops) && !Has(s, it.key) && Uses(op, it.key)
    ensures InLastUseOrder(s + [it], ops + [op])
  {
    OrderFrame(s, ops, op);
    assert (ops + [op])[..|ops|] == ops;
    forall i | 0 <= i < |s| ensures LastUse(ops + [op], s[i].key) < LastUse(ops + [op], it.key) {
      assert s[i].key != it.key;
    }
  }

  lemma StepOrder(s: Contents, cap: int, ops: seq<Op>, op: Op)
    requires Distinct(s) && InLastUseOrder(s, ops)
    ensures InLastUseOrder(Step(s, cap, op), ops + [op])
  {
    match op
    case OpGet(k, now) =>
      if Lookup(s, k).Some? {
        FilterOrder(s, NotKey(k), ops);
        RemovedKey(s, k);
        OrderAppend(Remove(s, k), ops, op, Item(k, Lookup(s, k).value.Touch(now)));
      } else {
        OrderFrame(s, ops, op);
      }
    case OpPut(k, e) =>
      FilterOrder(s, NotKey(k), ops);
      RemovedKey(s, k);
      EvictFresh(Remove(s, k), e.size, cap, k);
      EvictOrder(Remove(s, k), e.size, cap, ops);
      OrderAppend(Evict(Remove(s, k), e.size, cap), ops, op, Item(k, e));
    case OpDelete(k) =>
      FilterOrder(s, NotKey(k), ops);
      OrderFrame(Remove(s, k), ops, op);
    case OpDeletePrefix(prefix) =>
      FilterOrder(s, NotPrefix(prefix), ops);
      OrderFrame(DeletePrefix(s, prefix), ops, op);
    case OpKeys(now) =>
      FilterOrder(s, Unexpired(now), ops);
      OrderFrame(Prune(s, now), ops, op);
  }

  /** After every run: no key twice, the order is last-use order, and the bytes are within capacity
      unless one lone entry is stored. */
  lemma {:induction false} RunInvariant(cap: int, ops: seq<Op>)
    ensures Distinct(Run(cap, ops))
    ensures WithinCapacity(Run(cap, ops), cap)
    ensures InLastUseOrder(Run(cap, ops), ops)
  {
    if ops != [] {
      var init, op := ops[..|ops| - 1], ops[|ops| - 1];
      RunInvariant(cap, init);
      StepDistinct(Run(cap, init), cap, op);
      StepWithinCapacity(Run(cap, init), cap, op);
      StepOrder(Run(cap, init), cap, init, op);
      assert init + [op] == ops;
    }
  }
}
