/** The inclusion property of the LRU store: on a read-through trace a larger store always holds
    what a smaller one holds, so more bytes never cause more misses. */
module LruInclusion {
  import opened Text
  import opened Entities
  import opened LruContents

  /** A read of key at a time, with the entry to store if the read misses. */
  datatype Read = Read(key: Key, now: Time, fetched: CacheEntry)

  function ReadThrough(s: Contents, cap: int, r: Read): Contents {
    if Has(s, r.key) then Get(s, r.key, r.now) else Put(s, cap, r.key, r.fetched)
  }

  function After(cap: int, trace: seq<Read>): Contents {
    if trace == [] then [] else ReadThrough(After(cap, trace[..|trace| - 1]), cap, trace[|trace| - 1])
  }

  /** Whether the last read of the trace finds its key. */
  predicate Hits(cap: int, trace: seq<Read>)
    requires trace != []
  {
    Has(After(cap, trace[..|trace| - 1]), trace[|trace| - 1].key)
  }

  function Misses(cap: int, trace: seq<Read>): nat {
    if trace == [] then 0
    else Misses(cap, trace[..|trace| - 1]) + if Hits(cap, trace) then 0 else 1
  }

  /** Every fetch of a key has the same size. */
  ghost predicate FixedSizes(trace: seq<Read>) {
    forall i, j :: 0 <= i < j < |trace| && trace[i].key == trace[j].key ==>
      trace[i].fetched.size == trace[j].fetched.size
  }

  /** The same key and size. */
  predicate AlikeItem(x: Item, y: Item) { x.key == y.key && x.entry.size == y.entry.size }

  /** Same keys and sizes, position by position. */
  ghost predicate Alike(a: Contents, b: Contents) {
    |a| == |b| && forall i :: 0 <= i < |a| ==> AlikeItem(a[i], b[i])
  }

  /** a is the most recently used end of b, up to time stamps and fetch times. */
  ghost predicate Tail(a: Contents, b: Contents) {
    |a| <= |b| && forall i :: 0 <= i < |a| ==> AlikeItem(a[i], b[|b| - |a| + i])
  }

  lemma {:induction false} AlikeTotal(a: Contents, b: Contents)
    requires Alike(a, b)
    ensures Total(a) == Total(b)
  {
    if a != [] {
      AlikeTotal(a[1..], b[1..]);
    }
  }

  lemma {:induction false} AlikeRemove(a: Contents, b: Contents, k: Key)
    requires Alike(a, b)
    ensures Alike(Remove(a, k), Remove(b, k))
  {
    if a != [] {
      AlikeRemove(a[1..], b[1..], k);
    }
  }

  lemma TailRemove(a: Contents, b: Contents, k: Key)
    requires Tail(a, b)
    ensures Tail(Remove(a, k), Remove(b, k))
  {
    var front, back := b[..|b| - |a|], b[|b| - |a|..];
    assert b == front + back;
    FilterConcat(front, back, NotKey(k));
    AlikeRemove(a, back, k);
  }

  /** The last items of a tail are a tail. */
  lemma TailSuffix(out: Contents, kept: Contents, b: Contents)
    requires Tail(out + kept, b)
    ensures Tail(kept, b)
  {
    var a := out + kept;
    forall i | 0 <= i < |kept| ensures AlikeItem(kept[i], b[|b| - |kept| + i]) {
      assert AlikeItem(a[|out| + i], b[|b| - |a| + (|out| + i)]);
    }
  }

  lemma TailEvict(a: Contents, b: Contents, needed: nat, cap1: int, cap2: int)
    requires Tail(a, b) && cap1 <= cap2
    ensures Tail(Evict(a, needed, cap1), Evict(b, needed, cap2))
  {
    EvictIsLongest(a, needed, cap1);
    EvictIsLongest(b, needed, cap2);
    var outA, ka := Evicted(a, needed, cap1), Evict(a, needed, cap1);
    var outB, kb := Evicted(b, needed, cap2), Evict(b, needed, cap2);
    TailSuffix(outA, ka, b);
    AlikeTotal(ka, b[|b| - |ka|..]);
    hide Total, Evict, Evicted, Tail, Alike;
    TailFits(ka, outB, kb);
  }

  /** A tail that is not longer than the kept end is a tail of it. */
  lemma TailFits(a: Contents, out: Contents, kept: Contents)
    requires Tail(a, out + kept) && |a| <= |kept|
    ensures Tail(a, kept)
  {
    var b := out + kept;
    forall i | 0 <= i < |a| ensures AlikeItem(a[i], kept[|kept| - |a| + i]) {
      assert AlikeItem(a[i], b[|b| - |a| + i]);
    }
  }

  lemma TailSnoc(a: Contents, b: Contents, x: Item, y: Item)
    requires Tail(a, b) && x.key == y.key && x.entry.size == y.entry.size
    ensures Tail(a + [x], b + [y])
  {
    forall i | 0 <= i < |a| ensures AlikeItem((a + [x])[i], (b + [y])[|b| - |a| + i]) {
      assert AlikeItem(a[i], b[|b| - |a| + i]);
    }
  }

  lemma TailHas(a: Contents, b: Contents, k: Key)
    requires Tail(a, b) && Has(a, k)
    ensures Has(b, k)
  {
    var i :| 0 <= i < |a| && a[i].key == k;
    assert AlikeItem(a[i], b[|b| - |a| + i]);
  }

  /** Everything stored for the key of r has the size that r fetches. */
  ghost predicate SizeKnown(s: Contents, r: Read) {
    forall i :: 0 <= i < |s| && s[i].key == r.key ==> s[i].entry.size == r.fetched.size
  }

  lemma TailSizeKnown(a: Contents, b: Contents, r: Read)
    requires Tail(a, b) && SizeKnown(b, r)
    ensures SizeKnown(a, r)
  {
    forall i | 0 <= i < |a| && a[i].key == r.key ensures a[i].entry.size == r.fetched.size {
      assert AlikeItem(a[i], b[|b| - |a| + i]);
    }
  }

  lemma GetAppends(s: Contents, r: Read) returns (it: Item)
    requires Has(s, r.key) && SizeKnown(s, r)
    ensures it.key == r.key && it.entry.size == r.fetched.size
    ensures Get(s, r.key, r.now) == Remove(s, r.key) + [it]
  {
    var e := Lookup(s, r.key).value;
    assert Item(r.key, e) in s;
    it := Item(r.key, e.Touch(r.now));
  }

  /** One read-through keeps the smaller store the tail of the larger one. */
  lemma TailStep(a: Contents, b: Contents, cap1: int, cap2: int, r: Read)
    requires Tail(a, b) && cap1 <= cap2 && SizeKnown(b, r)
    ensures Tail(ReadThrough(a, cap1, r), ReadThrough(b, cap2, r))
  {
    TailSizeKnown(a, b, r);
    TailRemove(a, b, r.key);
    var ra, rb := Remove(a, r.key), Remove(b, r.key);
    if Has(a, r.key) {
      TailHas(a, b, r.key);
      var x := GetAppends(a, r);
      var y := GetAppends(b, r);
      TailSnoc(ra, rb, x, y);
    } else if Has(b, r.key) {
      var y := GetAppends(b, r);
      EvictSplits(ra, r.fetched.size, cap1);
      var kept := Evict(ra, r.fetched.size, cap1);
      TailSuffix(Evicted(ra, r.fetched.size, cap1), kept, rb);
      TailSnoc(kept, rb, Item(r.key, r.fetched), y);
    } else {
      TailEvict(ra, rb, r.fetched.size, cap1, cap2);
      TailSnoc(Evict(ra, r.fetched.size, cap1), Evict(rb, r.fetched.size, cap2),
               Item(r.key, r.fetched), Item(r.key, r.fetched));
    }
  }

  ghost predicate Fetched(it: Item, trace: seq<Read>) {
    exists i :: 0 <= i < |trace| && trace[i].key == it.key && trace[i].fetched.size == it.entry.size
  }

  /** What is stored was fetched by an earlier read of the trace, so its size is known. */
  ghost predicate FetchedIn(s: Contents, trace: seq<Read>) {
    forall it :: it in s ==> Fetched(it, trace)
  }

  lemma {:induction false} AfterFetchedIn(cap: int, trace: seq<Read>)
    ensures FetchedIn(After(cap, trace), trace)
  {
    if trace != [] {
      var init, r := trace[..|trace| - 1], trace[|trace| - 1];
      var s := After(cap, init);
      AfterFetchedIn(cap, init);
      forall it | it in After(cap, trace)
        ensures Fetched(it, trace)
      {
        var was := EarlierItem(s, cap, r, it);
        if was.Some? {
          assert Fetched(was.value, init);
          var i :| 0 <= i < |init| && init[i].key == it.key && init[i].fetched.size == was.value.entry.size;
          assert trace[i] == init[i];
        } else {
          assert trace[|trace| - 1].key == it.key;
        }
      }
    }
  }

  /** An item after a read-through was there before, up to its time stamp, or is the fetched one. */
  lemma EarlierItem(s: Contents, cap: int, r: Read, it: Item) returns (was: Option<Item>)
    requires it in ReadThrough(s, cap, r)
    ensures was.Some? ==> was.value in s && was.value.key == it.key && was.value.entry.size == it.entry.size
    ensures was.None? ==> it == Item(r.key, r.fetched)
  {
    EvictSplits(Remove(s, r.key), r.fetched.size, cap);
    if it in Remove(s, r.key) {
      was := Some(it);
    } else if Has(s, r.key) {
      was := Some(Item(r.key, Lookup(s, r.key).value));
    } else {
      was := None;
    }
  }

  lemma SizesKnown(s: Contents, trace: seq<Read>)
    requires trace != [] && FixedSizes(trace)
    requires FetchedIn(s, trace[..|trace| - 1])
    ensures SizeKnown(s, trace[|trace| - 1])
  {
    var r := trace[|trace| - 1];
    forall i | 0 <= i < |s| && s[i].key == r.key ensures s[i].entry.size == r.fetched.size {
      assert Fetched(s[i], trace[..|trace| - 1]);
      var j :| 0 <= j < |trace| - 1 && trace[..|trace| - 1][j].key == s[i].key
        && trace[..|trace| - 1][j].fetched.size == s[i].entry.size;
      assert trace[j].key == trace[|trace| - 1].key;
    }
  }

  lemma FixedSizesPrefix(trace: seq<Read>, n: nat)
    requires FixedSizes(trace) && n <= |trace|
    ensures FixedSizes(trace[..n])
  {
  }

  /** Inclusion: after every trace the smaller store is the most recently used tail of the larger one. */
  lemma {:induction false} Inclusion(cap1: int, cap2: int, trace: seq<Read>)
    requires cap1 <= cap2 && FixedSizes(trace)
    ensures Tail(After(cap1, trace), After(cap2, trace))
  {
    if trace != [] {
      var init := trace[..|trace| - 1];
      FixedSizesPrefix(trace, |trace| - 1);
      Inclusion(cap1, cap2, init);
      AfterFetchedIn(cap2, init);
      SizesKnown(After(cap2, init), trace);
      TailStep(After(cap1, init), After(cap2, init), cap1, cap2, trace[|trace| - 1]);
    }
  }

  /** So every hit of the smaller store is a hit of the larger one, and more bytes never cause more misses. */
  lemma {:induction false} MoreBytesNoMoreMisses(cap1: int, cap2: int, trace: seq<Read>)
    requires cap1 <= cap2 && FixedSizes(trace)
    ensures trace != [] && Hits(cap1, trace) ==> Hits(cap2, trace)
    ensures Misses(cap2, trace) <= Misses(cap1, trace)
  {
    if trace != [] {
      var init := trace[..|trace| - 1];
      FixedSizesPrefix(trace, |trace| - 1);
      Inclusion(cap1, cap2, init);
      MoreBytesNoMoreMisses(cap1, cap2, init);
      if Hits(cap1, trace) {
        TailHas(After(cap1, init), After(cap2, init), trace[|trace| - 1].key);
      }
    }
  }
}
