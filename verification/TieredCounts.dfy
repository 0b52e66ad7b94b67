/** What the six counters of the hot/cold store count (src/infrastructure/cache/tiered_store.py). */
module TieredCounts {
  import opened Text
  import opened Entities
  import opened LruContents
  import opened TieredContents

  /** The events of a run that satisfy a property of the state before them. */
  function Tally(dir: Key -> string, cap: int, evs: seq<Event>, p: (Tiers, Event) -> bool): nat {
    if evs == [] then 0
    else
      var init, ev := evs[..|evs| - 1], evs[|evs| - 1];
      Tally(dir, cap, init, p) + if p(TierRun(dir, cap, init), ev) then 1 else 0
  }

  /** The get finds its key in the hot tier. */
  predicate FindsHot(t: Tiers, ev: Event) { ev.action.DoGet? && Has(t.hot, ev.action.key) }

  /** The get finds its key not in the hot tier, but unexpired in its directory. */
  predicate FindsCold(dir: Key -> string, t: Tiers, ev: Event) {
    && ev.action.DoGet? && !Has(t.hot, ev.action.key)
    && dir(ev.action.key) in t.cold && !t.cold[dir(ev.action.key)].IsExpired(ev.now)
  }

  function IsGet(): (Tiers, Event) -> bool { (t: Tiers, ev: Event) => ev.action.DoGet? }

  function IsHot(): (Tiers, Event) -> bool { (t: Tiers, ev: Event) => FindsHot(t, ev) }

  function IsCold(dir: Key -> string): (Tiers, Event) -> bool { (t: Tiers, ev: Event) => FindsCold(dir, t, ev) }

  /** One event moves the counters of gets by what it finds. */
  lemma StepCounts(t: Tiers, dir: Key -> string, cap: int, ev: Event)
    ensures var was, now := t.counters, TierStep(t, dir, cap, ev).0.counters;
      && now.hotHits == was.hotHits + (if FindsHot(t, ev) then 1 else 0)
      && now.hotMisses == was.hotMisses + (if ev.action.DoGet? && !FindsHot(t, ev) then 1 else 0)
      && now.coldHits == was.coldHits + (if FindsCold(dir, t, ev) then 1 else 0)
      && now.coldMisses == was.coldMisses
           + (if ev.action.DoGet? && !FindsHot(t, ev) && !FindsCold(dir, t, ev) then 1 else 0)
  {
    hide Filter, Evict, Evicted, WriteAll;
  }

  /** After a get that finds nothing, neither tier holds the key; after one that finds its key in the cold tier, the
      hot tier holds it. */
  lemma GetSettles(t: Tiers, dir: Key -> string, cap: int, k: Key, now: Time)
    ensures var (after, found) := TierGet(t, dir, cap, k, now);
      && (found.None? ==> !Has(after.hot, k) && dir(k) !in after.cold)
      && (found.Some? && !Has(t.hot, k) ==> Has(after.hot, k))
  {
    if Lookup(t.hot, k).None? && dir(k) in t.cold {
      var e := FromFile(t.cold[dir(k)]).Touch(now);
      var put := LruContents.Put(t.hot, cap, k, e);
      assert put[|put| - 1].key == k;
    }
    hide Filter, Evict, Evicted, WriteAll;
  }

  ghost predicate IsLastFor(dir: Key -> string, items: Contents, d: string, i: int) {
    0 <= i < |items| && dir(items[i].key) == d && forall j :: i < j < |items| ==> dir(items[j].key) != d
  }

  /** Of the entries demoted together, the last one for a directory is the one that is there afterwards, and other
      directories stay as they are. */
  lemma {:induction false} LastDemotedWins(cold: Cold, dir: Key -> string, items: Contents, d: string)
    ensures var after := WriteAll(cold, dir, items);
      && (forall i :: IsLastFor(dir, items, d, i) ==> d in after && after[d] == ToFile(items[i].key, items[i].entry))
      && ((forall i :: 0 <= i < |items| ==> dir(items[i].key) != d) ==>
            (d in after <==> d in cold) && (d in cold ==> after[d] == cold[d]))
  {
    if items != [] {
      var n := |items| - 1;
      var init := items[..n];
      LastDemotedWins(cold, dir, init, d);
      var before, after := WriteAll(cold, dir, init), WriteAll(cold, dir, items);
      assert after == before[dir(items[n].key) := ToFile(items[n].key, items[n].entry)];
      hide WriteAll;
      forall i | IsLastFor(dir, items, d, i)
        ensures d in after && after[d] == ToFile(items[i].key, items[i].entry)
      {
        if i < n {
          assert init[i] == items[i];
          assert IsLastFor(dir, init, d, i);
        }
      }
      assert forall i :: 0 <= i < n ==> init[i] == items[i];
    }
  }

  /** Over every run every get is a hot hit or a hot miss, every hot miss is a cold hit or a cold miss, and the hits
      are the gets that find their key in that tier. */
  lemma {:induction false} CountersAddUp(dir: Key -> string, cap: int, evs: seq<Event>)
    ensures var c := TierRun(dir, cap, evs).counters;
      && c.hotHits == Tally(dir, cap, evs, IsHot())
      && c.coldHits == Tally(dir, cap, evs, IsCold(dir))
      && c.hotHits + c.hotMisses == Tally(dir, cap, evs, IsGet())
      && c.coldHits + c.coldMisses == c.hotMisses
  {
    if evs != [] {
      var init, ev := evs[..|evs| - 1], evs[|evs| - 1];
      CountersAddUp(dir, cap, init);
      StepCounts(TierRun(dir, cap, init), dir, cap, ev);
      hide FindsHot, FindsCold, TierStep;
    }
  }
}
