/** How old a response reported as a hit can be (src/application/cache_service.py, src/domain/entities.py;
    section 3 of RFC 5861). */
module Staleness {
  import opened Text
  import opened Entities
  import opened LruContents
  import opened BreakerSteps
  import opened CacheKeys
  import opened EdgeProtocol
  import opened Progress

  /** stale-while-revalidate windows are never negative. */
  ghost predicate Windows(cfg: Config) { forall resp :: cfg.read(resp).staleWindow >= 0.0 }

  lemma ShippedWindows(hash: VaryHash, defaultTtl: Time, capacity: int, limits: Limits)
    ensures Windows(Shipped(hash, defaultTtl, capacity, limits))
  {
  }

  ghost predicate WindowsStored(store: Contents) { forall it :: it in store ==> it.entry.staleWhileRevalidate >= 0.0 }

  lemma NextWindows(cfg: Config, s: State, step: Step)
    requires Windows(cfg) && WindowsStored(s.store) && Enabled(s, step)
    ensures WindowsStored(Next(cfg, s, step).store)
  {
    match step
    case Arrive(path, headers) => GetWindows(s.store, cfg.lookupKey(path, headers), s.wall);
    case Resume(id) => GetWindows(s.store, s.tasks[id].key, s.wall);
    case Launch(id) =>
    case Complete(id, resp) =>
      var item := ToStore(cfg, s.tasks[id], resp, s.wall);
      if item.Some? {
        assert item.value.entry.staleWhileRevalidate == cfg.read(resp).staleWindow;
        PutWindows(s.store, cfg.capacity, item.value);
      }
    case Fail(id) =>
    case Cancel(id) =>
    case Purge(key) =>
    case PurgePrefix(prefix) =>
    case Tick(_, _) =>
  }

  lemma GetWindows(store: Contents, k: Key, now: Time)
    requires WindowsStored(store)
    ensures WindowsStored(LruContents.Get(store, k, now))
  {
    var found := Lookup(store, k);
    if found.Some? {
      assert Item(k, found.value) in store;
    }
  }

  lemma PutWindows(store: Contents, cap: int, it: Item)
    requires WindowsStored(store) && it.entry.staleWhileRevalidate >= 0.0
    ensures WindowsStored(LruContents.Put(store, cap, it.key, it.entry))
  {
    EvictSplits(Remove(store, it.key), it.entry.size, cap);
  }

  ghost predicate InWindow(e: CacheEntry, now: Time) { now - e.createdAt <= e.ttl + e.staleWhileRevalidate }

  /** The reply is a hit on what this arrival finds stored, and either the entry is within its window
      or the breaker refuses calls at this very moment. */
  ghost predicate HitAt(cfg: Config, s: State, step: Step, reply: Reply) {
    && step.Arrive?
    && var found := Lookup(s.store, cfg.lookupKey(step.path, step.headers));
      && found.Some? && reply == Cached(found.value, true)
      && (InWindow(found.value, s.wall) || Enter(s.breaker, cfg.limits, s.mono).Err?)
      && (s.breaker.state == Closed ==> InWindow(found.value, s.wall))
  }

  ghost predicate ReportsHit(t: Task) { t.phase.Done? && t.phase.ending.Replied? && t.phase.ending.reply.hit }

  /** A task that reports a hit did so before, or is the request that arrives in this step. */
  lemma NewHit(cfg: Config, s: State, step: Step, i: nat)
    requires WindowsStored(s.store) && Enabled(s, step)
    requires i < |Next(cfg, s, step).tasks| && ReportsHit(Next(cfg, s, step).tasks[i])
    ensures (i < |s.tasks| && s.tasks[i] == Next(cfg, s, step).tasks[i])
      || (i == |s.tasks| && HitAt(cfg, s, step, Next(cfg, s, step).tasks[i].phase.ending.reply))
  {
    if step.Arrive? {
      var key := cfg.lookupKey(step.path, step.headers);
      var found := Lookup(s.store, key);
      if found.Some? {
        assert Item(key, found.value) in s.store;
      }
      DispatchHit(cfg, s.(store := LruContents.Get(s.store, key, s.wall)),
        Task(step.path, step.headers, key, Touched(found, s.wall), Done(Cancelled), 0, 0), i);
    } else if OfTask(step) {
      OnlyLeadersHit(cfg, s, step);
      var t := OnlyThatTask(cfg, s, step);
    }
  }

  lemma DispatchHit(cfg: Config, s: State, t: Task, i: nat)
    requires t.cached.Some? ==> t.cached.value.staleWhileRevalidate >= 0.0
    requires i < |Dispatch(cfg, s, t).tasks| && ReportsHit(Dispatch(cfg, s, t).tasks[i])
    ensures i < |s.tasks| ==> Dispatch(cfg, s, t).tasks[i] == s.tasks[i]
    ensures i >= |s.tasks| ==>
      && i == |s.tasks| && t.cached.Some?
      && Dispatch(cfg, s, t).tasks[i].phase.ending.reply == Cached(t.cached.value, true)
      && (InWindow(t.cached.value, s.wall) || Enter(s.breaker, cfg.limits, s.mono).Err?)
      && (s.breaker.state == Closed ==> InWindow(t.cached.value, s.wall))
  {
    var added := DispatchAdds(cfg, s, t);
    if i >= |s.tasks| {
      assert i == |s.tasks|;
    }
  }

  /** No step of a waiting or fetching task reports a hit. */
  lemma OnlyLeadersHit(cfg: Config, s: State, step: Step)
    requires Enabled(s, step) && OfTask(step)
    ensures !ReportsHit(Next(cfg, s, step).tasks[step.id])
  {
  }

  /** The request is the one that arrives and is answered with this reply in this step. */
  ghost predicate ServedIn(s: State, after: State, i: nat, reply: Reply) {
    |s.tasks| == i && i < |after.tasks| && after.tasks[i].phase == Done(Replied(reply))
  }

  /** Task i arrived and was answered in some step of the run, and its reply is the hit of that step. */
  ghost predicate HitInRun(cfg: Config, states: seq<State>, steps: seq<Step>, i: nat, reply: Reply)
    requires |states| == |steps| + 1
  {
    exists n :: 0 <= n < |steps| && ServedIn(states[n], states[n + 1], i, reply)
      && HitAt(cfg, states[n], steps[n], reply)
  }

  /** Over every execution, every response reported as a hit was within ttl + stale-while-revalidate in the step
      in which its own request arrived and was served, unless the breaker refused in that same step; with the
      breaker closed there is no exception. */
  lemma {:induction false} StalenessBound(cfg: Config, states: seq<State>, steps: seq<Step>)
    requires Windows(cfg) && IsExecution(cfg, states, steps)
    ensures WindowsStored(states[|steps|].store)
    ensures forall i :: 0 <= i < |states[|steps|].tasks| && ReportsHit(states[|steps|].tasks[i]) ==>
      HitInRun(cfg, states, steps, i, states[|steps|].tasks[i].phase.ending.reply)
    decreases |steps|
  {
    if steps != [] {
      var n := |steps| - 1;
      var s, after := states[n], states[n + 1];
      StalenessBound(cfg, states[..n + 1], steps[..n]);
      assert states[..n + 1][n] == s;
      NextWindows(cfg, s, steps[n]);
      forall i | 0 <= i < |after.tasks| && ReportsHit(after.tasks[i])
        ensures HitInRun(cfg, states, steps, i, after.tasks[i].phase.ending.reply)
      {
        var reply := after.tasks[i].phase.ending.reply;
        NewHit(cfg, s, steps[n], i);
        if !(ServedIn(s, after, i, reply) && HitAt(cfg, s, steps[n], reply)) {
          assert HitInRun(cfg, states[..n + 1], steps[..n], i, reply);
          EarlierHit(cfg, states, steps, n, i, reply);
        }
      }
    }
  }

  lemma EarlierHit(cfg: Config, states: seq<State>, steps: seq<Step>, n: nat, i: nat, reply: Reply)
    requires |states| == |steps| + 1 && n <= |steps|
    requires HitInRun(cfg, states[..n + 1], steps[..n], i, reply)
    ensures HitInRun(cfg, states, steps, i, reply)
  {
    hide HitAt, ServedIn;
    var prefix := states[..n + 1];
    var m :| 0 <= m < n && ServedIn(prefix[m], prefix[m + 1], i, reply) && HitAt(cfg, prefix[m], steps[..n][m], reply);
    assert prefix[m] == states[m] && prefix[m + 1] == states[m + 1] && steps[..n][m] == steps[m];
    assert ServedIn(states[m], states[m + 1], i, reply) && HitAt(cfg, states[m], steps[m], reply);
  }
}
