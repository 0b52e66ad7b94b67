/** When coalescing does not save the origin: the exact condition, and runs in which every follower of one key
    has a fetch outstanding at once (src/application/cache_service.py). */
module Stampede {
  import opened Text
  import opened Entities
  import opened LruContents
  import opened BreakerSteps
  import opened CacheKeys
  import opened EdgeProtocol
  import opened Coalescing
  import opened Progress
  import opened Cohort
  import CacheControl

  // ---------- the end of a leader ----------

  /** The leader's fetch is answered, fails, or is cancelled. */
  predicate EndsLeader(step: Step, leader: nat) {
    (step.Complete? || step.Fail? || step.Cancel?) && step.id == leader
  }

  /** The leader's end leaves its answer where its followers look. */
  ghost predicate LeavesAnswer(cfg: Config, s: State, step: Step)
    requires OfTask(step) && step.id < |s.tasks|
  {
    step.Complete? && StoresForFollowers(cfg, s.tasks[step.id], step.response, s.wall)
  }

  /** What the leader's end leaves is nothing new, and what was stored for its key before is still there. */
  ghost predicate LeavesOld(cfg: Config, s: State, step: Step)
    requires OfTask(step) && step.id < |s.tasks|
  {
    && !LeavesAnswer(cfg, s, step)
    && Lookup(s.store, s.tasks[step.id].key).Some?
    && (step.Complete? ==> Spares(s, cfg.capacity, s.tasks[step.id].key,
                                  ToStore(cfg, s.tasks[step.id], step.response, s.wall)))
  }

  /** Storing the item, if there is one, does not evict the key. */
  ghost predicate Spares(s: State, cap: int, key: Key, item: Option<Item>) {
    item.Some? ==> Has(Evict(Remove(s.store, item.value.key), item.value.entry.size, cap), key)
  }

  /** A put of another key keeps an entry as it is, or evicts it. */
  lemma LookupPutOther(s: Contents, cap: int, it: Item, k: Key)
    requires Distinct(s) && k != it.key
    ensures Lookup(LruContents.Put(s, cap, it.key, it.entry), k) ==
      if Has(Evict(Remove(s, it.key), it.entry.size, cap), k) then Lookup(s, k) else None
  {
    var kept := Evict(Remove(s, it.key), it.entry.size, cap);
    EvictSplits(Remove(s, it.key), it.entry.size, cap);
    LookupConcat(kept, [it], k);
    if Has(kept, k) {
      LookupIsMember(s, Item(k, Lookup(kept, k).value));
    }
  }

  /** What the end of a leader does, apart from the store. */
  lemma LeaderEnded(cfg: Config, s: State, leader: nat, ev: nat, step: Step)
    requires Safe(s) && leader < |s.tasks| && LeadsOn(s.tasks[leader], ev) && EndsLeader(step, leader)
    ensures Enabled(s, step)
    ensures var after := Next(cfg, s, step);
      && ev < |after.events| && after.events[ev]
      && after.breaker == (if step.Complete? then Success(s.breaker, cfg.limits)
                           else Failure(s.breaker, cfg.limits, s.mono))
      && |after.tasks| == |s.tasks| && forall f :: 0 <= f < |s.tasks| && f != leader ==> after.tasks[f] == s.tasks[f]
  {
    hide Lookup, Filter, Evict, ToStore, ToReturn, Success, Failure;
    assert LeaderRegistered(s.tasks[leader], s.inflight, s.events);
  }

  /** What a key holds after the end of its leader, from what is known before it. */
  lemma HeldAfterLeader(cfg: Config, s: State, leader: nat, step: Step)
    requires Distinct(s.store) && leader < |s.tasks| && s.tasks[leader].phase.Fetching?
    requires EndsLeader(step, leader) && Enabled(s, step)
    ensures var key := s.tasks[leader].key;
      Lookup(Next(cfg, s, step).store, key) ==
        if LeavesAnswer(cfg, s, step) then Some(ToStore(cfg, s.tasks[leader], step.response, s.wall).value.entry)
        else if LeavesOld(cfg, s, step) then Lookup(s.store, key)
        else None
  {
    var key := s.tasks[leader].key;
    if step.Complete? {
      var item := ToStore(cfg, s.tasks[leader], step.response, s.wall);
      hide ToStore, Lookup;
      if item.Some? {
        if item.value.key == key {
          LookupPut(s.store, cfg.capacity, item.value);
        } else {
          LookupPutOther(s.store, cfg.capacity, item.value, key);
        }
      }
    }
  }

  /** In every execution no key is stored twice, which the case analysis above needs. */
  lemma {:induction false} AlwaysDistinct(cfg: Config, states: seq<State>, steps: seq<Step>)
    requires IsExecution(cfg, states, steps)
    ensures Distinct(states[|steps|].store)
    decreases |steps|
  {
    if steps != [] {
      var n := |steps| - 1;
      AlwaysDistinct(cfg, states[..n + 1], steps[..n]);
      assert states[..n + 1][n] == states[n];
      NextDistinct(cfg, states[n], steps[n]);
    }
  }

  lemma NextDistinct(cfg: Config, s: State, step: Step)
    requires Distinct(s.store) && Enabled(s, step)
    ensures Distinct(Next(cfg, s, step).store)
  {
    hide Distinct, Filter, Evict, Lookup, Dispatch;
    match step
    case Arrive(path, headers) =>
      StoreAfter(cfg, s, step);
      StepDistinct(s.store, cfg.capacity, OpGet(cfg.lookupKey(path, headers), s.wall));
    case Resume(id) =>
      StoreAfter(cfg, s, step);
      StepDistinct(s.store, cfg.capacity, OpGet(s.tasks[id].key, s.wall));
    case Complete(id, resp) =>
      var item := ToStore(cfg, s.tasks[id], resp, s.wall);
      if item.Some? {
        StepDistinct(s.store, cfg.capacity, OpPut(item.value.key, item.value.entry));
      }
    case Purge(key) => StepDistinct(s.store, cfg.capacity, OpDelete(key));
    case PurgePrefix(prefix) => StepDistinct(s.store, cfg.capacity, OpDeletePrefix(prefix));
    case _ => StoreAfter(cfg, s, step);
  }

  /** A follower that resumes is served what is stored, or else fetches if the breaker admits it. */
  lemma Resumed(cfg: Config, s: State, f: nat)
    requires Enabled(s, Resume(f))
    ensures var found, after := Lookup(s.store, s.tasks[f].key), Next(cfg, s, Resume(f));
      && |after.tasks| == |s.tasks|
      && (found.Some? ==> after.tasks[f] == s.tasks[f].(phase := Done(Replied(Cached(found.value, false)))))
      && (after.tasks[f].phase.Fetching? <==> found.None? && Enter(s.breaker, cfg.limits, s.mono).Ok?)
  {
  }

  /** However the leader of a key ends, by an answer, a failure or a cancellation, this is what becomes of a follower
      that resumes next. It is served the answer that was left for it; or the old entry, if nothing was left and the
      old entry is still stored; and it contacts the origin itself if and only if there is neither and the breaker
      admits it. */
  lemma FollowerFetchesIff(cfg: Config, s: State, leader: nat, ev: nat, step: Step, f: nat)
    requires Safe(s) && Distinct(s.store)
    requires leader < |s.tasks| && LeadsOn(s.tasks[leader], ev) && EndsLeader(step, leader)
    requires f < |s.tasks| && s.tasks[f].phase == Waiting(ev)
    ensures Enabled(s, step) && Enabled(Next(cfg, s, step), Resume(f))
    ensures var after := Next(cfg, s, step);
      var phase := Next(cfg, after, Resume(f)).tasks[f].phase;
      && (LeavesAnswer(cfg, s, step) ==>
           phase == Done(Replied(Cached(ToStore(cfg, s.tasks[leader], step.response, s.wall).value.entry, false))))
      && (LeavesOld(cfg, s, step) ==>
           phase == Done(Replied(Cached(Lookup(s.store, s.tasks[leader].key).value, false))))
      && (phase.Fetching? <==>
           !LeavesAnswer(cfg, s, step) && !LeavesOld(cfg, s, step)
           && Enter(after.breaker, cfg.limits, after.mono).Ok?)
  {
    hide Next, Lookup, ToStore, Enter, LeavesAnswer, Spares;
    LeaderEnded(cfg, s, leader, ev, step);
    FollowersShareKey(s, leader, f, ev);
    HeldAfterLeader(cfg, s, leader, step);
    Resumed(cfg, Next(cfg, s, step), f);
  }

  // ---------- the whole cohort ----------

  /** These followers can resume, each will find its key missing, and the circuit is closed. */
  ghost predicate AboutToFetch(s: State, key: Key, fs: seq<nat>) {
    && Lookup(s.store, key).None? && s.breaker.state == Closed
    && (forall j :: 0 <= j < |fs| ==> Enabled(s, Resume(fs[j])) && s.tasks[fs[j]].key == key)
    && forall i, j :: 0 <= i < j < |fs| ==> fs[i] != fs[j]
  }

  /** This task has a fetch of the key outstanding. */
  ghost predicate FetchesKey(s: State, key: Key, f: nat) {
    f < |s.tasks| && s.tasks[f].key == key && s.tasks[f].phase == Fetching(Follower)
  }

  lemma ResumeStarts(cfg: Config, s: State, f: nat)
    requires Enabled(s, Resume(f)) && s.breaker.state == Closed && Lookup(s.store, s.tasks[f].key).None?
    ensures var after := Next(cfg, s, Resume(f));
      && |after.tasks| == |s.tasks| && (forall g :: 0 <= g < |s.tasks| && g != f ==> after.tasks[g] == s.tasks[g])
      && FetchesKey(after, s.tasks[f].key, f)
      && after.store == s.store && after.breaker == s.breaker && after.events == s.events
  {
  }

  /** They resume one after the other, and in the end all of them have a fetch outstanding. */
  lemma {:induction false} AllFetch(cfg: Config, s: State, key: Key, fs: seq<nat>)
    returns (states: seq<State>, steps: seq<Step>)
    requires AboutToFetch(s, key, fs)
    ensures IsRun(cfg, states, steps) && states[0] == s && |steps| == |fs|
    ensures forall j :: 0 <= j < |fs| ==> steps[j] == Resume(fs[j]) && FetchesKey(states[|steps|], key, fs[j])
    ensures forall f :: FetchesKey(s, key, f) ==> FetchesKey(states[|steps|], key, f)
    decreases |fs|
  {
    if fs == [] {
      states, steps := [s], [];
    } else {
      var step, rest := Resume(fs[0]), fs[1..];
      hide Next, Lookup, FetchesKey;
      ResumeStarts(cfg, s, fs[0]);
      var after := Next(cfg, s, step);
      forall f | FetchesKey(s, key, f) ensures FetchesKey(after, key, f) {
        FetchingStays(cfg, s, key, fs[0], f);
      }
      var later, more := AllFetch(cfg, after, key, rest);
      ExtendRun(cfg, later, more, s, step);
      states, steps := [s] + later, [step] + more;
      forall j | 0 <= j < |fs| ensures steps[j] == Resume(fs[j]) && FetchesKey(states[|steps|], key, fs[j]) {
        assert states[|steps|] == later[|more|];
        assert j > 0 ==> fs[j] == rest[j - 1];
      }
    }
  }

  lemma FetchingStays(cfg: Config, s: State, key: Key, f: nat, g: nat)
    requires Enabled(s, Resume(f)) && FetchesKey(s, key, g)
    ensures FetchesKey(Next(cfg, s, Resume(f)), key, g)
  {
    var t := OnlyThatTask(cfg, s, Resume(f));
  }

  /** If the leader of a key leaves neither an answer nor an old entry, and the circuit is closed after it, then for
      any of its followers, however many, there is a run that ends with all their fetches of the one key outstanding
      at once. */
  lemma CohortStampedes(cfg: Config, s: State, leader: nat, ev: nat, step: Step, fs: seq<nat>)
    returns (states: seq<State>, steps: seq<Step>)
    requires Safe(s) && leader < |s.tasks| && LeadsOn(s.tasks[leader], ev) && EndsLeader(step, leader)
    requires Distinct(s.store) && !LeavesAnswer(cfg, s, step) && !LeavesOld(cfg, s, step)
    requires Enabled(s, step) && Next(cfg, s, step).breaker.state == Closed
    requires forall j :: 0 <= j < |fs| ==> fs[j] < |s.tasks| && s.tasks[fs[j]].phase == Waiting(ev)
    requires forall i, j :: 0 <= i < j < |fs| ==> fs[i] != fs[j]
    ensures IsRun(cfg, states, steps) && states[0] == s && |steps| == 1 + |fs| && steps[0] == step
    ensures forall j :: 0 <= j < |fs| ==> FetchesKey(states[|steps|], s.tasks[leader].key, fs[j])
  {
    var key := s.tasks[leader].key;
    hide Next, Lookup, FetchesKey, LeavesOld, LeavesAnswer, Safe, Distinct;
    LeaderEnded(cfg, s, leader, ev, step);
    HeldAfterLeader(cfg, s, leader, step);
    forall j | 0 <= j < |fs| ensures s.tasks[fs[j]].key == key {
      FollowersShareKey(s, leader, fs[j], ev);
    }
    states, steps := AllFetch(cfg, Next(cfg, s, step), key, fs);
    ExtendRun(cfg, states, steps, s, step);
    states, steps := [s] + states, [step] + steps;
  }

  // ---------- runs from the start ----------

  /** A request for a missing key while the circuit is closed leads, or waits for the leader. */
  lemma MissStarts(cfg: Config, s: State, path: string, headers: RequestHeaders)
    requires Lookup(s.store, cfg.lookupKey(path, headers)).None? && s.breaker.state == Closed
    ensures var key, after, n := cfg.lookupKey(path, headers), Next(cfg, s, Arrive(path, headers)), |s.tasks|;
      && |after.tasks| == n + 1 && after.tasks[..n] == s.tasks
      && after.tasks[n].key == key && after.tasks[n].cached.None?
      && after.store == s.store && after.breaker == s.breaker && after.wall == s.wall && after.mono == s.mono
      && if key in s.inflight then after.tasks[n].phase == Waiting(s.inflight[key]) && after.inflight == s.inflight
         else LeadsOn(after.tasks[n], |s.events|) && after.inflight == s.inflight[key := |s.events|]
  {
  }

  /** A leader and two followers of one key that is not stored, with a breaker that has seen nothing. */
  ghost predicate ThreeWait(s: State) {
    && |s.tasks| == 3 && LeadsOn(s.tasks[0], 0) && s.tasks[1].phase == s.tasks[2].phase == Waiting(0)
    && s.store == [] && s.breaker == INITIAL
  }

  lemma ThreeAsk(cfg: Config, path: string, headers: RequestHeaders) returns (states: seq<State>, steps: seq<Step>)
    ensures steps == [Arrive(path, headers), Arrive(path, headers), Arrive(path, headers)]
    ensures IsExecution(cfg, states, steps) && Safe(states[3]) && ThreeWait(states[3])
    ensures states[3].tasks[0].key == cfg.lookupKey(path, headers)
  {
    hide Next, Safe;
    var ask := Arrive(path, headers);
    var s1 := Next(cfg, START, ask);
    var s2 := Next(cfg, s1, ask);
    var s3 := Next(cfg, s2, ask);
    MissStarts(cfg, START, path, headers);
    MissStarts(cfg, s1, path, headers);
    MissStarts(cfg, s2, path, headers);
    states, steps := [START, s1, s2, s3], [ask, ask, ask];
    CoalescingSafety(cfg, states, steps);
    assert s2.tasks[0] == s2.tasks[..1][0] && s3.tasks[0] == s3.tasks[..2][0] && s3.tasks[1] == s3.tasks[..2][1];
  }

  lemma JoinRuns(cfg: Config, a: seq<State>, p: seq<Step>, b: seq<State>, q: seq<Step>)
    requires IsRun(cfg, a, p) && IsRun(cfg, b, q) && a[|p|] == b[0]
    ensures IsRun(cfg, a + b[1..], p + q) && (a + b[1..])[0] == a[0] && (a + b[1..])[|p + q|] == b[|q|]
  {
    hide Next, Enabled;
    var more, taken := a + b[1..], p + q;
    forall i | 0 <= i < |taken|
      ensures Enabled(more[i], taken[i]) && more[i + 1] == Next(cfg, more[i], taken[i])
    {
      if i < |p| {
        assert more[i] == a[i] && more[i + 1] == a[i + 1] && taken[i] == p[i];
      } else {
        assert more[i] == b[i - |p|] && more[i + 1] == b[i - |p| + 1] && taken[i] == q[i - |p|];
      }
    }
  }

  /** An end of the first leader that leaves nothing and does not trip the breaker. */
  ghost predicate LeavesNothing(cfg: Config, step: Step) {
    && EndsLeader(step, 0)
    && if step.Complete? then !cfg.read(step.response).cacheable else cfg.limits.failureThreshold > 1
  }

  lemma NothingLeft(cfg: Config, s: State, step: Step)
    requires Safe(s) && ThreeWait(s) && LeavesNothing(cfg, step)
    ensures EndsLeader(step, 0) && Enabled(s, step) && !LeavesAnswer(cfg, s, step) && !LeavesOld(cfg, s, step)
    ensures Next(cfg, s, step).breaker.state == Closed
  {
    LeaderEnded(cfg, s, 0, 0, step);
  }

  /** The repository's README promises one origin fetch for any number of concurrent requests for a key. With an
      answer that may not be stored, a failed fetch, or a cancelled leader, three requests end with two fetches of
      their one key outstanding at once. */
  lemma ThreeRequests(cfg: Config, path: string, headers: RequestHeaders, step: Step)
    returns (states: seq<State>, steps: seq<Step>)
    requires LeavesNothing(cfg, step)
    ensures IsExecution(cfg, states, steps)
    ensures FetchesKey(states[|steps|], cfg.lookupKey(path, headers), 1)
    ensures FetchesKey(states[|steps|], cfg.lookupKey(path, headers), 2)
  {
    hide Next, Safe, Lookup, EndsLeader, FetchesKey;
    var asked, asks := ThreeAsk(cfg, path, headers);
    var s := asked[3];
    NothingLeft(cfg, s, step);
    var later, ends := CohortStampedes(cfg, s, 0, 0, step, [1, 2]);
    JoinRuns(cfg, asked, asks, later, ends);
    states, steps := asked + later[1..], asks + ends;
    var fs := [1, 2];
    assert fs[0] == 1 && fs[1] == 2;
  }

  /** With the shipped configuration, an answer with Cache-Control: no-store is one of them. */
  lemma ShippedStampede(hash: VaryHash, defaultTtl: Time, capacity: int, limits: Limits, path: string)
    returns (states: seq<State>, steps: seq<Step>)
    ensures IsExecution(Shipped(hash, defaultTtl, capacity, limits), states, steps)
    ensures FetchesKey(states[|steps|], LookupKey(hash, path, []), 1)
    ensures FetchesKey(states[|steps|], LookupKey(hash, path, []), 2)
  {
    var cfg := Shipped(hash, defaultTtl, capacity, limits);
    var resp := OriginResponse([], 200, map["cache-control" := "no-store"], None);
    NoStoreRefused(resp, defaultTtl);
    assert cfg.read(resp) == ReadHeaders(resp, defaultTtl);
    states, steps := ThreeRequests(cfg, path, [], Complete(0, resp));
  }

  lemma NoStoreRefused(resp: OriginResponse, defaultTtl: Time)
    requires "cache-control" in resp.headers && resp.headers["cache-control"] == "no-store"
    ensures !ReadHeaders(resp, defaultTtl).cacheable
  {
    hide CacheControl.Parse;
    CacheControl.NoStoreForbids();
    assert CacheKeys.Get(resp.headers, "cache-control", "") == "no-store";
  }
}
