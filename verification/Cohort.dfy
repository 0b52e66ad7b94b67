/** What the followers of a leader receive (src/application/cache_service.py). */
module Cohort {
  import opened Text
  import opened Entities
  import opened LruContents
  import opened BreakerSteps
  import opened CacheKeys
  import opened EdgeProtocol
  import opened Coalescing
  import opened Progress

  // ---------- lookups ----------

  lemma {:induction false} LookupConcat(a: Contents, b: Contents, k: Key)
    ensures Lookup(a + b, k) == if Lookup(a, k).Some? then Lookup(a, k) else Lookup(b, k)
  {
    if a == [] {
      assert a + b == b;
    } else {
      assert (a + b)[1..] == a[1..] + b;
      LookupConcat(a[1..], b, k);
    }
  }

  /** What was just put is found. */
  lemma LookupPut(s: Contents, cap: int, it: Item)
    ensures Lookup(LruContents.Put(s, cap, it.key, it.entry), it.key) == Some(it.entry)
  {
    var others := Remove(s, it.key);
    RemovedKey(s, it.key);
    EvictFresh(others, it.entry.size, cap, it.key);
    LookupConcat(Evict(others, it.entry.size, cap), [it], it.key);
  }

  lemma {:induction false} LookupOther(s: Contents, k: Key, o: Key)
    requires k != o
    ensures Lookup(Remove(s, k), o) == Lookup(s, o)
  {
    if s != [] {
      LookupOther(s[1..], k, o);
    }
  }

  /** A get leaves every key where a lookup finds it, up to the time stamp. */
  lemma LookupAfterGet(s: Contents, k: Key, now: Time, o: Key)
    ensures Lookup(LruContents.Get(s, k, now), o) ==
      if o == k && Lookup(s, k).Some? then Some(Lookup(s, k).value.Touch(now)) else Lookup(s, o)
  {
    var found := Lookup(s, k);
    if found.Some? {
      LookupConcat(Remove(s, k), [Item(k, found.value.Touch(now))], o);
      if o == k {
        RemovedKey(s, k);
      } else {
        LookupOther(s, k, o);
      }
    }
  }

  // ---------- the cohort ----------

  /** The key is resident with this content, status and headers. */
  ghost predicate Holds(s: State, key: Key, reply: Reply) {
    Lookup(s.store, key).Some? && Cached(Lookup(s.store, key).value, false) == reply
  }

  /** The leader's response is stored under the key that its followers look up. */
  ghost predicate StoresForFollowers(cfg: Config, t: Task, resp: OriginResponse, now: Time) {
    ToStore(cfg, t, resp, now).Some? && ToStore(cfg, t, resp, now).value.key == t.key
  }

  /** When the leader completes, its event is set and the key holds what it returns. */
  lemma LeaderCompletes(cfg: Config, s: State, leader: nat, ev: nat, resp: OriginResponse)
    requires Safe(s) && leader < |s.tasks| && LeadsOn(s.tasks[leader], ev)
    requires StoresForFollowers(cfg, s.tasks[leader], resp, s.wall)
    ensures var after := Next(cfg, s, Complete(leader, resp));
      && ev < |after.events| && after.events[ev]
      && Holds(after, s.tasks[leader].key, ToReturn(cfg, s.tasks[leader], resp))
  {
    assert LeaderRegistered(s.tasks[leader], s.inflight, s.events);
    LookupPut(s.store, cfg.capacity, ToStore(cfg, s.tasks[leader], resp, s.wall).value);
  }

  /** A member of the cohort: still waiting on the event, which is set, or ended with the reply or by
      cancellation; in every case without a fetch. */
  ghost predicate Member(s: State, f: nat, key: Key, ev: nat, reply: Reply) {
    && f < |s.tasks| && s.tasks[f].key == key && s.tasks[f].fetches == 0
    && ev < |s.events| && s.events[ev]
    && (s.tasks[f].phase == Waiting(ev)
        || s.tasks[f].phase == Done(Replied(reply)) || s.tasks[f].phase == Done(Cancelled))
  }

  lemma NextEvents(cfg: Config, s: State, step: Step, ev: nat)
    requires Enabled(s, step) && ev < |s.events| && s.events[ev]
    ensures ev < |Next(cfg, s, step).events| && Next(cfg, s, step).events[ev]
  {
    hide Lookup, Filter, Evict, ToStore, ToReturn, StaleOr503, Success, Failure, Enter;
  }

  lemma NextMember(cfg: Config, s: State, step: Step, f: nat, key: Key, ev: nat, reply: Reply)
    requires Member(s, f, key, ev, reply) && Enabled(s, step)
    requires step == Resume(f) ==> Holds(s, key, reply)
    ensures Member(Next(cfg, s, step), f, key, ev, reply)
  {
    NextEvents(cfg, s, step, ev);
    if step.Arrive? {
      var k := cfg.lookupKey(step.path, step.headers);
      var added := DispatchAdds(cfg, s.(store := LruContents.Get(s.store, k, s.wall)),
        Task(step.path, step.headers, k, Touched(Lookup(s.store, k), s.wall), Done(Cancelled), 0, 0));
    } else if OfTask(step) {
      if step.id == f {
        assert step.Resume? || step.Cancel?;
      } else {
        var t := OnlyThatTask(cfg, s, step);
      }
    }
  }

  /** When the follower resumes, if it does, the key holds the reply. */
  ghost predicate HeldAtResume(states: seq<State>, steps: seq<Step>, f: nat, key: Key, reply: Reply)
    requires |states| == |steps| + 1
  {
    forall n :: 0 <= n < |steps| && steps[n] == Resume(f) ==> Holds(states[n], key, reply)
  }

  lemma HeldInPrefix(states: seq<State>, steps: seq<Step>, f: nat, key: Key, reply: Reply, n: nat)
    requires |states| == |steps| + 1 && n <= |steps| && HeldAtResume(states, steps, f, key, reply)
    ensures HeldAtResume(states[..n + 1], steps[..n], f, key, reply)
  {
    var prefix := states[..n + 1];
    forall m | 0 <= m < n && steps[..n][m] == Resume(f) ensures Holds(prefix[m], key, reply) {
      assert prefix[m] == states[m];
    }
  }

  lemma {:induction false} MembersStay(cfg: Config, states: seq<State>, steps: seq<Step>,
                                       f: nat, key: Key, ev: nat, reply: Reply)
    requires IsRun(cfg, states, steps) && Member(states[0], f, key, ev, reply)
    requires HeldAtResume(states, steps, f, key, reply)
    ensures Member(states[|steps|], f, key, ev, reply)
    decreases |steps|
  {
    if steps != [] {
      var n := |steps| - 1;
      HeldInPrefix(states, steps, f, key, reply, n);
      MembersStay(cfg, states[..n + 1], steps[..n], f, key, ev, reply);
      assert states[..n + 1][n] == states[n];
      NextMember(cfg, states[n], steps[n], f, key, ev, reply);
    }
  }

  /** Cohort: if a leader's response is stored under the key its followers look up, then none of any number of
      followers that finds it still there when it resumes contacts the origin, whatever else the run does; it is
      blocked, or cancelled, or has returned the leader's content, status and headers. The run starts when the
      leader completes. */
  lemma CohortServed(cfg: Config, s: State, leader: nat, ev: nat, resp: OriginResponse,
                     states: seq<State>, steps: seq<Step>)
    requires Safe(s) && Orderly(s) && leader < |s.tasks| && LeadsOn(s.tasks[leader], ev)
    requires StoresForFollowers(cfg, s.tasks[leader], resp, s.wall)
    requires IsRun(cfg, states, steps) && states[0] == Next(cfg, s, Complete(leader, resp))
    ensures Holds(states[0], s.tasks[leader].key, ToReturn(cfg, s.tasks[leader], resp))
    ensures var key, reply := s.tasks[leader].key, ToReturn(cfg, s.tasks[leader], resp);
      forall f :: 0 <= f < |s.tasks| && s.tasks[f].phase == Waiting(ev) ==>
        HeldAtResume(states, steps, f, key, reply) ==> Member(states[|steps|], f, key, ev, reply)
  {
    hide ToStore, ToReturn, Filter, Evict, Success;
    var key, reply := s.tasks[leader].key, ToReturn(cfg, s.tasks[leader], resp);
    LeaderCompletes(cfg, s, leader, ev, resp);
    forall f | 0 <= f < |s.tasks| && s.tasks[f].phase == Waiting(ev) && HeldAtResume(states, steps, f, key, reply)
      ensures Member(states[|steps|], f, key, ev, reply)
    {
      FollowersShareKey(s, leader, f, ev);
      assert AtMostOnce(s.tasks[f]);
      var t := OnlyThatTask(cfg, s, Complete(leader, resp));
      assert Member(states[0], f, key, ev, reply);
      MembersStay(cfg, states, steps, f, key, ev, reply);
    }
  }

  /** The followers of a leader's event wait for the leader's key. */
  lemma FollowersShareKey(s: State, leader: nat, f: nat, ev: nat)
    requires Safe(s) && leader < |s.tasks| && LeadsOn(s.tasks[leader], ev)
    requires f < |s.tasks| && s.tasks[f].phase == Waiting(ev)
    ensures s.tasks[f].key == s.tasks[leader].key
  {
    assert LeaderRegistered(s.tasks[leader], s.inflight, s.events);
    assert FollowerWillWake(s.tasks[f], s.inflight, s.events);
    var key := s.tasks[f].key;
    assert HasLeader(s.tasks, key, s.inflight[key]);
    var i :| 0 <= i < |s.tasks| && s.tasks[i].key == key && LeadsOn(s.tasks[i], ev);
    assert i == leader;
  }

  /** Lookups, refusals, failures, cancellations and the clock leave what a key holds alone. */
  lemma StaysHeld(cfg: Config, s: State, step: Step, key: Key, reply: Reply)
    requires Holds(s, key, reply) && Enabled(s, step)
    requires !step.Complete? && !step.Purge? && !step.PurgePrefix?
    ensures Holds(Next(cfg, s, step), key, reply)
  {
    StoreAfter(cfg, s, step);
    if step.Arrive? {
      LookupAfterGet(s.store, cfg.lookupKey(step.path, step.headers), s.wall, key);
    } else if step.Resume? {
      LookupAfterGet(s.store, s.tasks[step.id].key, s.wall, key);
    }
  }

  /** With the shipped keys, a new response is stored for the followers in exactly the cases of
      StoreKeyIsLookupKey; a cacheable 304 always is. */
  lemma ShippedStoresForFollowers(hash: VaryHash, defaultTtl: Time, capacity: int, limits: Limits,
                                  t: Task, resp: OriginResponse, now: Time)
    requires t.key == LookupKey(hash, t.path, t.headers)
    requires ReadHeaders(resp, defaultTtl).cacheable
    requires (resp.statusCode == 304 && t.cached.Some?)
      || StoredWhereLookedUp(t.headers, ReadHeaders(resp, defaultTtl).vary)
    ensures StoresForFollowers(Shipped(hash, defaultTtl, capacity, limits), t, resp, now)
  {
    StoreKeyIsLookupKey(hash, t.path, t.headers, ReadHeaders(resp, defaultTtl).vary);
  }

  // ---------- without assuming what the lookups find ----------

  /** Steps that can change what a key holds. */
  predicate Disturbs(step: Step) { step.Complete? || step.Purge? || step.PurgePrefix? }

  /** Nothing is stored or purged before the follower resumes. */
  ghost predicate UndisturbedUntil(steps: seq<Step>, f: nat) {
    forall m, n :: 0 <= m < n < |steps| && steps[n] == Resume(f) ==> !Disturbs(steps[m])
  }

  lemma {:induction false} HoldsOn(cfg: Config, states: seq<State>, steps: seq<Step>, key: Key, reply: Reply, n: nat)
    requires IsRun(cfg, states, steps) && Holds(states[0], key, reply)
    requires n <= |steps| && forall m :: 0 <= m < n ==> !Disturbs(steps[m])
    ensures Holds(states[n], key, reply)
  {
    hide Next, Enabled, Holds;
    if n > 0 {
      HoldsOn(cfg, states, steps, key, reply, n - 1);
      StaysHeld(cfg, states[n - 1], steps[n - 1], key, reply);
    }
  }

  /** The cohort again, with a condition on the steps of the run only: after a leader's answer is stored under its
      followers' key, every follower that resumes before anything else is stored or purged is served by it. */
  lemma CohortUndisturbed(cfg: Config, s: State, leader: nat, ev: nat, resp: OriginResponse,
                          states: seq<State>, steps: seq<Step>)
    requires Safe(s) && Orderly(s) && leader < |s.tasks| && LeadsOn(s.tasks[leader], ev)
    requires StoresForFollowers(cfg, s.tasks[leader], resp, s.wall)
    requires IsRun(cfg, states, steps) && states[0] == Next(cfg, s, Complete(leader, resp))
    ensures var key, reply := s.tasks[leader].key, ToReturn(cfg, s.tasks[leader], resp);
      forall f :: 0 <= f < |s.tasks| && s.tasks[f].phase == Waiting(ev) ==>
        UndisturbedUntil(steps, f) ==> Member(states[|steps|], f, key, ev, reply)
  {
    hide Next, Enabled, Holds, Safe, Orderly, ToReturn, StoresForFollowers, Member;
    var key, reply := s.tasks[leader].key, ToReturn(cfg, s.tasks[leader], resp);
    CohortServed(cfg, s, leader, ev, resp, states, steps);
    forall f | 0 <= f < |s.tasks| && s.tasks[f].phase == Waiting(ev) && UndisturbedUntil(steps, f)
      ensures Member(states[|steps|], f, key, ev, reply)
    {
      forall n | 0 <= n < |steps| && steps[n] == Resume(f) ensures Holds(states[n], key, reply) {
        HoldsOn(cfg, states, steps, key, reply, n);
      }
    }
  }
}
