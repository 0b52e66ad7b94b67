/** When a stored entry is served without revalidation, and how many revalidations run at once
    (src/application/cache_service.py, src/infrastructure/cache_control.py). */
module Revalidation {
  import opened Text
  import opened Entities
  import opened LruContents
  import opened BreakerSteps
  import opened CacheKeys
  import opened EdgeProtocol
  import opened Coalescing
  import opened Progress
  import opened Cohort
  import opened Stampede
  import opened Staleness
  import opened Availability
  import CacheControl

  // ---------- what an arrival on a stored entry does ----------

  function Age(e: CacheEntry, now: Time): Time { now - e.createdAt }

  /** The breaker would refuse a call now. */
  predicate Refused(cfg: Config, s: State) { Enter(s.breaker, cfg.limits, s.mono).Err? }

  /** The request that arrives is answered at once with what is stored, stamped with the time. */
  ghost predicate ServedStored(s: State, after: State, e: CacheEntry) {
    |after.tasks| > |s.tasks| && after.tasks[|s.tasks|].phase == Done(Replied(Cached(e.Touch(s.wall), true)))
  }

  /** And no fetch is started or scheduled for it. */
  ghost predicate ServedQuietly(s: State, after: State, e: CacheEntry) {
    ServedStored(s, after, e) && |after.tasks| == |s.tasks| + 1 && after.tasks[|s.tasks|].fetches == 0
  }

  /** When a request that finds the entry is answered with it at once: inside its window, or when the breaker
      refuses (with a leader active, because the circuit is open). */
  predicate ServesAtOnce(cfg: Config, s: State, key: Key, e: CacheEntry) {
    || Age(e, s.wall) <= e.ttl + e.staleWhileRevalidate
    || (Refused(cfg, s) && (key in s.inflight ==> Visible(s.breaker, cfg.limits, s.mono) == Open))
  }

  /** When nothing is started or scheduled for it either: fresh, or in its window with a leader active, or past it. */
  predicate ServesQuietly(cfg: Config, s: State, key: Key, e: CacheEntry) {
    && ServesAtOnce(cfg, s, key, e)
    && (e.ttl < Age(e, s.wall) <= e.ttl + e.staleWhileRevalidate ==> key in s.inflight)
  }

  lemma DispatchServes(cfg: Config, s: State, t: Task, e: CacheEntry)
    requires Inv(s.breaker, cfg.limits) && e.staleWhileRevalidate >= 0.0
    requires t.cached == Some(e.Touch(s.wall)) && t.fetches == 0
    ensures ServedStored(s, Dispatch(cfg, s, t), e) <==> ServesAtOnce(cfg, s, t.key, e)
    ensures ServedQuietly(s, Dispatch(cfg, s, t), e) <==> ServesQuietly(cfg, s, t.key, e)
  {
  }

  /** A request that finds an entry is answered with it at once, in the step in which it arrives, if and only if
      ServesAtOnce, and with no fetch started or scheduled if and only if ServesQuietly. */
  lemma ServedWithoutFetchIff(cfg: Config, s: State, path: string, headers: RequestHeaders, e: CacheEntry)
    requires Inv(s.breaker, cfg.limits) && e.staleWhileRevalidate >= 0.0
    requires Lookup(s.store, cfg.lookupKey(path, headers)) == Some(e)
    ensures var key, after := cfg.lookupKey(path, headers), Next(cfg, s, Arrive(path, headers));
      && (ServedStored(s, after, e) <==> ServesAtOnce(cfg, s, key, e))
      && (ServedQuietly(s, after, e) <==> ServesQuietly(cfg, s, key, e))
  {
    var key := cfg.lookupKey(path, headers);
    hide Dispatch, Lookup, Filter;
    DispatchServes(cfg, s.(store := LruContents.Get(s.store, key, s.wall)),
                   Task(path, headers, key, Some(e.Touch(s.wall)), Done(Cancelled), 0, 0), e);
  }

  // ---------- what a follower is served ----------

  /** The follower that resumes is answered with the entry that was stored before its leader ended. */
  ghost predicate ServedOld(before: State, ended: State, resumed: State, f: nat) {
    && f < |before.tasks| && f < |resumed.tasks|
    && var was, found := Lookup(before.store, before.tasks[f].key), Lookup(ended.store, before.tasks[f].key);
      && found.Some? && found == was
      && resumed.tasks[f].phase == Done(Replied(Cached(found.value, false)))
  }

  /** A follower that resumes after its leader is answered with the old entry, which nobody has validated, if and only
      if its leader left no answer, by failing, being cancelled or getting one that is not stored for it, and the
      entry is still stored. Neither its age nor its window nor the breaker matters. */
  lemma FollowerServedOldIff(cfg: Config, s: State, leader: nat, ev: nat, step: Step, f: nat)
    requires Safe(s) && Distinct(s.store)
    requires leader < |s.tasks| && LeadsOn(s.tasks[leader], ev) && EndsLeader(step, leader)
    requires f < |s.tasks| && s.tasks[f].phase == Waiting(ev)
    ensures Enabled(s, step) && Enabled(Next(cfg, s, step), Resume(f))
    ensures var was, ended := Lookup(s.store, s.tasks[leader].key), Next(cfg, s, step);
      && (ServedOld(s, ended, Next(cfg, ended, Resume(f)), f) <==>
           || LeavesOld(cfg, s, step)
           || (LeavesAnswer(cfg, s, step)
               && was == Some(ToStore(cfg, s.tasks[leader], step.response, s.wall).value.entry)))
      && ((was.Some? ==> Age(was.value, s.wall) > 0.0) ==>
           (ServedOld(s, ended, Next(cfg, ended, Resume(f)), f) <==> LeavesOld(cfg, s, step)))
    ensures !step.Complete? ==> (LeavesOld(cfg, s, step) <==> Lookup(s.store, s.tasks[leader].key).Some?)
  {
    hide Next, Lookup, Spares, Distinct, Safe;
    LeaderEnded(cfg, s, leader, ev, step);
    FollowersShareKey(s, leader, f, ev);
    HeldAfterLeader(cfg, s, leader, step);
    Resumed(cfg, Next(cfg, s, step), f);
    if LeavesAnswer(cfg, s, step) {
      StoredNow(cfg, s.tasks[leader], step.response, s.wall);
    }
  }

  lemma StoredNow(cfg: Config, t: Task, resp: OriginResponse, now: Time)
    requires ToStore(cfg, t, resp, now).Some?
    ensures ToStore(cfg, t, resp, now).value.entry.createdAt == now
  {
  }

  // ---------- there is no third way ----------

  ghost predicate Answered(t: Task, reply: Reply) { t.phase == Done(Replied(reply)) }

  /** The synthetic answer: status 503, not a hit, with a fixed text. */
  ghost predicate IsSynthetic(reply: Reply) {
    && reply.status == 503 && !reply.hit
    && reply.content == Ascii("Service Unavailable: origin is down")
    && reply.headers == map["Content-Type" := "text/plain"]
  }

  /** The request arrives in this step and is answered with the entry it finds, or with the 503. */
  ghost predicate AtArrival(cfg: Config, s: State, step: Step, i: nat, reply: Reply) {
    && step.Arrive? && i == |s.tasks|
    && var key := cfg.lookupKey(step.path, step.headers);
      match Lookup(s.store, key)
      case None => IsSynthetic(reply)
      case Some(e) => reply == Cached(e, true) && ServesAtOnce(cfg, s, key, e)
  }

  /** The follower resumes in this step and is answered with the entry it finds. */
  ghost predicate AtResume(s: State, step: Step, i: nat, reply: Reply) {
    && step == Resume(i) && i < |s.tasks|
    && var found := Lookup(s.store, s.tasks[i].key);
      found.Some? && reply == Cached(found.value, false)
  }

  lemma DispatchAnswers(cfg: Config, s: State, t: Task, i: nat, reply: Reply)
    requires Inv(s.breaker, cfg.limits)
    requires t.cached.Some? ==> t.cached.value.staleWhileRevalidate >= 0.0
    requires |s.tasks| <= i < |Dispatch(cfg, s, t).tasks| && Answered(Dispatch(cfg, s, t).tasks[i], reply)
    ensures i == |s.tasks|
    ensures match t.cached
      case None => IsSynthetic(reply)
      case Some(e) => reply == Cached(e, true) && ServesAtOnce(cfg, s, t.key, e)
  {
    var added := DispatchAdds(cfg, s, t);
  }

  lemma NewAnswer(cfg: Config, s: State, step: Step, i: nat, reply: Reply)
    requires Inv(s.breaker, cfg.limits) && WindowsStored(s.store) && Orderly(s) && Enabled(s, step)
    requires i < |Next(cfg, s, step).tasks| && Answered(Next(cfg, s, step).tasks[i], reply)
    requires Next(cfg, s, step).tasks[i].fetches == 0
    ensures (i < |s.tasks| && s.tasks[i] == Next(cfg, s, step).tasks[i])
      || AtArrival(cfg, s, step, i, reply) || AtResume(s, step, i, reply)
  {
    hide Lookup, Filter, Dispatch, Evict;
    if step.Arrive? {
      var key := cfg.lookupKey(step.path, step.headers);
      var found := Lookup(s.store, key);
      var t := Task(step.path, step.headers, key, Touched(found, s.wall), Done(Cancelled), 0, 0);
      var looked := s.(store := LruContents.Get(s.store, key, s.wall));
      var added := DispatchAdds(cfg, looked, t);
      if i >= |s.tasks| {
        DispatchAnswers(cfg, looked, t, i, reply);
      }
    } else if OfTask(step) {
      var t := OnlyThatTask(cfg, s, step);
      if i == step.id {
        assert AtMostOnce(s.tasks[i]);
        if step.Resume? {
          Resumed(cfg, s, i);
          ResumedReply(cfg, s, i, reply);
        }
      }
    }
  }

  lemma ResumedReply(cfg: Config, s: State, f: nat, reply: Reply)
    requires Enabled(s, Resume(f)) && Answered(Next(cfg, s, Resume(f)).tasks[f], reply)
    ensures AtResume(s, Resume(f), f, reply)
  {
  }

  ghost predicate AnsweredInRun(cfg: Config, states: seq<State>, steps: seq<Step>, i: nat, reply: Reply)
    requires |states| == |steps| + 1
  {
    exists n :: 0 <= n < |steps|
      && (AtArrival(cfg, states[n], steps[n], i, reply) || AtResume(states[n], steps[n], i, reply))
  }

  lemma EarlierAnswer(cfg: Config, states: seq<State>, steps: seq<Step>, n: nat, i: nat, reply: Reply)
    requires |states| == |steps| + 1 && n <= |steps|
    requires AnsweredInRun(cfg, states[..n + 1], steps[..n], i, reply)
    ensures AnsweredInRun(cfg, states, steps, i, reply)
  {
    hide AtArrival, AtResume;
    var prefix := states[..n + 1];
    var m :| 0 <= m < n && (AtArrival(cfg, prefix[m], steps[..n][m], i, reply)
                            || AtResume(prefix[m], steps[..n][m], i, reply));
    assert prefix[m] == states[m] && steps[..n][m] == steps[m];
    assert AtArrival(cfg, states[m], steps[m], i, reply) || AtResume(states[m], steps[m], i, reply);
  }

  /** In every execution, a request answered without a fetch of its own was answered as it arrived, under
      ServesAtOnce or with the synthetic 503, or as a follower that found an entry when it resumed. */
  lemma {:induction false} UnfetchedAnswers(cfg: Config, states: seq<State>, steps: seq<Step>)
    requires Positive(cfg.limits) && Windows(cfg) && IsExecution(cfg, states, steps)
    ensures var tasks := states[|steps|].tasks;
      forall i, reply :: 0 <= i < |tasks| && tasks[i].fetches == 0 && Answered(tasks[i], reply) ==>
        AnsweredInRun(cfg, states, steps, i, reply)
    decreases |steps|
  {
    hide Next, Enabled, Orderly, Steady, AtArrival, AtResume, WindowsStored;
    if steps != [] {
      var n := |steps| - 1;
      var s, after := states[n], states[n + 1];
      UnfetchedAnswers(cfg, states[..n + 1], steps[..n]);
      AlwaysSteady(cfg, states[..n + 1], steps[..n]);
      AlwaysOrderly(cfg, states[..n + 1], steps[..n]);
      StalenessBound(cfg, states[..n + 1], steps[..n]);
      assert states[..n + 1][n] == s;
      SteadyInv(cfg, s);
      forall i, reply | 0 <= i < |after.tasks| && after.tasks[i].fetches == 0 && Answered(after.tasks[i], reply)
        ensures AnsweredInRun(cfg, states, steps, i, reply)
      {
        NewAnswer(cfg, s, steps[n], i, reply);
        if !(AtArrival(cfg, s, steps[n], i, reply) || AtResume(s, steps[n], i, reply)) {
          assert AnsweredInRun(cfg, states[..n + 1], steps[..n], i, reply);
          EarlierAnswer(cfg, states, steps, n, i, reply);
        }
      }
    }
  }

  lemma SteadyInv(cfg: Config, s: State)
    requires Steady(cfg, s)
    ensures Inv(s.breaker, cfg.limits)
  {
  }

  // ---------- no-cache ----------

  /** What the shipped service stores for an answer with no-cache has no time to live. */
  lemma NoCacheHasNoLife(hash: VaryHash, defaultTtl: Time, capacity: int, limits: Limits,
                         t: Task, resp: OriginResponse, now: Time)
    requires "cache-control" in resp.headers && resp.headers["cache-control"] != ""
    requires CacheControl.Parse(resp.headers["cache-control"]).noCache
    ensures var item := ToStore(Shipped(hash, defaultTtl, capacity, limits), t, resp, now);
      item.Some? ==> item.value.entry.ttl == 0.0 && item.value.entry.createdAt == now
  {
    hide CacheControl.Parse;
    assert ReadHeaders(resp, defaultTtl).ttl == 0.0;
  }

  /** What the first answer for a key leaves, when it may be stored and does not vary. */
  lemma FirstAnswer(cfg: Config, s: State, resp: OriginResponse)
    requires Safe(s) && |s.tasks| == 1 && LeadsOn(s.tasks[0], 0) && s.tasks[0].cached.None?
    requires s.breaker == INITIAL && cfg.read(resp).cacheable && cfg.read(resp).vary.None?
    ensures Enabled(s, Complete(0, resp))
    ensures var after, r := Next(cfg, s, Complete(0, resp)), cfg.read(resp);
      && |after.tasks| == 1 && after.breaker == INITIAL && after.wall == s.wall && after.mono == s.mono
      && s.tasks[0].key !in after.inflight
      && Lookup(after.store, s.tasks[0].key) == Some(CacheEntry(resp.content, resp.headers, resp.etag, s.wall, r.ttl,
           s.wall, |resp.content|, resp.statusCode, r.staleWindow, None))
  {
    LeaderEnded(cfg, s, 0, 0, Complete(0, resp));
    LookupPut(s.store, cfg.capacity, ToStore(cfg, s.tasks[0], resp, s.wall).value);
  }

  /** A leader's answer is stored, and at the same moment a second request for the key is answered with it as a
      hit, without a fetch: an entry with no time to live is not expired at age zero. */
  lemma ZeroLifeIsServed(cfg: Config, path: string, headers: RequestHeaders, resp: OriginResponse)
    returns (states: seq<State>, steps: seq<Step>)
    requires Positive(cfg.limits)
    requires var r := cfg.read(resp); r.cacheable && r.ttl == 0.0 && r.staleWindow >= 0.0 && r.vary.None?
    ensures steps == [Arrive(path, headers), Complete(0, resp), Arrive(path, headers)]
    ensures IsExecution(cfg, states, steps)
    ensures |states[3].tasks| == 2 && states[3].tasks[1].fetches == 0
    ensures states[3].tasks[1].phase == Done(Replied(Reply(resp.content, resp.statusCode, resp.headers, true)))
  {
    hide Next, Safe, Lookup;
    var key, ask := cfg.lookupKey(path, headers), Arrive(path, headers);
    MissStarts(cfg, START, path, headers);
    var s1 := Next(cfg, START, ask);
    CoalescingSafety(cfg, [START, s1], [ask]);
    FirstAnswer(cfg, s1, resp);
    var s2 := Next(cfg, s1, Complete(0, resp));
    ServedWithoutFetchIff(cfg, s2, path, headers, Lookup(s2.store, key).value);
    states, steps := [START, s1, s2, Next(cfg, s2, ask)], [ask, Complete(0, resp), ask];
  }

  /** The documentation of effective_ttl says that no-cache must always revalidate. In the shipped service an
      answer with Cache-Control: no-cache is stored and served as a hit without revalidation. */
  lemma NoCacheIsServed(hash: VaryHash, defaultTtl: Time, capacity: int, limits: Limits, path: string, body: Bytes)
    returns (states: seq<State>, steps: seq<Step>)
    requires Positive(limits)
    ensures IsExecution(Shipped(hash, defaultTtl, capacity, limits), states, steps)
    ensures var answer := OriginResponse(body, 200, map["cache-control" := "no-cache"], None);
      && steps == [Arrive(path, []), Complete(0, answer), Arrive(path, [])]
      && |states[3].tasks| == 2 && states[3].tasks[1].fetches == 0
      && states[3].tasks[1].phase == Done(Replied(Reply(body, 200, answer.headers, true)))
  {
    var cfg := Shipped(hash, defaultTtl, capacity, limits);
    var resp := OriginResponse(body, 200, map["cache-control" := "no-cache"], None);
    ReadNoCache(resp, defaultTtl);
    assert cfg.read(resp) == ReadHeaders(resp, defaultTtl);
    states, steps := ZeroLifeIsServed(cfg, path, [], resp);
  }

  lemma ReadNoCache(resp: OriginResponse, defaultTtl: Time)
    requires resp.headers == map["cache-control" := "no-cache"]
    ensures ReadHeaders(resp, defaultTtl) == Reading(true, 0.0, 0.0, None)
  {
    hide CacheControl.Parse;
    CacheControl.NoCacheAllows(defaultTtl);
    assert CacheKeys.Get(resp.headers, "cache-control", "") == "no-cache";
    assert CacheKeys.Get(resp.headers, "vary", "") == "";
  }

  /** A request for a key stored past its window, with the circuit closed, leads or waits for the leader. */
  lemma PastWindowStarts(cfg: Config, s: State, path: string, headers: RequestHeaders, e: CacheEntry)
    requires Lookup(s.store, cfg.lookupKey(path, headers)) == Some(e) && e.staleWhileRevalidate >= 0.0
    requires Age(e, s.wall) > e.ttl + e.staleWhileRevalidate && s.breaker.state == Closed
    ensures var key, after, n := cfg.lookupKey(path, headers), Next(cfg, s, Arrive(path, headers)), |s.tasks|;
      && |after.tasks| == n + 1 && after.tasks[..n] == s.tasks && after.tasks[n].key == key
      && after.breaker == s.breaker && after.wall == s.wall && Lookup(after.store, key) == Some(e.Touch(s.wall))
      && if key in s.inflight then after.tasks[n].phase == Waiting(s.inflight[key]) && after.inflight == s.inflight
         else LeadsOn(after.tasks[n], |s.events|) && after.inflight == s.inflight[key := |s.events|]
  {
    LookupAfterGet(s.store, cfg.lookupKey(path, headers), s.wall, cfg.lookupKey(path, headers));
    hide Lookup, Filter;
  }

  /** An answer is stored; any time after its window, a request leads, a second one waits for it, and the leader's
      fetch fails. The second request is then answered with the old entry, without a fetch of its own. */
  lemma OldIsServedToFollower(cfg: Config, path: string, headers: RequestHeaders, resp: OriginResponse, later: Time)
    returns (states: seq<State>, steps: seq<Step>)
    requires cfg.read(resp).cacheable && cfg.read(resp).vary.None? && cfg.read(resp).staleWindow >= 0.0
    requires later >= 0.0 && later > cfg.read(resp).ttl + cfg.read(resp).staleWindow
    ensures steps == [Arrive(path, headers), Complete(0, resp), Tick(later, 0.0), Arrive(path, headers),
                      Arrive(path, headers), Fail(1), Resume(2)]
    ensures IsExecution(cfg, states, steps)
    ensures states[3].wall == later && states[4].breaker == INITIAL && |states[7].tasks| == 3
    ensures states[7].tasks[2].fetches == 0
    ensures Answered(states[7].tasks[2], Reply(resp.content, resp.statusCode, resp.headers, false))
  {
    hide Next, Safe, Lookup, Orderly;
    var key, ask := cfg.lookupKey(path, headers), Arrive(path, headers);
    MissStarts(cfg, START, path, headers);
    var s1 := Next(cfg, START, ask);
    CoalescingSafety(cfg, [START, s1], [ask]);
    FirstAnswer(cfg, s1, resp);
    var s2 := Next(cfg, s1, Complete(0, resp));
    TickOnly(cfg, s2, later, 0.0);
    var s3 := Next(cfg, s2, Tick(later, 0.0));
    var s4, s5, e := TwoPastWindow(cfg, s3, path, headers, Lookup(s3.store, key).value);
    states, steps := [START, s1, s2, s3, s4, s5], [ask, Complete(0, resp), Tick(later, 0.0), ask, ask];
    CoalescingSafety(cfg, states, steps);
    AlwaysOrderly(cfg, states, steps);
    AlwaysDistinct(cfg, states, steps);
    FollowerIsServed(cfg, s5, 1, |s3.events|, 2, e);
    var s6 := Next(cfg, s5, Fail(1));
    var s7 := Next(cfg, s6, Resume(2));
    states := [START, s1, s2, s3, s4, s5, s6, s7];
    steps := [ask, Complete(0, resp), Tick(later, 0.0), ask, ask, Fail(1), Resume(2)];
  }

  /** Two requests for a key past its window, with no leader: one leads and one waits for it. */
  lemma TwoPastWindow(cfg: Config, s: State, path: string, headers: RequestHeaders, was: CacheEntry)
    returns (s1: State, s2: State, e: CacheEntry)
    requires Lookup(s.store, cfg.lookupKey(path, headers)) == Some(was) && was.staleWhileRevalidate >= 0.0
    requires Age(was, s.wall) > was.ttl + was.staleWhileRevalidate
    requires |s.tasks| == 1 && s.breaker == INITIAL && cfg.lookupKey(path, headers) !in s.inflight
    ensures s1 == Next(cfg, s, Arrive(path, headers)) && s2 == Next(cfg, s1, Arrive(path, headers))
    ensures s1.breaker == INITIAL && |s2.tasks| == 3
    ensures LeadsOn(s2.tasks[1], |s.events|) && s2.tasks[2].phase == Waiting(|s.events|)
    ensures s2.tasks[1].key == cfg.lookupKey(path, headers) && Lookup(s2.store, s2.tasks[1].key) == Some(e)
    ensures Cached(e, false) == Cached(was, false)
  {
    hide Next, Lookup;
    var ask := Arrive(path, headers);
    PastWindowStarts(cfg, s, path, headers, was);
    s1 := Next(cfg, s, ask);
    PastWindowStarts(cfg, s1, path, headers, was.Touch(s.wall));
    s2 := Next(cfg, s1, ask);
    e := was.Touch(s.wall).Touch(s1.wall);
    assert s2.tasks[1] == s2.tasks[..2][1] == s1.tasks[1];
  }

  lemma TickOnly(cfg: Config, s: State, wall: Time, mono: Time)
    requires s.wall <= wall && s.mono <= mono
    ensures Enabled(s, Tick(wall, mono)) && Next(cfg, s, Tick(wall, mono)) == s.(wall := wall, mono := mono)
  {
  }

  /** The leader's fetch fails and the follower resumes. */
  lemma FollowerIsServed(cfg: Config, s: State, leader: nat, ev: nat, f: nat, e: CacheEntry)
    requires Safe(s) && Orderly(s) && Distinct(s.store)
    requires leader < |s.tasks| && LeadsOn(s.tasks[leader], ev)
    requires f < |s.tasks| && s.tasks[f].phase == Waiting(ev)
    requires Lookup(s.store, s.tasks[leader].key) == Some(e)
    ensures Enabled(s, Fail(leader)) && Enabled(Next(cfg, s, Fail(leader)), Resume(f))
    ensures var after := Next(cfg, Next(cfg, s, Fail(leader)), Resume(f));
      && |after.tasks| == |s.tasks| && after.tasks[f].fetches == 0
      && Answered(after.tasks[f], Cached(e, false))
  {
    hide Next, Safe, Lookup, Distinct;
    assert AtMostOnce(s.tasks[f]);
    LeaderEnded(cfg, s, leader, ev, Fail(leader));
    FollowersShareKey(s, leader, f, ev);
    HeldAfterLeader(cfg, s, leader, Fail(leader));
    Resumed(cfg, Next(cfg, s, Fail(leader)), f);
  }

  /** So it goes with an answer with no-cache in the shipped service, however old the entry. */
  lemma OldNoCacheIsServed(hash: VaryHash, defaultTtl: Time, capacity: int, limits: Limits, path: string,
                           body: Bytes, later: Time)
    returns (states: seq<State>, steps: seq<Step>)
    requires later > 0.0
    ensures IsExecution(Shipped(hash, defaultTtl, capacity, limits), states, steps)
    ensures var answer := OriginResponse(body, 200, map["cache-control" := "no-cache"], None);
      && steps == [Arrive(path, []), Complete(0, answer), Tick(later, 0.0), Arrive(path, []), Arrive(path, []),
                   Fail(1), Resume(2)]
      && states[3].wall == later && states[4].breaker == INITIAL
      && |states[7].tasks| == 3 && states[7].tasks[2].fetches == 0
      && Answered(states[7].tasks[2], Reply(body, 200, answer.headers, false))
  {
    var cfg := Shipped(hash, defaultTtl, capacity, limits);
    var resp := OriginResponse(body, 200, map["cache-control" := "no-cache"], None);
    ReadNoCache(resp, defaultTtl);
    assert cfg.read(resp) == ReadHeaders(resp, defaultTtl);
    states, steps := OldIsServedToFollower(cfg, path, [], resp, later);
  }

  // ---------- revalidations of one key ----------

  /** The background tasks that have not started, for a key. */
  ghost function ScheduledFor(tasks: seq<Task>, key: Key): set<nat> {
    set i: nat | i < |tasks| && tasks[i].phase.Scheduled? && tasks[i].key == key
  }

  /** The key is stored past its time to live but inside its window, and no leader is active on it. */
  ghost predicate StaleHit(s: State, key: Key) {
    && key !in s.inflight && Lookup(s.store, key).Some?
    && Lookup(s.store, key).value.IsStaleServable(s.wall)
  }

  /** A request schedules a revalidation if and only if that is how it finds its key. */
  lemma SchedulesIff(cfg: Config, s: State, path: string, headers: RequestHeaders)
    ensures |Next(cfg, s, Arrive(path, headers)).tasks| == |s.tasks| + 2 <==> StaleHit(s, cfg.lookupKey(path, headers))
    ensures |Next(cfg, s, Arrive(path, headers)).tasks| <= |s.tasks| + 2
  {
  }

  /** One more request for such a key schedules one more revalidation, and the next one is in the same position. */
  lemma OneMoreRevalidation(cfg: Config, s: State, path: string, headers: RequestHeaders)
    requires StaleHit(s, cfg.lookupKey(path, headers))
    ensures var key, after := cfg.lookupKey(path, headers), Next(cfg, s, Arrive(path, headers));
      && StaleHit(after, key)
      && |ScheduledFor(after.tasks, key)| == |ScheduledFor(s.tasks, key)| + 1
  {
    hide Next, Lookup, Filter, ScheduledFor;
    var key := cfg.lookupKey(path, headers);
    StaleArrival(cfg, s, path, headers);
    LookupAfterGet(s.store, key, s.wall, key);
    ScheduledAfter(s.tasks, Next(cfg, s, Arrive(path, headers)).tasks, key);
  }

  lemma ScheduledAfter(tasks: seq<Task>, after: seq<Task>, key: Key)
    requires |after| == |tasks| + 2 && after[..|tasks|] == tasks
    requires !after[|tasks|].phase.Scheduled? && after[|tasks| + 1].phase.Scheduled? && after[|tasks| + 1].key == key
    ensures |ScheduledFor(after, key)| == |ScheduledFor(tasks, key)| + 1
  {
    var n: nat := |tasks| + 1;
    assert forall i :: 0 <= i < |tasks| ==> after[i] == after[..|tasks|][i];
    assert ScheduledFor(after, key) == ScheduledFor(tasks, key) + {n};
  }

  lemma StaleArrival(cfg: Config, s: State, path: string, headers: RequestHeaders)
    requires StaleHit(s, cfg.lookupKey(path, headers))
    ensures var key, after, n := cfg.lookupKey(path, headers), Next(cfg, s, Arrive(path, headers)), |s.tasks|;
      && |after.tasks| == n + 2 && after.tasks[..n] == s.tasks && after.tasks[n].phase.Done?
      && after.tasks[n + 1].phase.Scheduled? && after.tasks[n + 1].key == key
      && after.store == LruContents.Get(s.store, key, s.wall) && after.inflight == s.inflight && after.wall == s.wall
  {
  }

  /** The guard against revalidating twice looks at leaders only: n requests for a stale key with no leader
      schedule n revalidations of it, all waiting to start at once. */
  lemma {:induction false} RevalidationsPileUp(cfg: Config, s: State, path: string, headers: RequestHeaders, n: nat)
    returns (states: seq<State>, steps: seq<Step>)
    requires StaleHit(s, cfg.lookupKey(path, headers))
    ensures IsRun(cfg, states, steps) && states[0] == s && |steps| == n
    ensures forall i :: 0 <= i < n ==> steps[i] == Arrive(path, headers)
    ensures var key := cfg.lookupKey(path, headers);
      |ScheduledFor(states[n].tasks, key)| == |ScheduledFor(s.tasks, key)| + n
    decreases n
  {
    if n == 0 {
      states, steps := [s], [];
    } else {
      var ask := Arrive(path, headers);
      hide Next, StaleHit, ScheduledFor;
      OneMoreRevalidation(cfg, s, path, headers);
      var later, more := RevalidationsPileUp(cfg, Next(cfg, s, ask), path, headers, n - 1);
      ExtendRun(cfg, later, more, s, ask);
      states, steps := [s] + later, [ask] + more;
    }
  }
}
