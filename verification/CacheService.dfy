/** CacheService as an object updated in place (src/application/cache_service.py): each method is what one
    coroutine does between two suspension points, and together they are a run of the edge protocol. */
module CacheService {
  import opened Text
  import opened Entities
  import opened LruContents
  import opened BreakerSteps
  import opened CacheKeys
  import opened EdgeProtocol
  import opened LruStore
  import opened CircuitBreaker
  import opened Coalescing

  /** The same moment of the protocol at later clock readings. */
  ghost function At(s: State, wall: Time, mono: Time): State { s.(wall := wall, mono := mono) }

  class CacheService {
    const cfg: Config
    const cacheStore: LRUCacheStore
    const circuitBreaker: CircuitBreaker

    var inflight: map<Key, nat>
    var revalidationTasks: set<nat>

    /** What the event loop keeps: the coroutines with their locals, and the events they created. */
    var tasks: seq<Task>
    var events: seq<bool>

    ghost var wall: Time
    ghost var mono: Time
    ghost var sent: seq<Sent>

    /** The run so far. */
    ghost var states: seq<State>
    ghost var steps: seq<Step>

    ghost function View(): State
      reads this, cacheStore, circuitBreaker
    {
      State(tasks, inflight, events, revalidationTasks, cacheStore.store, circuitBreaker.Abs(), wall, mono, sent)
    }

    ghost predicate Intact()
      reads this, cacheStore, circuitBreaker
    {
      && cacheStore.Valid() && cacheStore.onEvict == null && cacheStore.maxSizeBytes == cfg.capacity
      && circuitBreaker.Valid() && circuitBreaker.limits == cfg.limits
    }

    /** The parts are intact, and the object is in the state that its run has led to. */
    ghost predicate Valid()
      reads this, cacheStore, circuitBreaker
    {
      Intact() && IsExecution(cfg, states, steps) && states[|steps|] == View()
    }

    constructor (cfg: Config)
      ensures Valid() && this.cfg == cfg && View() == START && steps == []
      ensures fresh(cacheStore) && fresh(circuitBreaker)
    {
      this.cfg := cfg;
      cacheStore := new LRUCacheStore(cfg.capacity, null);
      circuitBreaker := new CircuitBreaker(cfg.limits);
      inflight := map[];
      revalidationTasks := {};
      tasks, events := [], [];
      wall, mono, sent := 0.0, 0.0, [];
      states, steps := [START], [];
    }

    /** Time passes before a coroutine is resumed. */
    ghost method Clock(wall: Time, mono: Time)
      requires Valid() && this.wall <= wall && this.mono <= mono
      modifies this`wall, this`mono, this`states, this`steps
      ensures Valid() && View() == At(old(View()), wall, mono)
      ensures steps == old(steps) + [Tick(wall, mono)]
    {
      hide Distinct, Total;
      ExtendExecution(cfg, states, steps, Tick(wall, mono));
      this.wall, this.mono := wall, mono;
      states, steps := states + [View()], steps + [Tick(wall, mono)];
    }

    /** A coroutine has run up to its next suspension point. */
    ghost method Took(step: Step)
      requires Intact() && IsExecution(cfg, states, steps) && Enabled(states[|steps|], step)
      requires View() == Next(cfg, states[|steps|], step)
      modifies this`states, this`steps
      ensures Valid() && View() == old(View()) && steps == old(steps) + [step]
    {
      hide Next, Enabled, Distinct, Total;
      ExtendExecution(cfg, states, steps, step);
      states, steps := states + [View()], steps + [step];
    }

    // ---------- get_or_fetch ----------

    /** A request arrives: the first part of get_or_fetch. Its coroutine is tasks[id]. */
    method GetOrFetch(path: string, headers: RequestHeaders, wall: Time, mono: Time) returns (id: nat)
      requires Valid() && this.wall <= wall && this.mono <= mono
      modifies this, cacheStore, circuitBreaker
      ensures Valid() && id == |old(tasks)|
      ensures View() == Next(cfg, At(old(View()), wall, mono), Arrive(path, headers))
      ensures steps == old(steps) + [Tick(wall, mono), Arrive(path, headers)]
    {
      hide Lookup, Distinct, Filter, Total;
      Clock(wall, mono);
      id := |tasks|;
      var key := cfg.lookupKey(path, headers);
      var cached := cacheStore.Get(key, wall);
      Serve(Task(path, headers, key, cached, Done(Cancelled), 0, 0), wall, mono);
      Took(Arrive(path, headers));
    }

    /** After the lookup: a hit, a stale hit, an open circuit, a follower, or a leader. */
    method Serve(t: Task, wall: Time, mono: Time)
      requires Intact() && this.wall == wall && this.mono == mono
      modifies this`tasks, this`events, this`inflight, this`revalidationTasks, circuitBreaker
      ensures Intact() && View() == Dispatch(cfg, old(View()), t)
    {
      hide Distinct, Total;
      if t.cached.Some? && !t.cached.value.IsExpired(wall) {
        Return(t, Replied(Cached(t.cached.value, true)));
        return;
      }
      if t.cached.Some? && t.cached.value.IsStaleServable(wall) {
        Return(t, Replied(Cached(t.cached.value, true)));
        ScheduleBackgroundRevalidation(t);
        return;
      }
      if circuitBreaker.State(mono) == Open {
        Return(t, Replied(StaleOr503(t.cached)));
        return;
      }
      if t.key in inflight {
        tasks := tasks + [t.(phase := Waiting(inflight[t.key]), waits := 1)];
        return;
      }
      FetchAsLeader(t, mono);
    }

    method Return(t: Task, ending: Ending)
      modifies this`tasks
      ensures tasks == old(tasks) + [t.(phase := Done(ending))]
    {
      tasks := tasks + [t.(phase := Done(ending))];
    }

    method ScheduleBackgroundRevalidation(t: Task)
      modifies this`tasks, this`revalidationTasks
      ensures View() == ScheduleRevalidation(old(View()), t)
    {
      if t.key in inflight {
        return;
      }
      revalidationTasks := revalidationTasks + {|tasks|};
      tasks := tasks + [t.(phase := Scheduled)];
    }

    /** The leader path: the event is registered before the breaker is entered, and the finally block
        undoes that when the breaker refuses. */
    method FetchAsLeader(t: Task, mono: Time)
      requires Intact() && this.mono == mono && t.key !in inflight
      modifies this`tasks, this`events, this`inflight, circuitBreaker
      ensures Intact() && View() == Lead(cfg, old(View()), t)
    {
      hide Distinct, Total;
      var ev := |events|;
      events := events + [false];
      inflight := inflight[t.key := ev];
      var refused := circuitBreaker.AEnter(mono);
      if refused.None? {
        tasks := tasks + [t.(phase := Fetching(Leader(ev)), fetches := 1)];
        return;
      }
      Return(t, if refused.value.CircuitOpen? then Replied(StaleOr503(t.cached)) else Raised);
      Release(ev, t.key);
    }

    /** event.set() and _inflight.pop(key_str, None) */
    method Release(ev: nat, key: Key)
      requires ev < |events|
      modifies this`events, this`inflight
      ensures events == old(events)[ev := true] && inflight == old(inflight) - {key}
    {
      events := events[ev := true];
      inflight := inflight - {key};
    }

    /** A follower wakes: look again, and fetch without leading if there is still nothing. */
    method AfterWait(id: nat, wall: Time, mono: Time)
      requires Valid() && this.wall <= wall && this.mono <= mono
      requires Enabled(View(), Resume(id))
      modifies this, cacheStore, circuitBreaker
      ensures Valid()
      ensures View() == Next(cfg, At(old(View()), wall, mono), Resume(id))
      ensures steps == old(steps) + [Tick(wall, mono), Resume(id)]
    {
      hide Lookup, Distinct, Filter, Total;
      Clock(wall, mono);
      var cachedAfter := cacheStore.Get(tasks[id].key, wall);
      if cachedAfter.Some? {
        tasks := tasks[id := tasks[id].(phase := Done(Replied(Cached(cachedAfter.value, false))))];
      } else {
        EnterFetch(id, Follower, mono);
      }
      Took(Resume(id));
    }

    /** A background revalidation starts. */
    method Revalidate(id: nat, wall: Time, mono: Time)
      requires Valid() && this.wall <= wall && this.mono <= mono
      requires Enabled(View(), Launch(id))
      modifies this, cacheStore, circuitBreaker
      ensures Valid()
      ensures View() == Next(cfg, At(old(View()), wall, mono), Launch(id))
      ensures steps == old(steps) + [Tick(wall, mono), Launch(id)]
    {
      hide Lookup, Distinct, Filter, Total;
      Clock(wall, mono);
      EnterFetch(id, Background, mono);
      Took(Launch(id));
    }

    // ---------- _do_fetch_and_cache ----------

    /** Up to the fetch: enter the breaker. */
    method EnterFetch(id: nat, role: Role, mono: Time)
      requires Intact() && this.mono == mono && id < |tasks|
      modifies this`tasks, this`events, this`inflight, this`revalidationTasks, circuitBreaker
      ensures Intact() && View() == BeginFetch(cfg, old(View()), id, role)
    {
      hide Distinct, Total;
      var t := tasks[id];
      var refused := circuitBreaker.AEnter(mono);
      if refused.None? {
        tasks := tasks[id := t.(phase := Fetching(role), fetches := t.fetches + 1)];
        return;
      }
      tasks := tasks[id := t.(phase := Done(if refused.value.CircuitOpen? then RefusedByCircuit else Raised))];
      FinallyOf(id, role, t.key);
    }

    /** The finally blocks around the fetch. */
    method FinallyOf(id: nat, role: Role, key: Key)
      modifies this`events, this`inflight, this`revalidationTasks
      ensures View() == Finish(old(View()), id, role, key)
    {
      match role
      case Leader(ev) =>
        if ev < |events| {
          Release(ev, key);
        }
      case Follower =>
      case Background =>
        revalidationTasks := revalidationTasks - {id};
    }

    /** The origin answers: leave the breaker, store what may be stored, and return. */
    method FetchReturns(id: nat, resp: OriginResponse, wall: Time, mono: Time)
      requires Valid() && this.wall <= wall && this.mono <= mono
      requires Enabled(View(), Complete(id, resp))
      modifies this, cacheStore, circuitBreaker
      ensures Valid()
      ensures View() == Next(cfg, At(old(View()), wall, mono), Complete(id, resp))
      ensures steps == old(steps) + [Tick(wall, mono), Complete(id, resp)]
    {
      hide Lookup, Distinct, Filter, Total, Evict, ToStore, ToReturn, Success, Failure, IsExecution;
      Clock(wall, mono);
      var t := tasks[id];
      circuitBreaker.AExit(false, mono);
      sent := sent + [Record(id, t, resp)];
      var reply := StoreResponse(t, resp, wall);
      tasks := tasks[id := t.(phase := Done(Replied(reply)))];
      FinallyOf(id, t.phase.role, t.key);
      Took(Complete(id, resp));
    }

    /** From the response to what is stored and returned. */
    method StoreResponse(t: Task, resp: OriginResponse, wall: Time) returns (reply: Reply)
      requires Intact()
      modifies cacheStore
      ensures Intact() && View() == StoreItem(old(View()), cfg, ToStore(cfg, t, resp, wall))
      ensures reply == ToReturn(cfg, t, resp)
    {
      hide Lookup, Distinct, Filter, Total, Evict;
      var directives := cfg.read(resp);
      if !directives.cacheable {
        return Reply(resp.content, resp.statusCode, resp.headers, false);
      }
      var varies := directives.vary.Some? && directives.vary.value != [];
      if resp.statusCode == 304 && t.cached.Some? {
        var e := t.cached.value;
        var refreshed := CacheEntry(e.content, e.headers, e.etag, wall, directives.ttl, wall, e.size, e.statusCode,
                                    directives.staleWindow, if varies then directives.vary else e.varyHeaders);
        cacheStore.Put(t.key, refreshed);
        return Cached(refreshed, false);
      }
      var key := t.key;
      if varies && t.headers != [] {
        key := cfg.storeKey(t.path, t.headers, directives.vary);
      }
      var entry := CacheEntry(resp.content, resp.headers, resp.etag, wall, directives.ttl, wall, |resp.content|,
                              resp.statusCode, directives.staleWindow, directives.vary);
      cacheStore.Put(key, entry);
      reply := Reply(resp.content, resp.statusCode, resp.headers, false);
    }

    /** The fetch ends with an exception. */
    method FetchRaises(id: nat, ending: Ending, mono: Time)
      requires Intact() && this.mono == mono && id < |tasks| && tasks[id].phase.Fetching?
      modifies this`tasks, this`events, this`inflight, this`revalidationTasks, circuitBreaker
      ensures Intact() && View() == DoEnd(cfg, old(View()), id, ending)
    {
      hide Distinct, Total;
      var t := tasks[id];
      circuitBreaker.AExit(true, mono);
      tasks := tasks[id := t.(phase := Done(ending))];
      FinallyOf(id, t.phase.role, t.key);
    }

    /** The origin client raises. */
    method FetchFails(id: nat, wall: Time, mono: Time)
      requires Valid() && this.wall <= wall && this.mono <= mono
      requires Enabled(View(), Fail(id))
      modifies this, cacheStore, circuitBreaker
      ensures Valid()
      ensures View() == Next(cfg, At(old(View()), wall, mono), Fail(id))
      ensures steps == old(steps) + [Tick(wall, mono), Fail(id)]
    {
      hide Lookup, Distinct, Filter, Total;
      Clock(wall, mono);
      FetchRaises(id, Raised, mono);
      Took(Fail(id));
    }

    /** A coroutine is cancelled, wherever it is suspended. */
    method CancelTask(id: nat, wall: Time, mono: Time)
      requires Valid() && this.wall <= wall && this.mono <= mono
      requires Enabled(View(), Cancel(id))
      modifies this, cacheStore, circuitBreaker
      ensures Valid()
      ensures View() == Next(cfg, At(old(View()), wall, mono), Cancel(id))
      ensures steps == old(steps) + [Tick(wall, mono), Cancel(id)]
    {
      hide Lookup, Distinct, Filter, Total;
      Clock(wall, mono);
      if tasks[id].phase.Fetching? {
        FetchRaises(id, Cancelled, mono);
      } else {
        tasks := tasks[id := tasks[id].(phase := Done(Cancelled))];
      }
      Took(Cancel(id));
    }

    /** The purge endpoint deletes from the service's store. */
    method PurgeKey(key: Key, wall: Time, mono: Time) returns (deleted: bool)
      requires Valid() && this.wall <= wall && this.mono <= mono
      modifies this, cacheStore
      ensures Valid() && deleted == Has(old(cacheStore.store), key)
      ensures View() == Next(cfg, At(old(View()), wall, mono), Purge(key))
      ensures steps == old(steps) + [Tick(wall, mono), Purge(key)]
    {
      hide Lookup, Distinct, Filter, Total;
      Clock(wall, mono);
      deleted := cacheStore.Delete(key);
      Took(Purge(key));
    }

    method PurgeByPrefix(prefix: string, wall: Time, mono: Time) returns (count: nat)
      requires Valid() && this.wall <= wall && this.mono <= mono
      modifies this, cacheStore
      ensures Valid() && count == |Filter(old(cacheStore.store), HasPrefix(prefix))|
      ensures View() == Next(cfg, At(old(View()), wall, mono), PurgePrefix(prefix))
      ensures steps == old(steps) + [Tick(wall, mono), PurgePrefix(prefix)]
    {
      hide Lookup, Distinct, Filter, Total;
      Clock(wall, mono);
      count := cacheStore.DeleteByPrefix(prefix);
      Took(PurgePrefix(prefix));
    }

    /** The object's registrations are coalescing-safe after every operation. */
    lemma AlwaysCoalesced()
      requires Valid()
      ensures Safe(View())
    {
      CoalescingSafety(cfg, states, steps);
    }
  }
}
