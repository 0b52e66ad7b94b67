/** Invariants of stored entries: a property of an entry, its key and the history that new entries have, and that
    time stamps and later history do not affect, holds of everything stored in every execution. */
module StoredEntries {
  import opened Text
  import opened Entities
  import opened LruContents
  import opened BreakerSteps
  import opened CacheKeys
  import opened EdgeProtocol
  import opened Progress

  type Property = (seq<Sent>, Key, CacheEntry) -> bool

  /** The task looked up the key of its path and headers, and what it found has the property. */
  ghost predicate GoodTask(cfg: Config, p: Property, sent: seq<Sent>, t: Task) {
    && t.key == cfg.lookupKey(t.path, t.headers)
    && (t.cached.Some? ==> p(sent, t.key, t.cached.value))
  }

  /** What is stored for an answer to such a task has the property. */
  ghost predicate Preserves(cfg: Config, p: Property, sent: seq<Sent>,
                            id: nat, t: Task, resp: OriginResponse, now: Time) {
    GoodTask(cfg, p, sent, t) ==>
      var item := ToStore(cfg, t, resp, now);
      item.Some? ==> p(sent + [Record(id, t, resp)], item.value.key, item.value.entry)
  }

  ghost predicate Stable(cfg: Config, p: Property) {
    && (forall sent, k, e, now: Time :: p(sent, k, e) ==> p(sent, k, e.Touch(now)))
    && (forall sent, k, e, r :: p(sent, k, e) ==> p(sent + [r], k, e))
    && (forall sent, id, t, resp, now :: Preserves(cfg, p, sent, id, t, resp, now))
  }

  ghost predicate GoodStore(p: Property, sent: seq<Sent>, store: Contents) {
    forall it :: it in store ==> p(sent, it.key, it.entry)
  }

  ghost predicate GoodTasks(cfg: Config, p: Property, sent: seq<Sent>, tasks: seq<Task>) {
    forall i :: 0 <= i < |tasks| ==> GoodTask(cfg, p, sent, tasks[i])
  }

  lemma GetGood(cfg: Config, p: Property, sent: seq<Sent>, store: Contents, k: Key, now: Time)
    requires Stable(cfg, p) && GoodStore(p, sent, store)
    ensures GoodStore(p, sent, LruContents.Get(store, k, now))
    ensures Lookup(store, k).Some? ==> p(sent, k, Touched(Lookup(store, k), now).value)
  {
    var found := Lookup(store, k);
    if found.Some? {
      assert Item(k, found.value) in store;
    }
  }

  lemma PutGood(p: Property, sent: seq<Sent>, store: Contents, cap: int, it: Item)
    requires GoodStore(p, sent, store) && p(sent, it.key, it.entry)
    ensures GoodStore(p, sent, LruContents.Put(store, cap, it.key, it.entry))
  {
    EvictSplits(Remove(store, it.key), it.entry.size, cap);
  }

  lemma NextStoreGood(cfg: Config, p: Property, s: State, step: Step)
    requires Stable(cfg, p) && Enabled(s, step)
    requires GoodStore(p, s.sent, s.store) && GoodTasks(cfg, p, s.sent, s.tasks)
    ensures GoodStore(p, Next(cfg, s, step).sent, Next(cfg, s, step).store)
  {
    match step
    case Arrive(path, headers) =>
      HistoryAfter(cfg, s, step);
      StoreAfter(cfg, s, step);
      GetGood(cfg, p, s.sent, s.store, cfg.lookupKey(path, headers), s.wall);
    case Resume(id) =>
      HistoryAfter(cfg, s, step);
      StoreAfter(cfg, s, step);
      GetGood(cfg, p, s.sent, s.store, s.tasks[id].key, s.wall);
    case Complete(id, resp) =>
      var t, more := s.tasks[id], s.sent + [Record(id, s.tasks[id], resp)];
      assert Preserves(cfg, p, s.sent, id, t, resp, s.wall);
      assert GoodTask(cfg, p, s.sent, t);
      hide ToStore, GoodTask, Preserves;
      var item := ToStore(cfg, t, resp, s.wall);
      assert GoodStore(p, more, s.store);
      if item.Some? {
        StoredGood(cfg, p, s.sent, id, t, resp, s.wall);
        PutGood(p, more, s.store, cfg.capacity, item.value);
      }
    case Purge(key) => assert forall it :: it in Remove(s.store, key) ==> it in s.store;
    case PurgePrefix(prefix) => assert forall it :: it in DeletePrefix(s.store, prefix) ==> it in s.store;
    case _ =>
      HistoryAfter(cfg, s, step);
      StoreAfter(cfg, s, step);
  }

  lemma StoredGood(cfg: Config, p: Property, sent: seq<Sent>, id: nat, t: Task, resp: OriginResponse, now: Time)
    requires Preserves(cfg, p, sent, id, t, resp, now) && GoodTask(cfg, p, sent, t)
    requires ToStore(cfg, t, resp, now).Some?
    ensures var item := ToStore(cfg, t, resp, now).value; p(sent + [Record(id, t, resp)], item.key, item.entry)
  {
  }

  lemma HistoryAfter(cfg: Config, s: State, step: Step)
    requires Enabled(s, step)
    ensures Next(cfg, s, step).sent ==
      if step.Complete? then s.sent + [Record(step.id, s.tasks[step.id], step.response)] else s.sent
  {
    if step.Arrive? {
      var key := cfg.lookupKey(step.path, step.headers);
      DispatchHistory(cfg, s.(store := LruContents.Get(s.store, key, s.wall)),
                      Task(step.path, step.headers, key, Touched(Lookup(s.store, key), s.wall), Done(Cancelled), 0, 0));
    }
  }

  lemma DispatchHistory(cfg: Config, s: State, t: Task)
    ensures Dispatch(cfg, s, t).sent == s.sent
  {
  }

  /** A new task found what its key held; no task changes its path, headers, key or what it found. */
  lemma NextTasksGood(cfg: Config, p: Property, s: State, step: Step)
    requires Stable(cfg, p) && Enabled(s, step)
    requires GoodStore(p, s.sent, s.store) && GoodTasks(cfg, p, s.sent, s.tasks)
    ensures GoodTasks(cfg, p, Next(cfg, s, step).sent, Next(cfg, s, step).tasks)
  {
    HistoryAfter(cfg, s, step);
    var sent := Next(cfg, s, step).sent;
    forall i | 0 <= i < |s.tasks| ensures GoodTask(cfg, p, sent, s.tasks[i]) {
      assert GoodTask(cfg, p, s.sent, s.tasks[i]);
    }
    if step.Arrive? {
      var key := cfg.lookupKey(step.path, step.headers);
      GetGood(cfg, p, s.sent, s.store, key, s.wall);
      var t := Task(step.path, step.headers, key, Touched(Lookup(s.store, key), s.wall), Done(Cancelled), 0, 0);
      DispatchTasksGood(cfg, p, s.(store := LruContents.Get(s.store, key, s.wall)), t);
    } else if OfTask(step) {
      var phase, waits, fetches := TaskMoves(cfg, s, step);
    }
  }

  lemma DispatchTasksGood(cfg: Config, p: Property, s: State, t: Task)
    requires GoodTasks(cfg, p, s.sent, s.tasks) && GoodTask(cfg, p, s.sent, t)
    ensures GoodTasks(cfg, p, s.sent, Dispatch(cfg, s, t).tasks)
  {
  }

  lemma TaskMoves(cfg: Config, s: State, step: Step) returns (phase: Phase, waits: nat, fetches: nat)
    requires Enabled(s, step) && OfTask(step)
    ensures Next(cfg, s, step).tasks ==
      s.tasks[step.id := s.tasks[step.id].(phase := phase, waits := waits, fetches := fetches)]
  {
    hide Lookup, Filter, Evict, ToStore, ToReturn, StaleOr503, Success, Failure, Enter;
    var t := Next(cfg, s, step).tasks[step.id];
    phase, waits, fetches := t.phase, t.waits, t.fetches;
  }

  /** In every execution, every stored entry and everything that a task has found has the property. */
  lemma {:induction false} Always(cfg: Config, p: Property, states: seq<State>, steps: seq<Step>)
    requires Stable(cfg, p) && IsExecution(cfg, states, steps)
    ensures GoodStore(p, states[|steps|].sent, states[|steps|].store)
    ensures GoodTasks(cfg, p, states[|steps|].sent, states[|steps|].tasks)
    decreases |steps|
  {
    hide Next, Enabled, Stable;
    if steps != [] {
      var n := |steps| - 1;
      Always(cfg, p, states[..n + 1], steps[..n]);
      assert states[..n + 1][n] == states[n];
      NextStoreGood(cfg, p, states[n], steps[n]);
      NextTasksGood(cfg, p, states[n], steps[n]);
    }
  }
}
