/** How much the service stores (src/application/cache_service.py, src/infrastructure/cache/lru_store.py). */
module ServiceStore {
  import opened Text
  import opened Entities
  import opened LruContents
  import opened BreakerSteps
  import opened CacheKeys
  import opened EdgeProtocol
  import opened Progress
  import opened Stampede
  import opened VaryIsolation

  /** The bytes of all stored bodies. */
  function BodyBytes(store: Contents): nat {
    if store == [] then 0 else |store[0].entry.content| + BodyBytes(store[1..])
  }

  lemma {:induction false} SizedTotal(store: Contents)
    requires forall it :: it in store ==> it.entry.size == |it.entry.content|
    ensures Total(store) == BodyBytes(store)
  {
    if store != [] {
      assert store[0] in store;
      SizedTotal(store[1..]);
    }
  }

  lemma NextFits(cfg: Config, s: State, step: Step)
    requires Distinct(s.store) && WithinCapacity(s.store, cfg.capacity) && Enabled(s, step)
    ensures WithinCapacity(Next(cfg, s, step).store, cfg.capacity)
  {
    hide Distinct, Filter, Evict, Lookup, Dispatch, WithinCapacity, Total;
    match step
    case Arrive(path, headers) =>
      StoreAfter(cfg, s, step);
      StepWithinCapacity(s.store, cfg.capacity, OpGet(cfg.lookupKey(path, headers), s.wall));
    case Resume(id) =>
      StoreAfter(cfg, s, step);
      StepWithinCapacity(s.store, cfg.capacity, OpGet(s.tasks[id].key, s.wall));
    case Complete(id, resp) =>
      var item := ToStore(cfg, s.tasks[id], resp, s.wall);
      if item.Some? {
        StepWithinCapacity(s.store, cfg.capacity, OpPut(item.value.key, item.value.entry));
      }
    case Purge(key) => StepWithinCapacity(s.store, cfg.capacity, OpDelete(key));
    case PurgePrefix(prefix) => StepWithinCapacity(s.store, cfg.capacity, OpDeletePrefix(prefix));
    case _ => StoreAfter(cfg, s, step);
  }

  lemma {:induction false} AlwaysFits(cfg: Config, states: seq<State>, steps: seq<Step>)
    requires IsExecution(cfg, states, steps)
    ensures WithinCapacity(states[|steps|].store, cfg.capacity)
    decreases |steps|
  {
    if steps != [] {
      var n := |steps| - 1;
      AlwaysFits(cfg, states[..n + 1], steps[..n]);
      AlwaysDistinct(cfg, states[..n + 1], steps[..n]);
      assert states[..n + 1][n] == states[n];
      NextFits(cfg, states[n], steps[n]);
    }
  }

  /** In every execution the bodies that the service stores fit into its capacity together, unless there is only one. */
  lemma BodiesFit(cfg: Config, states: seq<State>, steps: seq<Step>)
    requires IsExecution(cfg, states, steps)
    ensures BodyBytes(states[|steps|].store) <= cfg.capacity || |states[|steps|].store| <= 1
  {
    var s := states[|steps|];
    AlwaysFits(cfg, states, steps);
    AlwaysDerived(cfg, states, steps);
    forall it | it in s.store ensures it.entry.size == |it.entry.content| {
      var r :| Comes(cfg, s.sent, r, it.key, it.entry);
    }
    SizedTotal(s.store);
  }
}
