/** Progress of the edge protocol: bounded work per request, and no state in which everybody waits
    (src/application/cache_service.py). */
module Progress {
  import opened Text
  import opened Entities
  import opened LruContents
  import opened BreakerSteps
  import opened CacheKeys
  import opened EdgeProtocol
  import opened Coalescing

  /** The steps a task can still take. */
  function Weight(t: Task): nat {
    match t.phase
    case Scheduled => 2
    case Waiting(_) => 2
    case Fetching(_) => 1
    case Done(_) => 0
  }

  function Work(tasks: seq<Task>): nat {
    if tasks == [] then 0 else Work(tasks[..|tasks| - 1]) + Weight(tasks[|tasks| - 1])
  }

  lemma WorkAppend(tasks: seq<Task>, t: Task)
    ensures Work(tasks + [t]) == Work(tasks) + Weight(t)
  {
    assert (tasks + [t])[..|tasks|] == tasks;
  }

  lemma {:induction false} WorkUpdate(tasks: seq<Task>, id: nat, t: Task)
    requires id < |tasks|
    ensures Work(tasks[id := t]) + Weight(tasks[id]) == Work(tasks) + Weight(t)
  {
    var n := |tasks| - 1;
    if id < n {
      WorkUpdate(tasks[..n], id, t);
      assert tasks[id := t][..n] == tasks[..n][id := t];
    } else {
      assert tasks[id := t][..n] == tasks[..n];
    }
  }

  /** Steps taken by a task that is already there. */
  predicate OfTask(step: Step) { step.Resume? || step.Launch? || step.Complete? || step.Fail? || step.Cancel? }

  /** The tasks that an arrival adds: the request, and perhaps a revalidation that it starts. */
  ghost predicate AddsTasks(s: State, t: Task, after: State, added: seq<Task>) {
    && after.tasks == s.tasks + added
    && (|added| == 1 || (|added| == 2 && added[0].phase.Done? && added[1] == t.(phase := Scheduled)))
    && added[0].path == t.path
    && !added[0].phase.Scheduled? && added[0].phase != Fetching(Background) && added[0].phase != Done(Cancelled)
    && added[0].waits == (if added[0].phase.Waiting? then 1 else t.waits)
    && added[0].fetches == (if added[0].phase.Fetching? then 1 else t.fetches)
    && after.revalidations == if |added| == 2 then s.revalidations + {|s.tasks| + 1} else s.revalidations
  }

  lemma EndAdds(s: State, t: Task, ending: Ending)
    requires ending != Cancelled
    ensures AddsTasks(s, t, End(s, t, ending), [t.(phase := Done(ending))])
  {
  }

  lemma LeadAdds(cfg: Config, s: State, t: Task) returns (added: seq<Task>)
    ensures AddsTasks(s, t, Lead(cfg, s, t), added)
  {
    match Enter(s.breaker, cfg.limits, s.mono)
    case Ok(b) => added := [t.(phase := Fetching(Leader(|s.events|)), fetches := 1)];
    case Err(why) => added := [t.(phase := Done(if why.CircuitOpen? then Replied(StaleOr503(t.cached)) else Raised))];
  }

  lemma DispatchAdds(cfg: Config, s: State, t: Task) returns (added: seq<Task>)
    ensures AddsTasks(s, t, Dispatch(cfg, s, t), added)
  {
    var served := Replied(StaleOr503(t.cached));
    if t.cached.Some? && !t.cached.value.IsExpired(s.wall) {
      EndAdds(s, t, served);
      added := [t.(phase := Done(served))];
    } else if t.cached.Some? && t.cached.value.IsStaleServable(s.wall) {
      EndAdds(s, t, served);
      added := [t.(phase := Done(served))] + if t.key in s.inflight then [] else [t.(phase := Scheduled)];
    } else if Visible(s.breaker, cfg.limits, s.mono) == Open {
      EndAdds(s, t, served);
      added := [t.(phase := Done(served))];
    } else if t.key in s.inflight {
      added := [t.(phase := Waiting(s.inflight[t.key]), waits := 1)];
    } else {
      added := LeadAdds(cfg, s, t);
    }
  }

  /** A new request adds at most two units of work: its own, or that of the revalidation it starts. */
  lemma DispatchWork(cfg: Config, s: State, t: Task)
    ensures Work(Dispatch(cfg, s, t).tasks) <= Work(s.tasks) + 2
  {
    var added := DispatchAdds(cfg, s, t);
    WorkAppend(s.tasks, added[0]);
    if |added| == 1 {
      assert added == [added[0]];
    } else {
      WorkAppend(s.tasks + [added[0]], added[1]);
      assert s.tasks + added == s.tasks + [added[0]] + [added[1]];
    }
  }

  lemma DispatchStore(cfg: Config, s: State, t: Task)
    ensures Dispatch(cfg, s, t).store == s.store
  {
  }

  /** What every step other than a completion or a purge does to the store. */
  lemma StoreAfter(cfg: Config, s: State, step: Step)
    requires Enabled(s, step) && !step.Complete? && !step.Purge? && !step.PurgePrefix?
    ensures Next(cfg, s, step).store ==
      match step
      case Arrive(path, headers) => LruContents.Get(s.store, cfg.lookupKey(path, headers), s.wall)
      case Resume(id) => LruContents.Get(s.store, s.tasks[id].key, s.wall)
      case _ => s.store
  {
    if step.Arrive? {
      var key := cfg.lookupKey(step.path, step.headers);
      DispatchStore(cfg, s.(store := LruContents.Get(s.store, key, s.wall)),
                    Task(step.path, step.headers, key, Touched(Lookup(s.store, key), s.wall), Done(Cancelled), 0, 0));
    }
  }

  /** A step of a task changes that task only. */
  lemma OnlyThatTask(cfg: Config, s: State, step: Step) returns (t: Task)
    requires Enabled(s, step) && OfTask(step)
    ensures Next(cfg, s, step).tasks == s.tasks[step.id := t]
    ensures t.path == s.tasks[step.id].path && t.waits == s.tasks[step.id].waits
    ensures if t.phase.Fetching?
      then s.tasks[step.id].fetches + 1 == t.fetches
        && (s.tasks[step.id].phase.Scheduled? || s.tasks[step.id].phase.Waiting?)
      else t.fetches == s.tasks[step.id].fetches && t.phase.Done?
    ensures t.phase == Fetching(Background) <==> t.phase.Fetching? && s.tasks[step.id].phase.Scheduled?
    ensures s.revalidations - {step.id} <= Next(cfg, s, step).revalidations
    ensures t.phase.Fetching? ==> Next(cfg, s, step).revalidations == s.revalidations
  {
    hide Lookup, Filter, Evict, ToStore, ToReturn, StaleOr503, Success, Failure, Enter;
    t := Next(cfg, s, step).tasks[step.id];
  }

  /** Every step of a task lowers the measure; an arrival raises it by at most two; nothing else moves it. */
  lemma StepWork(cfg: Config, s: State, step: Step)
    requires Enabled(s, step)
    ensures OfTask(step) ==> Work(Next(cfg, s, step).tasks) < Work(s.tasks)
    ensures step.Arrive? ==> Work(Next(cfg, s, step).tasks) <= Work(s.tasks) + 2
    ensures !OfTask(step) && !step.Arrive? ==> Work(Next(cfg, s, step).tasks) == Work(s.tasks)
  {
    if OfTask(step) {
      var t := OnlyThatTask(cfg, s, step);
      WorkUpdate(s.tasks, step.id, t);
    } else if step.Arrive? {
      var key := cfg.lookupKey(step.path, step.headers);
      DispatchWork(cfg, s.(store := LruContents.Get(s.store, key, s.wall)),
                   Task(step.path, step.headers, key, Touched(Lookup(s.store, key), s.wall), Done(Cancelled), 0, 0));
    }
  }

  function Count(steps: seq<Step>, p: Step -> bool): nat {
    if steps == [] then 0
    else Count(steps[..|steps| - 1], p) + if p(steps[|steps| - 1]) then 1 else 0
  }

  function IsArrival(): Step -> bool { (step: Step) => step.Arrive? }

  function IsOfTask(): Step -> bool { (step: Step) => OfTask(step) }

  /** Over every execution the tasks take at most two steps per arrival, and what is left is the measure. */
  lemma {:induction false} BoundedWork(cfg: Config, states: seq<State>, steps: seq<Step>)
    requires IsExecution(cfg, states, steps)
    ensures Count(steps, IsOfTask()) + Work(states[|steps|].tasks) <= 2 * Count(steps, IsArrival())
    decreases |steps|
  {
    if steps != [] {
      var n := |steps| - 1;
      BoundedWork(cfg, states[..n + 1], steps[..n]);
      assert states[..n + 1][n] == states[n];
      StepWork(cfg, states[n], steps[n]);
    }
  }

  /** A request waits on at most one event and starts at most one fetch. */
  ghost predicate AtMostOnce(t: Task) {
    && t.waits <= 1 && t.fetches <= 1
    && (t.phase.Scheduled? || t.phase.Waiting? ==> t.fetches == 0)
    && (t.phase.Fetching? ==> t.fetches == 1)
    && (t.phase.Scheduled? ==> t.waits == 0) && (t.phase.Waiting? ==> t.waits == 1)
  }

  /** A running background task is kept referenced. */
  ghost predicate Referenced(s: State, id: nat)
    requires id < |s.tasks|
  {
    s.tasks[id].phase.Scheduled? || s.tasks[id].phase == Fetching(Background) ==> id in s.revalidations
  }

  ghost predicate Orderly(s: State) {
    forall i :: 0 <= i < |s.tasks| ==> AtMostOnce(s.tasks[i]) && Referenced(s, i)
  }

  lemma DispatchOrderly(cfg: Config, s: State, t: Task)
    requires Orderly(s) && t.waits == t.fetches == 0
    ensures Orderly(Dispatch(cfg, s, t))
  {
    var added := DispatchAdds(cfg, s, t);
    var after := Dispatch(cfg, s, t);
    hide Dispatch;
    forall i | 0 <= i < |after.tasks| ensures AtMostOnce(after.tasks[i]) && Referenced(after, i) {
      if i < |s.tasks| {
        assert AtMostOnce(s.tasks[i]) && Referenced(s, i);
      }
    }
  }

  lemma StepOrderly(cfg: Config, s: State, step: Step)
    requires Orderly(s) && Enabled(s, step)
    ensures Orderly(Next(cfg, s, step))
  {
    var after := Next(cfg, s, step);
    if OfTask(step) {
      var t := OnlyThatTask(cfg, s, step);
      assert AtMostOnce(s.tasks[step.id]) && Referenced(s, step.id);
      forall i | 0 <= i < |after.tasks| ensures AtMostOnce(after.tasks[i]) && Referenced(after, i) {
        assert AtMostOnce(s.tasks[i]) && Referenced(s, i);
      }
    } else if step.Arrive? {
      var key := cfg.lookupKey(step.path, step.headers);
      DispatchOrderly(cfg, s.(store := LruContents.Get(s.store, key, s.wall)),
                      Task(step.path, step.headers, key, Touched(Lookup(s.store, key), s.wall), Done(Cancelled), 0, 0));
    }
  }

  lemma {:induction false} AlwaysOrderly(cfg: Config, states: seq<State>, steps: seq<Step>)
    requires IsExecution(cfg, states, steps)
    ensures Orderly(states[|steps|])
    decreases |steps|
  {
    if steps != [] {
      var n := |steps| - 1;
      AlwaysOrderly(cfg, states[..n + 1], steps[..n]);
      assert states[..n + 1][n] == states[n];
      StepOrderly(cfg, states[n], steps[n]);
    }
  }

  // ---------- background tasks are let go ----------

  /** A background task that has not ended, or was cancelled before it started, so that its finally block never ran;
      requests have waited or fetched before they are cancelled. */
  ghost predicate Kept(t: Task) {
    || t.phase.Scheduled? || t.phase == Fetching(Background)
    || (t.phase == Done(Cancelled) && t.waits == 0 && t.fetches == 0)
  }

  /** Exactly these tasks are kept referenced. */
  ghost predicate LetGo(s: State) {
    forall id: nat :: id in s.revalidations <==> id < |s.tasks| && Kept(s.tasks[id])
  }

  /** What a step of a task does to the references. */
  lemma TaskReleases(cfg: Config, s: State, step: Step)
    requires Enabled(s, step) && OfTask(step)
    ensures var after := Next(cfg, s, step);
      && after.revalidations <= s.revalidations && |after.tasks| == |s.tasks|
      && (s.tasks[step.id].phase == Fetching(Background) ==> step.id !in after.revalidations)
      && (step.Launch? && !after.tasks[step.id].phase.Fetching? ==> step.id !in after.revalidations)
      && s.revalidations - {step.id} <= after.revalidations
      && (step.Cancel? && s.tasks[step.id].phase.Scheduled? ==> after.revalidations == s.revalidations)
  {
    hide Lookup, Filter, Evict, ToStore, ToReturn, StaleOr503, Success, Failure, Enter;
  }

  lemma StepLetsGo(cfg: Config, s: State, step: Step)
    requires LetGo(s) && Orderly(s) && Enabled(s, step)
    ensures LetGo(Next(cfg, s, step))
  {
    if OfTask(step) {
      TaskLetsGo(cfg, s, step);
    } else if step.Arrive? {
      var key := cfg.lookupKey(step.path, step.headers);
      ArrivalLetsGo(cfg, s.(store := LruContents.Get(s.store, key, s.wall)),
        Task(step.path, step.headers, key, Touched(Lookup(s.store, key), s.wall), Done(Cancelled), 0, 0));
    }
  }

  lemma ArrivalLetsGo(cfg: Config, s: State, t: Task)
    requires LetGo(s) && t.waits == t.fetches == 0
    ensures LetGo(Dispatch(cfg, s, t))
  {
    var added := DispatchAdds(cfg, s, t);
    hide Dispatch;
    assert !Kept(added[0]);
  }

  /** A step of a task keeps it referenced exactly if it is still, or now, a task to be kept. */
  lemma TaskLetsGo(cfg: Config, s: State, step: Step)
    requires LetGo(s) && Orderly(s) && Enabled(s, step) && OfTask(step)
    ensures LetGo(Next(cfg, s, step))
  {
    TaskReleases(cfg, s, step);
    var t := OnlyThatTask(cfg, s, step);
    assert AtMostOnce(s.tasks[step.id]);
    MovedKept(cfg, s, step);
    hide Next;
    var after := Next(cfg, s, step);
    forall id: nat ensures id in after.revalidations <==> id < |after.tasks| && Kept(after.tasks[id]) {
      if id != step.id {
        assert id in after.revalidations <==> id in s.revalidations;
      }
    }
  }

  lemma MovedKept(cfg: Config, s: State, step: Step)
    requires Enabled(s, step) && OfTask(step) && AtMostOnce(s.tasks[step.id])
    requires step.id in s.revalidations <==> Kept(s.tasks[step.id])
    ensures step.id in Next(cfg, s, step).revalidations <==> Kept(Next(cfg, s, step).tasks[step.id])
  {
    hide Lookup, Filter, Evict, ToStore, ToReturn, StaleOr503, Success, Failure, Enter;
  }

  lemma {:induction false} AlwaysLetGo(cfg: Config, states: seq<State>, steps: seq<Step>)
    requires IsExecution(cfg, states, steps)
    ensures LetGo(states[|steps|])
    decreases |steps|
  {
    if steps != [] {
      var n := |steps| - 1;
      AlwaysLetGo(cfg, states[..n + 1], steps[..n]);
      AlwaysOrderly(cfg, states[..n + 1], steps[..n]);
      assert states[..n + 1][n] == states[n];
      StepLetsGo(cfg, states[n], steps[n]);
    }
  }

  // ---------- nobody waits for ever ----------

  ghost predicate AllDone(s: State) { forall i :: 0 <= i < |s.tasks| ==> s.tasks[i].phase.Done? }

  /** What an unfinished task can do, or which fetch it is waiting for. */
  lemma Unblocked(s: State, i: nat)
    requires Safe(s) && i < |s.tasks| && !s.tasks[i].phase.Done?
    ensures match s.tasks[i].phase
      case Scheduled => Enabled(s, Launch(i))
      case Fetching(_) => Enabled(s, Fail(i)) && forall resp :: Enabled(s, Complete(i, resp))
      case Waiting(ev) => Enabled(s, Resume(i)) || HasLeader(s.tasks, s.tasks[i].key, ev)
      case Done(_) => false
  {
    assert FollowerWillWake(s.tasks[i], s.inflight, s.events);
  }

  /** When no fetch is outstanding and no task can move, every request has ended. */
  lemma QuietMeansDone(s: State)
    requires Safe(s)
    requires forall i :: 0 <= i < |s.tasks| ==>
      !s.tasks[i].phase.Fetching? && !Enabled(s, Launch(i)) && !Enabled(s, Resume(i))
    ensures AllDone(s)
  {
    forall i | 0 <= i < |s.tasks| ensures s.tasks[i].phase.Done? {
      if !s.tasks[i].phase.Done? {
        Unblocked(s, i);
      }
    }
  }

  /** A step that is not an arrival, a cancellation or an environment step, in any state with unfinished work. */
  lemma SomeStep(s: State) returns (step: Step)
    requires Safe(s) && !AllDone(s)
    ensures Enabled(s, step) && (step.Launch? || step.Resume? || step.Fail?)
  {
    if f :| 0 <= f < |s.tasks| && s.tasks[f].phase.Fetching? {
      step := Fail(f);
    } else if l :| 0 <= l < |s.tasks| && Enabled(s, Launch(l)) {
      step := Launch(l);
    } else if r :| 0 <= r < |s.tasks| && Enabled(s, Resume(r)) {
      step := Resume(r);
    } else {
      QuietMeansDone(s);
    }
  }

  lemma ExtendRun(cfg: Config, states: seq<State>, steps: seq<Step>, s: State, step: Step)
    requires IsRun(cfg, states, steps) && Enabled(s, step) && states[0] == Next(cfg, s, step)
    ensures IsRun(cfg, [s] + states, [step] + steps)
  {
    var more, taken := [s] + states, [step] + steps;
    forall i | 0 <= i < |taken|
      ensures Enabled(more[i], taken[i]) && more[i + 1] == Next(cfg, more[i], taken[i])
    {
      if i > 0 {
        assert more[i] == states[i - 1] && taken[i] == steps[i - 1] && more[i + 1] == states[i];
      }
    }
  }

  /** No task can move by itself and no fetch is outstanding. */
  ghost predicate Stuck(s: State) {
    forall step :: OfTask(step) && !step.Cancel? ==> !Enabled(s, step)
  }

  lemma StuckMeansDone(s: State)
    requires Safe(s) && Stuck(s)
    ensures AllDone(s)
  {
    forall i: nat | i < |s.tasks|
      ensures !s.tasks[i].phase.Fetching? && !Enabled(s, Launch(i)) && !Enabled(s, Resume(i))
    {
      assert !Enabled(s, Fail(i));
    }
    QuietMeansDone(s);
  }

  /** Every run from a safe state without further arrivals takes at most as many task steps as the measure says,
      whichever way each fetch ends and however purges and the clock interleave; and if it goes on until no fetch
      is outstanding and nobody can move, every request has ended. */
  lemma {:induction false} EveryRunDrains(cfg: Config, states: seq<State>, steps: seq<Step>)
    requires IsRun(cfg, states, steps) && Safe(states[0])
    requires forall n :: 0 <= n < |steps| ==> !steps[n].Arrive?
    ensures Safe(states[|steps|])
    ensures Count(steps, IsOfTask()) + Work(states[|steps|].tasks) <= Work(states[0].tasks)
    ensures Stuck(states[|steps|]) ==> AllDone(states[|steps|])
    decreases |steps|
  {
    hide Next, Safe, Stuck, AllDone, Enabled;
    if steps != [] {
      var n := |steps| - 1;
      EveryRunDrains(cfg, states[..n + 1], steps[..n]);
      assert states[..n + 1][n] == states[n] && states[..n + 1][0] == states[0];
      NextSafe(cfg, states[n], steps[n]);
      StepWork(cfg, states[n], steps[n]);
    }
    if Stuck(states[|steps|]) {
      StuckMeansDone(states[|steps|]);
    }
  }

  /** From every reachable state, ending each outstanding fetch lets every request end,
      within as many steps as the measure says and with no further arrival. */
  lemma {:induction false} Drains(cfg: Config, s: State) returns (states: seq<State>, steps: seq<Step>)
    requires Safe(s)
    ensures IsRun(cfg, states, steps) && states[0] == s && AllDone(states[|steps|])
    ensures |steps| <= Work(s.tasks)
    ensures forall i :: 0 <= i < |steps| ==> steps[i].Launch? || steps[i].Resume? || steps[i].Fail?
    decreases Work(s.tasks)
  {
    if AllDone(s) {
      states, steps := [s], [];
    } else {
      var step := SomeStep(s);
      NextSafe(cfg, s, step);
      StepWork(cfg, s, step);
      states, steps := Drains(cfg, Next(cfg, s, step));
      ExtendRun(cfg, states, steps, s, step);
      states, steps := [s] + states, [step] + steps;
    }
  }
}
