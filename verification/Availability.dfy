/** The edge protocol and its circuit breaker together: the breaker never locks the origin out for good, and no
    request fails except by its own fetch (src/application/cache_service.py, src/infrastructure/circuit_breaker.py). */
module Availability {
  import opened Text
  import opened Entities
  import opened LruContents
  import opened BreakerSteps
  import opened CacheKeys
  import opened EdgeProtocol
  import opened Coalescing
  import opened Progress

  /** The tasks with a fetch outstanding: the calls between __aenter__ and __aexit__. */
  ghost function Outstanding(tasks: seq<Task>): set<nat> {
    set i: nat | i < |tasks| && tasks[i].phase.Fetching?
  }

  /** The breaker is sound, and counts no more probes than there are fetches outstanding. */
  ghost predicate Steady(cfg: Config, s: State) {
    Inv(s.breaker, cfg.limits) && s.breaker.halfOpenCalls <= |Outstanding(s.tasks)|
  }

  lemma OutstandingAppend(tasks: seq<Task>, added: seq<Task>)
    requires 1 <= |added| <= 2 && (|added| == 2 ==> !added[1].phase.Fetching?)
    ensures |Outstanding(tasks + added)| == |Outstanding(tasks)| + if added[0].phase.Fetching? then 1 else 0
  {
    var n: nat := |tasks|;
    if added[0].phase.Fetching? {
      assert Outstanding(tasks + added) == Outstanding(tasks) + {n};
    } else {
      assert Outstanding(tasks + added) == Outstanding(tasks);
    }
  }

  lemma OutstandingUpdate(tasks: seq<Task>, id: nat, t: Task)
    requires id < |tasks|
    requires t.phase.Fetching? ==> !tasks[id].phase.Fetching?
    ensures |Outstanding(tasks[id := t])| ==
      |Outstanding(tasks)| + (if t.phase.Fetching? then 1 else 0) - (if tasks[id].phase.Fetching? then 1 else 0)
  {
    if t.phase.Fetching? {
      assert Outstanding(tasks[id := t]) == Outstanding(tasks) + {id};
    } else {
      assert Outstanding(tasks[id := t]) == Outstanding(tasks) - {id};
    }
  }

  /** The breaker is entered exactly when the new task fetches. */
  ghost predicate EntersIfFetching(cfg: Config, s: State, after: State) {
    && |after.tasks| > |s.tasks|
    && if after.tasks[|s.tasks|].phase.Fetching?
       then Enter(s.breaker, cfg.limits, s.mono) == Ok(after.breaker)
       else after.breaker == s.breaker
  }

  lemma LeadBreaker(cfg: Config, s: State, t: Task)
    ensures EntersIfFetching(cfg, s, Lead(cfg, s, t))
  {
  }

  lemma DispatchBreaker(cfg: Config, s: State, t: Task)
    ensures EntersIfFetching(cfg, s, Dispatch(cfg, s, t))
  {
    LeadBreaker(cfg, s, t);
    ServedKeepsBreaker(s, t, Replied(StaleOr503(t.cached)));
  }

  lemma ServedKeepsBreaker(s: State, t: Task, ending: Ending)
    ensures var served := End(s, t, ending);
      served.breaker == s.breaker && |served.tasks| == |s.tasks| + 1 && served.tasks[|s.tasks|].phase.Done?
    ensures var scheduled := ScheduleRevalidation(End(s, t, ending), t);
      scheduled.breaker == s.breaker && |scheduled.tasks| > |s.tasks| && scheduled.tasks[|s.tasks|].phase.Done?
  {
  }

  lemma ArriveSteady(cfg: Config, s: State, t: Task)
    requires Positive(cfg.limits) && Steady(cfg, s)
    ensures Steady(cfg, Dispatch(cfg, s, t))
  {
    DispatchBreaker(cfg, s, t);
    var added := DispatchAdds(cfg, s, t);
    OutstandingAppend(s.tasks, added);
    StepInv(s.breaker, cfg.limits, Event(s.mono, DoEnter));
  }

  /** What a step of a task does to the breaker. */
  lemma TaskBreaker(cfg: Config, s: State, step: Step)
    requires Enabled(s, step) && OfTask(step)
    ensures var after := Next(cfg, s, step);
      |after.tasks| == |s.tasks| &&
      if after.tasks[step.id].phase.Fetching? then Enter(s.breaker, cfg.limits, s.mono) == Ok(after.breaker)
      else if !s.tasks[step.id].phase.Fetching? then after.breaker == s.breaker
      else if step.Complete? then after.breaker == Success(s.breaker, cfg.limits)
      else after.breaker == Failure(s.breaker, cfg.limits, s.mono)
  {
  }

  /** A call that leaves takes its probe with it. */
  lemma LeaveSteady(b: Breaker, c: Limits, now: Time, n: nat)
    requires b.halfOpenCalls <= n + 1
    ensures Success(b, c).halfOpenCalls <= n || (b.state != HalfOpen && Success(b, c).halfOpenCalls == b.halfOpenCalls)
    ensures Failure(b, c, now).halfOpenCalls == 0
      || (b.state != HalfOpen && Failure(b, c, now).halfOpenCalls == b.halfOpenCalls)
  {
  }

  lemma NextSteady(cfg: Config, s: State, step: Step)
    requires Positive(cfg.limits) && Steady(cfg, s) && Enabled(s, step)
    ensures Steady(cfg, Next(cfg, s, step))
  {
    if step.Arrive? {
      var key := cfg.lookupKey(step.path, step.headers);
      ArriveSteady(cfg, s.(store := LruContents.Get(s.store, key, s.wall)),
                   Task(step.path, step.headers, key, Touched(Lookup(s.store, key), s.wall), Done(Cancelled), 0, 0));
    } else if OfTask(step) {
      TaskBreaker(cfg, s, step);
      var t := OnlyThatTask(cfg, s, step);
      OutstandingUpdate(s.tasks, step.id, t);
      StepInv(s.breaker, cfg.limits, Event(s.mono, DoEnter));
      StepInv(s.breaker, cfg.limits, Event(s.mono, DoSuccess));
      StepInv(s.breaker, cfg.limits, Event(s.mono, DoFailure));
      if s.tasks[step.id].phase.Fetching? {
        assert step.id in Outstanding(s.tasks);
        LeaveSteady(s.breaker, cfg.limits, s.mono, |Outstanding(s.tasks)| - 1);
      }
    }
  }

  lemma {:induction false} AlwaysSteady(cfg: Config, states: seq<State>, steps: seq<Step>)
    requires Positive(cfg.limits) && IsExecution(cfg, states, steps)
    ensures Steady(cfg, states[|steps|])
    decreases |steps|
  {
    if steps != [] {
      var n := |steps| - 1;
      AlwaysSteady(cfg, states[..n + 1], steps[..n]);
      assert states[..n + 1][n] == states[n];
      NextSteady(cfg, states[n], steps[n]);
    }
  }

  // ---------- the origin is always reached again ----------

  /** Whatever is in flight has a fetch outstanding. */
  lemma InflightIsOutstanding(s: State)
    requires Safe(s) && s.inflight != map[]
    ensures Outstanding(s.tasks) != {}
  {
    var k :| k in s.inflight;
    var i: nat :| i < |s.tasks| && s.tasks[i].key == k && LeadsOn(s.tasks[i], s.inflight[k]);
    assert i in Outstanding(s.tasks);
  }

  /** In every execution, once no fetch is outstanding, a request that finds nothing stored reaches the origin
      exactly when the circuit is not open or its timeout has passed. */
  lemma OriginReachedAgain(cfg: Config, states: seq<State>, steps: seq<Step>, path: string, headers: RequestHeaders)
    requires Positive(cfg.limits) && IsExecution(cfg, states, steps)
    requires var s := states[|steps|];
      Outstanding(s.tasks) == {} && Lookup(s.store, cfg.lookupKey(path, headers)).None?
    ensures var s := states[|steps|];
      var after := Next(cfg, s, Arrive(path, headers));
      && |after.tasks| == |s.tasks| + 1
      && (after.tasks[|s.tasks|].phase.Fetching? <==>
           (s.breaker.state == Open ==>
             s.breaker.lastFailure.Some? && s.mono - s.breaker.lastFailure.value >= cfg.limits.recoveryTimeout))
  {
    var s := states[|steps|];
    AlwaysSteady(cfg, states, steps);
    CoalescingSafety(cfg, states, steps);
    if s.inflight != map[] {
      InflightIsOutstanding(s);
    }
    var key := cfg.lookupKey(path, headers);
    MissReaches(cfg, s.(store := LruContents.Get(s.store, key, s.wall)),
                Task(path, headers, key, None, Done(Cancelled), 0, 0));
  }

  lemma MissReaches(cfg: Config, s: State, t: Task)
    requires t.cached.None? && t.key !in s.inflight
    requires Positive(cfg.limits) && Inv(s.breaker, cfg.limits) && s.breaker.halfOpenCalls == 0
    ensures |Dispatch(cfg, s, t).tasks| == |s.tasks| + 1
    ensures Dispatch(cfg, s, t).tasks[|s.tasks|].phase.Fetching? <==> Visible(s.breaker, cfg.limits, s.mono) != Open
  {
  }

  // ---------- who can fail ----------

  /** The asserts of the breaker do not fail, so an exception is the task's own failed fetch, and a circuit
      refusal reaches only a follower that woke to nothing or a background task, refused in that very step. */
  ghost predicate Explained(cfg: Config, s: State, step: Step, ending: Ending, id: nat) {
    && (ending == Raised ==> step == Fail(id))
    && (ending == RefusedByCircuit ==>
         (step == Resume(id) || step == Launch(id)) && Enter(s.breaker, cfg.limits, s.mono).Err?)
  }

  ghost predicate EndsInError(t: Task) { t.phase == Done(Raised) || t.phase == Done(RefusedByCircuit) }

  lemma DispatchNeverFails(cfg: Config, s: State, t: Task)
    requires Inv(s.breaker, cfg.limits)
    ensures forall i :: |s.tasks| <= i < |Dispatch(cfg, s, t).tasks| ==> !EndsInError(Dispatch(cfg, s, t).tasks[i])
    ensures |Dispatch(cfg, s, t).tasks| > |s.tasks| && Dispatch(cfg, s, t).tasks[..|s.tasks|] == s.tasks
  {
    var added := DispatchAdds(cfg, s, t);
  }

  lemma NewFailure(cfg: Config, s: State, step: Step, i: nat)
    requires Inv(s.breaker, cfg.limits) && Enabled(s, step)
    requires i < |Next(cfg, s, step).tasks| && EndsInError(Next(cfg, s, step).tasks[i])
    ensures (i < |s.tasks| && s.tasks[i] == Next(cfg, s, step).tasks[i])
      || Explained(cfg, s, step, Next(cfg, s, step).tasks[i].phase.ending, i)
  {
    if step.Arrive? {
      var key := cfg.lookupKey(step.path, step.headers);
      DispatchNeverFails(cfg, s.(store := LruContents.Get(s.store, key, s.wall)),
        Task(step.path, step.headers, key, Touched(Lookup(s.store, key), s.wall), Done(Cancelled), 0, 0));
    } else if OfTask(step) {
      var t := OnlyThatTask(cfg, s, step);
    }
  }

  ghost predicate ExplainedInRun(cfg: Config, states: seq<State>, steps: seq<Step>, id: nat, ending: Ending)
    requires |states| == |steps| + 1
  {
    exists n :: 0 <= n < |steps| && Explained(cfg, states[n], steps[n], ending, id)
  }

  /** In every execution, a request ends in an error only if its own fetch failed, or it was a follower (or a
      background task) and the breaker refused it in the step that ended it; a leader or a direct hit never
      passes a circuit error on. */
  lemma {:induction false} FailuresExplained(cfg: Config, states: seq<State>, steps: seq<Step>)
    requires Positive(cfg.limits) && IsExecution(cfg, states, steps)
    ensures forall i :: 0 <= i < |states[|steps|].tasks| && EndsInError(states[|steps|].tasks[i]) ==>
      ExplainedInRun(cfg, states, steps, i, states[|steps|].tasks[i].phase.ending)
    decreases |steps|
  {
    if steps != [] {
      var n := |steps| - 1;
      var s, after := states[n], states[n + 1];
      FailuresExplained(cfg, states[..n + 1], steps[..n]);
      AlwaysSteady(cfg, states[..n + 1], steps[..n]);
      assert states[..n + 1][n] == s;
      forall i | 0 <= i < |after.tasks| && EndsInError(after.tasks[i])
        ensures ExplainedInRun(cfg, states, steps, i, after.tasks[i].phase.ending)
      {
        var ending := after.tasks[i].phase.ending;
        NewFailure(cfg, s, steps[n], i);
        if !Explained(cfg, s, steps[n], ending, i) {
          assert ExplainedInRun(cfg, states[..n + 1], steps[..n], i, ending);
          EarlierExplained(cfg, states, steps, n, i, ending);
        }
      }
    }
  }

  lemma EarlierExplained(cfg: Config, states: seq<State>, steps: seq<Step>, n: nat, id: nat, ending: Ending)
    requires |states| == |steps| + 1 && n <= |steps|
    requires ExplainedInRun(cfg, states[..n + 1], steps[..n], id, ending)
    ensures ExplainedInRun(cfg, states, steps, id, ending)
  {
    hide Explained;
    var prefix := states[..n + 1];
    var m :| 0 <= m < n && Explained(cfg, prefix[m], steps[..n][m], ending, id);
    assert prefix[m] == states[m] && steps[..n][m] == steps[m];
    assert Explained(cfg, states[m], steps[m], ending, id);
  }
}
