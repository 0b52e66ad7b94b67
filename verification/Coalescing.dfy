/** Request coalescing: what every interleaving of requests and background tasks keeps
    (src/application/cache_service.py). */
module Coalescing {
  import opened Text
  import opened Entities
  import opened LruContents
  import opened BreakerSteps
  import opened CacheKeys
  import opened EdgeProtocol

  // ---------- safety ----------

  predicate LeadsOn(t: Task, ev: nat) { t.phase == Fetching(Leader(ev)) }

  ghost predicate IsLeader(t: Task) { t.phase.Fetching? && t.phase.role.Leader? }

  /** A leader's event is its own, unset, and the one registered for its key. */
  ghost predicate LeaderRegistered(t: Task, inflight: map<Key, nat>, events: seq<bool>) {
    IsLeader(t) ==>
      var ev := t.phase.role.event;
      ev < |events| && !events[ev] && t.key in inflight && inflight[t.key] == ev
  }

  /** A follower's event is set, or it is the one registered for its key. */
  ghost predicate FollowerWillWake(t: Task, inflight: map<Key, nat>, events: seq<bool>) {
    t.phase.Waiting? ==>
      var ev := t.phase.event;
      ev < |events| && (events[ev] || (t.key in inflight && inflight[t.key] == ev))
  }

  ghost predicate HasLeader(tasks: seq<Task>, key: Key, ev: nat) {
    exists i :: 0 <= i < |tasks| && tasks[i].key == key && LeadsOn(tasks[i], ev)
  }

  ghost predicate OwnEvents(tasks: seq<Task>) {
    forall i, j :: 0 <= i < j < |tasks| && IsLeader(tasks[i]) && IsLeader(tasks[j]) ==>
      tasks[i].phase.role.event != tasks[j].phase.role.event
  }

  ghost predicate Coalesced(tasks: seq<Task>, inflight: map<Key, nat>, events: seq<bool>) {
    && (forall i :: 0 <= i < |tasks| ==> LeaderRegistered(tasks[i], inflight, events))
    && (forall i :: 0 <= i < |tasks| ==> FollowerWillWake(tasks[i], inflight, events))
    && (forall k :: k in inflight ==> HasLeader(tasks, k, inflight[k]))
    && OwnEvents(tasks)
  }

  ghost predicate Safe(s: State) { Coalesced(s.tasks, s.inflight, s.events) }

  /** Appending a task that is neither a leader nor stuck. */
  lemma AppendOther(tasks: seq<Task>, inflight: map<Key, nat>, events: seq<bool>, t: Task)
    requires Coalesced(tasks, inflight, events)
    requires !IsLeader(t) && FollowerWillWake(t, inflight, events)
    ensures Coalesced(tasks + [t], inflight, events)
  {
    var after := tasks + [t];
    forall k | k in inflight ensures HasLeader(after, k, inflight[k]) {
      var i :| 0 <= i < |tasks| && tasks[i].key == k && LeadsOn(tasks[i], inflight[k]);
      assert after[i] == tasks[i];
    }
  }

  lemma MoreEvents(tasks: seq<Task>, inflight: map<Key, nat>, events: seq<bool>, flag: bool)
    requires Coalesced(tasks, inflight, events)
    ensures Coalesced(tasks, inflight, events + [flag])
  {
    forall i | 0 <= i < |tasks|
      ensures LeaderRegistered(tasks[i], inflight, events + [flag])
      ensures FollowerWillWake(tasks[i], inflight, events + [flag])
    {
    }
  }

  /** Appending a leader with a fresh event on a key that is not in flight. */
  lemma AppendLeader(tasks: seq<Task>, inflight: map<Key, nat>, events: seq<bool>, t: Task)
    requires Coalesced(tasks, inflight, events)
    requires t.key !in inflight && LeadsOn(t, |events|)
    ensures Coalesced(tasks + [t], inflight[t.key := |events|], events + [false])
  {
    var after, registered := tasks + [t], inflight[t.key := |events|];
    MoreEvents(tasks, inflight, events, false);
    assert after[|tasks|] == t;
    assert HasLeader(after, t.key, |events|);
    forall k | k in inflight ensures HasLeader(after, k, registered[k]) {
      var i :| 0 <= i < |tasks| && tasks[i].key == k && LeadsOn(tasks[i], inflight[k]);
      assert after[i] == tasks[i];
    }
    forall i | 0 <= i < |after|
      ensures LeaderRegistered(after[i], registered, events + [false])
      ensures FollowerWillWake(after[i], registered, events + [false])
    {
      if i < |tasks| {
        assert LeaderRegistered(tasks[i], inflight, events + [false]);
        assert FollowerWillWake(tasks[i], inflight, events + [false]);
      }
    }
    forall i | 0 <= i < |tasks| && IsLeader(tasks[i])
      ensures tasks[i].phase.role.event != |events|
    {
      assert LeaderRegistered(tasks[i], inflight, events);
    }
  }

  /** A task that is not a leader moves on. */
  lemma MoveOther(tasks: seq<Task>, inflight: map<Key, nat>, events: seq<bool>, id: nat, t: Task)
    requires Coalesced(tasks, inflight, events) && id < |tasks|
    requires !IsLeader(tasks[id]) && !IsLeader(t) && !t.phase.Waiting?
    ensures Coalesced(tasks[id := t], inflight, events)
  {
    var after := tasks[id := t];
    forall k | k in inflight ensures HasLeader(after, k, inflight[k]) {
      var i :| 0 <= i < |tasks| && tasks[i].key == k && LeadsOn(tasks[i], inflight[k]);
      assert after[i] == tasks[i];
    }
  }

  /** A leader ends: setting its event and unregistering its key never touches another leader. */
  lemma LeaderEnds(tasks: seq<Task>, inflight: map<Key, nat>, events: seq<bool>, id: nat, ev: nat, t: Task)
    requires Coalesced(tasks, inflight, events) && id < |tasks|
    requires LeadsOn(tasks[id], ev) && t.phase.Done?
    ensures ev < |events|
    ensures Coalesced(tasks[id := t], inflight - {tasks[id].key}, events[ev := true])
  {
    assert LeaderRegistered(tasks[id], inflight, events);
    var after, rest, set1 := tasks[id := t], inflight - {tasks[id].key}, events[ev := true];
    forall k | k in rest ensures HasLeader(after, k, rest[k]) {
      var i :| 0 <= i < |tasks| && tasks[i].key == k && LeadsOn(tasks[i], inflight[k]);
      assert after[i] == tasks[i];
    }
    forall i | 0 <= i < |after|
      ensures LeaderRegistered(after[i], rest, set1)
      ensures FollowerWillWake(after[i], rest, set1)
    {
      if i != id {
        assert LeaderRegistered(tasks[i], inflight, events);
        assert FollowerWillWake(tasks[i], inflight, events);
        if IsLeader(tasks[i]) {
          assert tasks[i].phase.role.event != ev;
        }
      }
    }
  }

  lemma FinishSafe(s: State, id: nat, ending: Ending)
    requires Safe(s) && id < |s.tasks| && s.tasks[id].phase.Fetching?
    ensures Safe(Finish(SetPhase(s, id, Done(ending)), id, s.tasks[id].phase.role, s.tasks[id].key))
  {
    var t := s.tasks[id];
    var ended := t.(phase := Done(ending));
    match t.phase.role
    case Leader(ev) => LeaderEnds(s.tasks, s.inflight, s.events, id, ev, ended);
    case Follower => MoveOther(s.tasks, s.inflight, s.events, id, ended);
    case Background => MoveOther(s.tasks, s.inflight, s.events, id, ended);
  }

  lemma BeginFetchSafe(cfg: Config, s: State, id: nat, role: Role)
    requires Safe(s) && id < |s.tasks| && !IsLeader(s.tasks[id]) && !role.Leader?
    ensures Safe(BeginFetch(cfg, s, id, role))
  {
    var after := BeginFetch(cfg, s, id, role);
    MoveOther(s.tasks, s.inflight, s.events, id, after.tasks[id]);
  }

  lemma EndSafe(s: State, t: Task, ending: Ending)
    requires Safe(s)
    ensures Safe(End(s, t, ending))
  {
    AppendOther(s.tasks, s.inflight, s.events, t.(phase := Done(ending)));
  }

  lemma RegisterSafe(s: State, t: Task)
    requires Safe(s) && t.key !in s.inflight
    ensures Safe(Register(s, t))
  {
    AppendLeader(s.tasks, s.inflight, s.events, t.(phase := Fetching(Leader(|s.events|)), fetches := 1));
  }

  lemma LeadRefusedSafe(s: State, t: Task, why: Refusal)
    requires Safe(s) && t.key !in s.inflight
    ensures Safe(LeadRefused(s, t, why))
  {
    MoreEvents(s.tasks, s.inflight, s.events, true);
    assert s.inflight - {t.key} == s.inflight;
    EndSafe(s.(events := s.events + [true]), t,
            if why.CircuitOpen? then Replied(StaleOr503(t.cached)) else Raised);
  }

  lemma LeadSafe(cfg: Config, s: State, t: Task)
    requires Safe(s) && t.key !in s.inflight
    ensures Safe(Lead(cfg, s, t))
  {
    match Enter(s.breaker, cfg.limits, s.mono)
    case Ok(b) => RegisterSafe(s.(breaker := b), t);
    case Err(why) => LeadRefusedSafe(s, t, why);
  }

  lemma FollowSafe(s: State, t: Task)
    requires Safe(s) && t.key in s.inflight
    ensures Safe(Add(s, t.(phase := Waiting(s.inflight[t.key]), waits := 1)))
  {
    var i :| 0 <= i < |s.tasks| && s.tasks[i].key == t.key && LeadsOn(s.tasks[i], s.inflight[t.key]);
    assert LeaderRegistered(s.tasks[i], s.inflight, s.events);
    AppendOther(s.tasks, s.inflight, s.events, t.(phase := Waiting(s.inflight[t.key]), waits := 1));
  }

  lemma ScheduleSafe(s: State, t: Task)
    requires Safe(s)
    ensures Safe(ScheduleRevalidation(s, t))
  {
    AppendOther(s.tasks, s.inflight, s.events, t.(phase := Scheduled));
  }

  lemma DispatchSafe(cfg: Config, s: State, t: Task)
    requires Safe(s)
    ensures Safe(Dispatch(cfg, s, t))
  {
    if t.cached.Some? && !t.cached.value.IsExpired(s.wall) {
      EndSafe(s, t, Replied(Cached(t.cached.value, true)));
    } else if t.cached.Some? && t.cached.value.IsStaleServable(s.wall) {
      EndSafe(s, t, Replied(Cached(t.cached.value, true)));
      ScheduleSafe(End(s, t, Replied(Cached(t.cached.value, true))), t);
    } else if Visible(s.breaker, cfg.limits, s.mono) == Open {
      EndSafe(s, t, Replied(StaleOr503(t.cached)));
    } else if t.key in s.inflight {
      FollowSafe(s, t);
    } else {
      LeadSafe(cfg, s, t);
    }
  }

  lemma NextSafe(cfg: Config, s: State, step: Step)
    requires Safe(s) && Enabled(s, step)
    ensures Safe(Next(cfg, s, step))
  {
    match step
    case Arrive(path, headers) =>
      var key := cfg.lookupKey(path, headers);
      DispatchSafe(cfg, s.(store := LruContents.Get(s.store, key, s.wall)),
                   Task(path, headers, key, Touched(Lookup(s.store, key), s.wall), Done(Cancelled), 0, 0));
    case Resume(id) =>
      match Lookup(s.store, s.tasks[id].key) {
        case Some(e) =>
          MoveOther(s.tasks, s.inflight, s.events, id, s.tasks[id].(phase := Done(Replied(Cached(e, false)))));
        case None => BeginFetchSafe(cfg, s, id, Follower);
      }
    case Launch(id) => BeginFetchSafe(cfg, s, id, Background);
    case Complete(id, resp) =>
      var t := s.tasks[id];
      var answered := s.(breaker := Success(s.breaker, cfg.limits), sent := s.sent + [Record(id, t, resp)]);
      FinishSafe(StoreItem(answered, cfg, ToStore(cfg, t, resp, s.wall)), id,
                 Replied(ToReturn(cfg, t, resp)));
    case Fail(id) => FinishSafe(s.(breaker := Failure(s.breaker, cfg.limits, s.mono)), id, Raised);
    case Cancel(id) =>
      if s.tasks[id].phase.Fetching? {
        FinishSafe(s.(breaker := Failure(s.breaker, cfg.limits, s.mono)), id, Cancelled);
      } else {
        MoveOther(s.tasks, s.inflight, s.events, id, s.tasks[id].(phase := Done(Cancelled)));
      }
    case Purge(_) =>
    case PurgePrefix(_) =>
    case Tick(_, _) =>
  }

  /** Coalescing safety, over every execution: a key is in flight exactly when one leader is active on it,
      its registered event is that leader's own unset event, and every blocked follower's event is set or
      is the one registered for its key. */
  lemma {:induction false} CoalescingSafety(cfg: Config, states: seq<State>, steps: seq<Step>)
    requires IsExecution(cfg, states, steps)
    ensures Safe(states[|steps|])
    decreases |steps|
  {
    if steps != [] {
      var n := |steps| - 1;
      CoalescingSafety(cfg, states[..n + 1], steps[..n]);
      assert states[..n + 1][n] == states[n];
      NextSafe(cfg, states[n], steps[n]);
    }
  }

  /** The number of leaders active on a key. */
  ghost function LeadersOf(tasks: seq<Task>, key: Key): set<nat> {
    set i: nat | i < |tasks| && IsLeader(tasks[i]) && tasks[i].key == key
  }

  /** At most one leader is active on any key, and one is exactly when the key is registered. */
  lemma OneLeader(s: State, key: Key)
    requires Safe(s)
    ensures |LeadersOf(s.tasks, key)| == if key in s.inflight then 1 else 0
  {
    var leaders := LeadersOf(s.tasks, key);
    if key in s.inflight {
      var i :| 0 <= i < |s.tasks| && s.tasks[i].key == key && LeadsOn(s.tasks[i], s.inflight[key]);
      forall j | j in leaders ensures j == i {
        assert LeaderRegistered(s.tasks[j], s.inflight, s.events);
      }
      assert leaders == {i};
    } else {
      forall i: nat | i < |s.tasks| && IsLeader(s.tasks[i]) ensures s.tasks[i].key != key {
        assert LeaderRegistered(s.tasks[i], s.inflight, s.events);
      }
      assert leaders == {};
    }
  }
}
