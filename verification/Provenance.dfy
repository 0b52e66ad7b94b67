/** Where every stored and every returned body comes from, and who may see an uncacheable one
    (src/application/cache_service.py; sections 3, 5.2.2.3 and 5.2.2.6 of RFC 7234). */
module Provenance {
  import opened Text
  import opened Entities
  import opened LruContents
  import opened BreakerSteps
  import opened CacheKeys
  import opened EdgeProtocol
  import opened Progress

  /** A cacheable answer of the origin, with this content, status and headers, for a path of this key. */
  ghost predicate Supports(cfg: Config, r: Sent, k: Key, content: Bytes, status: int, headers: Headers) {
    && cfg.read(r.response).cacheable
    && IsKeyOf(k, r.path)
    && r.response.content == content && r.response.statusCode == status && r.response.headers == headers
  }

  ghost predicate Supported(cfg: Config, sent: seq<Sent>, k: Key, content: Bytes, status: int, headers: Headers) {
    exists r :: r in sent && Supports(cfg, r, k, content, status, headers)
  }

  ghost predicate EntrySupported(cfg: Config, sent: seq<Sent>, k: Key, e: CacheEntry) {
    Supported(cfg, sent, k, e.content, e.statusCode, e.headers)
  }

  ghost predicate StoreSupported(cfg: Config, sent: seq<Sent>, store: Contents) {
    forall it :: it in store ==> EntrySupported(cfg, sent, it.key, it.entry)
  }

  /** The reply is the answer that the task itself received. */
  ghost predicate OwnAnswer(sent: seq<Sent>, id: nat, reply: Reply) {
    exists r :: r in sent && r.task == id
      && reply == Reply(r.response.content, r.response.statusCode, r.response.headers, false)
  }

  /** The synthetic 503, the task's own answer, or a cacheable answer for its key. */
  ghost predicate Accounted(cfg: Config, sent: seq<Sent>, id: nat, t: Task, reply: Reply) {
    || reply == Unavailable()
    || OwnAnswer(sent, id, reply)
    || Supported(cfg, sent, t.key, reply.content, reply.status, reply.headers)
  }

  ghost predicate TaskTraced(cfg: Config, sent: seq<Sent>, id: nat, t: Task) {
    && IsKeyOf(t.key, t.path)
    && (t.cached.Some? ==> EntrySupported(cfg, sent, t.key, t.cached.value))
    && (t.phase.Done? && t.phase.ending.Replied? ==> Accounted(cfg, sent, id, t, t.phase.ending.reply))
  }

  ghost predicate Traced(cfg: Config, s: State) {
    && StoreSupported(cfg, s.sent, s.store)
    && (forall i :: 0 <= i < |s.tasks| ==> TaskTraced(cfg, s.sent, i, s.tasks[i]))
    && (forall r :: r in s.sent ==> r.task < |s.tasks| && r.path == s.tasks[r.task].path)
  }

  // ---------- the store ----------

  lemma GetSupported(cfg: Config, sent: seq<Sent>, store: Contents, k: Key, now: Time)
    requires StoreSupported(cfg, sent, store)
    ensures StoreSupported(cfg, sent, LruContents.Get(store, k, now))
    ensures Lookup(store, k).Some? ==> EntrySupported(cfg, sent, k, Lookup(store, k).value)
  {
    var found := Lookup(store, k);
    if found.Some? {
      assert Item(k, found.value) in store;
      var after := LruContents.Get(store, k, now);
      forall it | it in after ensures EntrySupported(cfg, sent, it.key, it.entry) {
        if it in Remove(store, k) {
          assert it in store;
        }
      }
    }
  }

  lemma PutSupported(cfg: Config, sent: seq<Sent>, store: Contents, cap: int, it: Item)
    requires StoreSupported(cfg, sent, store) && EntrySupported(cfg, sent, it.key, it.entry)
    ensures StoreSupported(cfg, sent, LruContents.Put(store, cap, it.key, it.entry))
  {
    EvictSplits(Remove(store, it.key), it.entry.size, cap);
    forall x | x in LruContents.Put(store, cap, it.key, it.entry) ensures EntrySupported(cfg, sent, x.key, x.entry) {
      if x != it {
        assert x in Remove(store, it.key);
        assert x in store;
      }
    }
  }

  lemma MoreSent(cfg: Config, s: State, r: Sent)
    requires Traced(cfg, s) && r.task < |s.tasks| && r.path == s.tasks[r.task].path
    ensures Traced(cfg, s.(sent := s.sent + [r]))
  {
    var more := s.sent + [r];
    forall k, content, status, headers | Supported(cfg, s.sent, k, content, status, headers)
      ensures Supported(cfg, more, k, content, status, headers)
    {
      var x :| x in s.sent && Supports(cfg, x, k, content, status, headers);
      assert x in more;
    }
    forall i, reply | 0 <= i && OwnAnswer(s.sent, i, reply) ensures OwnAnswer(more, i, reply) {
      var x :| x in s.sent && x.task == i
        && reply == Reply(x.response.content, x.response.statusCode, x.response.headers, false);
      assert x in more;
    }
    forall i | 0 <= i < |s.tasks| ensures TaskTraced(cfg, more, i, s.tasks[i]) {
      assert TaskTraced(cfg, s.sent, i, s.tasks[i]);
    }
    forall it | it in s.store ensures EntrySupported(cfg, more, it.key, it.entry) {
      assert EntrySupported(cfg, s.sent, it.key, it.entry);
    }
  }

  // ---------- steps ----------

  /** Only the tasks, the store and the history matter. */
  lemma SameTraced(cfg: Config, s: State, u: State)
    requires Traced(cfg, s) && u.tasks == s.tasks && u.store == s.store && u.sent == s.sent
    ensures Traced(cfg, u)
  {
  }

  lemma AppendTraced(cfg: Config, s: State, t: Task)
    requires Traced(cfg, s) && TaskTraced(cfg, s.sent, |s.tasks|, t)
    ensures Traced(cfg, Add(s, t))
  {
    var after := Add(s, t);
    forall i | 0 <= i < |after.tasks| ensures TaskTraced(cfg, s.sent, i, after.tasks[i]) {
      if i < |s.tasks| {
        assert TaskTraced(cfg, s.sent, i, s.tasks[i]);
      }
    }
  }

  lemma MoveTraced(cfg: Config, s: State, id: nat, phase: Phase)
    requires Traced(cfg, s) && id < |s.tasks|
    requires phase.Done? && phase.ending.Replied? ==> Accounted(cfg, s.sent, id, s.tasks[id], phase.ending.reply)
    ensures Traced(cfg, SetPhase(s, id, phase))
  {
    assert TaskTraced(cfg, s.sent, id, s.tasks[id]);
  }

  /** A new request before its first decision. */
  ghost predicate Fresh(cfg: Config, s: State, t: Task) {
    && IsKeyOf(t.key, t.path)
    && (t.cached.Some? ==> EntrySupported(cfg, s.sent, t.key, t.cached.value))
  }

  lemma EndTraced(cfg: Config, s: State, t: Task, ending: Ending)
    requires Traced(cfg, s) && Fresh(cfg, s, t)
    requires ending.Replied? ==> ending.reply == StaleOr503(t.cached)
    ensures Traced(cfg, End(s, t, ending))
  {
    AppendTraced(cfg, s, t.(phase := Done(ending)));
  }

  lemma LeadTraced(cfg: Config, s: State, t: Task)
    requires Traced(cfg, s) && Fresh(cfg, s, t)
    ensures Traced(cfg, Lead(cfg, s, t))
  {
    if Enter(s.breaker, cfg.limits, s.mono).Ok? {
      LeadAdmittedTraced(cfg, s, t);
    } else {
      LeadRefusedTraced(cfg, s, t, Enter(s.breaker, cfg.limits, s.mono).error);
    }
  }

  lemma LeadAdmittedTraced(cfg: Config, s: State, t: Task)
    requires Traced(cfg, s) && Fresh(cfg, s, t)
    requires Enter(s.breaker, cfg.limits, s.mono).Ok?
    ensures Traced(cfg, Lead(cfg, s, t))
  {
    var u := s.(breaker := Enter(s.breaker, cfg.limits, s.mono).value);
    SameTraced(cfg, s, u);
    RegisterTraced(cfg, u, t);
  }

  lemma RegisterTraced(cfg: Config, s: State, t: Task)
    requires Traced(cfg, s) && Fresh(cfg, s, t)
    ensures Traced(cfg, Register(s, t))
  {
    var ev := |s.events|;
    var u := s.(events := s.events + [false], inflight := s.inflight[t.key := ev]);
    SameTraced(cfg, s, u);
    AppendTraced(cfg, u, t.(phase := Fetching(Leader(ev)), fetches := 1));
  }

  lemma LeadRefusedTraced(cfg: Config, s: State, t: Task, why: Refusal)
    requires Traced(cfg, s) && Fresh(cfg, s, t)
    ensures Traced(cfg, LeadRefused(s, t, why))
  {
    var u := s.(events := s.events + [true], inflight := s.inflight - {t.key});
    SameTraced(cfg, s, u);
    EndTraced(cfg, u, t, if why.CircuitOpen? then Replied(StaleOr503(t.cached)) else Raised);
  }

  lemma DispatchTraced(cfg: Config, s: State, t: Task)
    requires Traced(cfg, s) && Fresh(cfg, s, t)
    ensures Traced(cfg, Dispatch(cfg, s, t))
  {
    var served := Replied(StaleOr503(t.cached));
    if t.cached.Some? && !t.cached.value.IsExpired(s.wall) {
      EndTraced(cfg, s, t, served);
    } else if t.cached.Some? && t.cached.value.IsStaleServable(s.wall) {
      EndTraced(cfg, s, t, served);
      AppendTraced(cfg, End(s, t, served), t.(phase := Scheduled));
    } else if Visible(s.breaker, cfg.limits, s.mono) == Open {
      EndTraced(cfg, s, t, served);
    } else if t.key in s.inflight {
      AppendTraced(cfg, s, t.(phase := Waiting(s.inflight[t.key]), waits := 1));
    } else {
      LeadTraced(cfg, s, t);
    }
  }

  lemma BeginFetchTraced(cfg: Config, s: State, id: nat, role: Role)
    requires Traced(cfg, s) && id < |s.tasks|
    ensures Traced(cfg, BeginFetch(cfg, s, id, role))
  {
    assert TaskTraced(cfg, s.sent, id, s.tasks[id]);
  }

  /** What is stored for a response is supported, by the response or by what the task had cached. */
  lemma ToStoreSupported(cfg: Config, sent: seq<Sent>, id: nat, t: Task, resp: OriginResponse, now: Time)
    requires KeysOfPaths(cfg) && TaskTraced(cfg, sent, id, t) && Record(id, t, resp) in sent
    ensures var item := ToStore(cfg, t, resp, now);
      item.Some? ==> EntrySupported(cfg, sent, item.value.key, item.value.entry)
  {
    var item := ToStore(cfg, t, resp, now);
    if item.Some? && !(resp.statusCode == 304 && t.cached.Some?) {
      var r := Record(id, t, resp);
      assert IsKeyOf(item.value.key, r.path);
      assert Supports(cfg, r, item.value.key, resp.content, resp.statusCode, resp.headers);
    }
  }

  lemma ToReturnAccounted(cfg: Config, sent: seq<Sent>, id: nat, t: Task, resp: OriginResponse)
    requires TaskTraced(cfg, sent, id, t) && Record(id, t, resp) in sent
    ensures Accounted(cfg, sent, id, t, ToReturn(cfg, t, resp))
  {
    if !(cfg.read(resp).cacheable && resp.statusCode == 304 && t.cached.Some?) {
      var r := Record(id, t, resp);
      assert OwnAnswer(sent, id, Reply(resp.content, resp.statusCode, resp.headers, false));
    }
  }

  lemma CompleteTraced(cfg: Config, s: State, id: nat, resp: OriginResponse)
    requires KeysOfPaths(cfg) && Traced(cfg, s) && id < |s.tasks| && s.tasks[id].phase.Fetching?
    ensures Traced(cfg, DoComplete(cfg, s, id, resp))
  {
    var t, r := s.tasks[id], Record(id, s.tasks[id], resp);
    var answered := s.(breaker := Success(s.breaker, cfg.limits), sent := s.sent + [r]);
    MoreSent(cfg, s, r);
    SameTraced(cfg, s.(sent := answered.sent), answered);
    assert r in answered.sent;
    assert TaskTraced(cfg, answered.sent, id, t);
    ToStoreSupported(cfg, answered.sent, id, t, resp, s.wall);
    ToReturnAccounted(cfg, answered.sent, id, t, resp);
    var stored := StoreItem(answered, cfg, ToStore(cfg, t, resp, s.wall));
    StoreItemTraced(cfg, answered, ToStore(cfg, t, resp, s.wall));
    MoveTraced(cfg, stored, id, Done(Replied(ToReturn(cfg, t, resp))));
    FinishTraced(cfg, SetPhase(stored, id, Done(Replied(ToReturn(cfg, t, resp)))), id, t.phase.role, t.key);
  }

  lemma StoreItemTraced(cfg: Config, s: State, item: Option<Item>)
    requires Traced(cfg, s)
    requires item.Some? ==> EntrySupported(cfg, s.sent, item.value.key, item.value.entry)
    ensures Traced(cfg, StoreItem(s, cfg, item))
  {
    if item.Some? {
      PutSupported(cfg, s.sent, s.store, cfg.capacity, item.value);
    }
  }

  lemma FinishTraced(cfg: Config, s: State, id: nat, role: Role, key: Key)
    requires Traced(cfg, s)
    ensures Traced(cfg, Finish(s, id, role, key))
  {
    SameTraced(cfg, s, Finish(s, id, role, key));
  }

  lemma ArriveTraced(cfg: Config, s: State, path: string, headers: RequestHeaders)
    requires KeysOfPaths(cfg) && Traced(cfg, s)
    ensures Traced(cfg, DoArrive(cfg, s, path, headers))
  {
    var key := cfg.lookupKey(path, headers);
    GetSupported(cfg, s.sent, s.store, key, s.wall);
    var looked := s.(store := LruContents.Get(s.store, key, s.wall));
    assert Traced(cfg, looked);
    DispatchTraced(cfg, looked,
                   Task(path, headers, key, Touched(Lookup(s.store, key), s.wall), Done(Cancelled), 0, 0));
  }

  lemma ResumeTraced(cfg: Config, s: State, id: nat)
    requires Traced(cfg, s) && id < |s.tasks|
    ensures Traced(cfg, DoResume(cfg, s, id))
  {
    var t := s.tasks[id];
    GetSupported(cfg, s.sent, s.store, t.key, s.wall);
    if Lookup(s.store, t.key).Some? {
      var looked := s.(store := LruContents.Get(s.store, t.key, s.wall));
      assert Traced(cfg, looked);
      MoveTraced(cfg, looked, id, Done(Replied(Cached(Lookup(s.store, t.key).value, false))));
    } else {
      BeginFetchTraced(cfg, s, id, Follower);
    }
  }

  lemma NextTraced(cfg: Config, s: State, step: Step)
    requires KeysOfPaths(cfg) && Traced(cfg, s) && Enabled(s, step)
    ensures Traced(cfg, Next(cfg, s, step))
  {
    match step
    case Arrive(path, headers) => ArriveTraced(cfg, s, path, headers);
    case Resume(id) => ResumeTraced(cfg, s, id);
    case Launch(id) => BeginFetchTraced(cfg, s, id, Background);
    case Complete(id, resp) => CompleteTraced(cfg, s, id, resp);
    case Fail(id) => MoveTraced(cfg, s, id, Done(Raised));
    case Cancel(id) => MoveTraced(cfg, s, id, Done(Cancelled));
    case Purge(key) => assert forall it :: it in Remove(s.store, key) ==> it in s.store;
    case PurgePrefix(prefix) => assert forall it :: it in DeletePrefix(s.store, prefix) ==> it in s.store;
    case Tick(_, _) =>
  }

  lemma {:induction false} AlwaysTraced(cfg: Config, states: seq<State>, steps: seq<Step>)
    requires KeysOfPaths(cfg) && IsExecution(cfg, states, steps)
    ensures Traced(cfg, states[|steps|])
    decreases |steps|
  {
    if steps != [] {
      var n := |steps| - 1;
      AlwaysTraced(cfg, states[..n + 1], steps[..n]);
      assert states[..n + 1][n] == states[n];
      NextTraced(cfg, states[n], steps[n]);
    }
  }

  // ---------- paths ----------

  ghost predicate CleanTasks(s: State) { forall i :: 0 <= i < |s.tasks| ==> Clean(s.tasks[i].path) }

  ghost predicate CleanRun(steps: seq<Step>) {
    forall i :: 0 <= i < |steps| && steps[i].Arrive? ==> Clean(steps[i].path)
  }

  lemma NextClean(cfg: Config, s: State, step: Step)
    requires CleanTasks(s) && Enabled(s, step) && (step.Arrive? ==> Clean(step.path))
    ensures CleanTasks(Next(cfg, s, step))
  {
    var after := Next(cfg, s, step);
    if step.Arrive? {
      var key := cfg.lookupKey(step.path, step.headers);
      var added := DispatchAdds(cfg, s.(store := LruContents.Get(s.store, key, s.wall)),
        Task(step.path, step.headers, key, Touched(Lookup(s.store, key), s.wall), Done(Cancelled), 0, 0));
    } else if OfTask(step) {
      var t := OnlyThatTask(cfg, s, step);
      assert after.tasks[step.id].path == s.tasks[step.id].path;
    }
  }

  lemma {:induction false} AlwaysClean(cfg: Config, states: seq<State>, steps: seq<Step>)
    requires IsExecution(cfg, states, steps) && CleanRun(steps)
    ensures CleanTasks(states[|steps|])
    decreases |steps|
  {
    if steps != [] {
      var n := |steps| - 1;
      AlwaysClean(cfg, states[..n + 1], steps[..n]);
      assert states[..n + 1][n] == states[n];
      NextClean(cfg, states[n], steps[n]);
    }
  }

  /** A cacheable answer of the origin for exactly this path. */
  ghost predicate SentCacheable(cfg: Config, sent: seq<Sent>, path: string,
                                content: Bytes, status: int, headers: Headers) {
    exists r :: r in sent && r.path == path && cfg.read(r.response).cacheable
      && r.response.content == content && r.response.statusCode == status && r.response.headers == headers
  }

  /** Provenance and isolation, over every execution whose paths do not look like varied keys: every reply is
      the synthetic 503, the answer that the task itself received for its path, or a cacheable answer of the
      origin for its path; and everything stored is a cacheable answer for a path of its key. So the body of a
      no-store or private answer is never stored, and reaches only the task that fetched it. */
  lemma ProvenanceAndIsolation(cfg: Config, states: seq<State>, steps: seq<Step>)
    requires KeysOfPaths(cfg) && IsExecution(cfg, states, steps) && CleanRun(steps)
    ensures var s := states[|steps|];
      && (forall it :: it in s.store ==> EntrySupported(cfg, s.sent, it.key, it.entry))
      && (forall r :: r in s.sent ==> r.task < |s.tasks| && r.path == s.tasks[r.task].path)
      && (forall i, reply :: 0 <= i < |s.tasks| && s.tasks[i].phase == Done(Replied(reply)) ==>
            || reply == Unavailable()
            || OwnAnswer(s.sent, i, reply)
            || SentCacheable(cfg, s.sent, s.tasks[i].path, reply.content, reply.status, reply.headers))
  {
    var s := states[|steps|];
    AlwaysTraced(cfg, states, steps);
    AlwaysClean(cfg, states, steps);
    forall i, reply | 0 <= i < |s.tasks| && s.tasks[i].phase == Done(Replied(reply))
      && reply != Unavailable() && !OwnAnswer(s.sent, i, reply)
      ensures SentCacheable(cfg, s.sent, s.tasks[i].path, reply.content, reply.status, reply.headers)
    {
      var t := s.tasks[i];
      assert TaskTraced(cfg, s.sent, i, t);
      var r :| r in s.sent && Supports(cfg, r, t.key, reply.content, reply.status, reply.headers);
      KeyDeterminesPath(t.key, t.path, r.path);
    }
  }
}
