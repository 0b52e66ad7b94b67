/** The edge request protocol as a step system (src/application/cache_service.py). A step is what one task
    does between two suspension points; a run is any interleaving of steps. */
module EdgeProtocol {
  import opened Text
  import opened Entities
  import opened LruContents
  import opened BreakerSteps
  import opened CacheKeys
  import CacheControl

  // ---------- configuration ----------

  /** What a response's headers say: whether it may be stored, for how long, and what it varies on. */
  datatype Reading = Reading(cacheable: bool, ttl: Time, staleWindow: Time, vary: Option<seq<string>>)

  /** The pure helpers and the limits that the service is built from. */
  datatype Config = Config(
    lookupKey: (string, RequestHeaders) -> Key,
    storeKey: (string, RequestHeaders, Option<seq<string>>) -> Key,
    read: OriginResponse -> Reading,
    capacity: int,
    limits: Limits)

  function ReadHeaders(resp: OriginResponse, defaultTtl: Time): Reading {
    var cacheControl := CacheKeys.Get(resp.headers, "cache-control", "");
    var d := if cacheControl != "" then CacheControl.Parse(cacheControl) else CacheControl.NO_DIRECTIVES;
    Reading(d.IsCacheable(), d.EffectiveTtl(defaultTtl), d.EffectiveStaleWhileRevalidate(),
            VaryFields(CacheKeys.Get(resp.headers, "vary", "")))
  }

  /** The configuration of the service as written. */
  function Shipped(hash: VaryHash, defaultTtl: Time, capacity: int, limits: Limits): Config {
    Config(
      (path: string, headers: RequestHeaders) => LookupKey(hash, path, headers),
      (path: string, headers: RequestHeaders, fields: Option<seq<string>>) => StoreKey(hash, path, headers, fields),
      (resp: OriginResponse) => ReadHeaders(resp, defaultTtl),
      capacity, limits)
  }

  /** All that most theorems need of the configuration: keys belong to the requested path. */
  ghost predicate KeysOfPaths(cfg: Config) {
    && (forall path, headers :: IsKeyOf(cfg.lookupKey(path, headers), path))
    && (forall path, headers, fields :: IsKeyOf(cfg.storeKey(path, headers, fields), path))
  }

  lemma ShippedKeys(hash: VaryHash, defaultTtl: Time, capacity: int, limits: Limits)
    ensures KeysOfPaths(Shipped(hash, defaultTtl, capacity, limits))
  {
    forall path, vary ensures IsKeyOf(FromRequest(hash, path, vary), path) {
      FromRequestIsKeyOf(hash, path, vary);
    }
  }

  // ---------- state ----------

  datatype Role = Leader(event: nat) | Follower | Background

  datatype Reply = Reply(content: Bytes, status: int, headers: Headers, hit: bool)

  datatype Ending =
    | Replied(reply: Reply)
    | Raised                 // the origin error, or a failed assert, reaches the caller
    | RefusedByCircuit       // CircuitOpenError reaches the caller
    | Cancelled

  datatype Phase =
    | Scheduled              // a background task that has not started
    | Waiting(event: nat)    // suspended in event.wait()
    | Fetching(role: Role)   // suspended in origin_client.fetch
    | Done(ending: Ending)

  /** A request, or a background revalidation. waits and fetches count what it has begun. */
  datatype Task = Task(
    path: string,
    headers: RequestHeaders,
    key: Key,
    cached: Option<CacheEntry>,
    phase: Phase,
    waits: nat,
    fetches: nat)

  /** One answer of the origin, to one task; validating says whether the task had an entry to validate. */
  datatype Sent = Sent(task: nat, path: string, headers: RequestHeaders, validating: bool, response: OriginResponse)

  datatype State = State(
    tasks: seq<Task>,
    inflight: map<Key, nat>,
    events: seq<bool>,          // every asyncio.Event created, and whether it is set
    revalidations: set<nat>,    // the background tasks kept referenced
    store: Contents,
    breaker: Breaker,
    wall: Time,                 // time.time()
    mono: Time,                 // time.monotonic()
    sent: seq<Sent>)            // history: what the origin has answered

  const START := State([], map[], [], {}, [], INITIAL, 0.0, 0.0, [])

  // ---------- pieces of a step ----------

  /** The synthetic answer when there is nothing to serve. */
  function Unavailable(): Reply {
    Reply(Ascii("Service Unavailable: origin is down"), 503, map["Content-Type" := "text/plain"], false)
  }

  function Cached(e: CacheEntry, hit: bool): Reply { Reply(e.content, e.statusCode, e.headers, hit) }

  /** Serve what is stored, stale or not, or the synthetic 503. */
  function StaleOr503(cached: Option<CacheEntry>): Reply {
    if cached.Some? then Cached(cached.value, true) else Unavailable()
  }

  /** The If-None-Match header of a fetch. */
  function Condition(cached: Option<CacheEntry>): Option<string> {
    if cached.Some? && cached.value.etag.Some? && cached.value.etag.value != "" then cached.value.etag else None
  }

  /** The answer as it goes into the history. */
  function Record(id: nat, t: Task, resp: OriginResponse): Sent {
    Sent(id, t.path, t.headers, t.cached.Some?, resp)
  }

  function Add(s: State, t: Task): State { s.(tasks := s.tasks + [t]) }

  function SetPhase(s: State, id: nat, phase: Phase): State
    requires id < |s.tasks|
  {
    s.(tasks := s.tasks[id := s.tasks[id].(phase := phase)])
  }

  /** The finally blocks: a leader sets and unregisters its event, a background task drops its reference. */
  function Finish(s: State, id: nat, role: Role, key: Key): State {
    match role
    case Leader(ev) =>
      if ev < |s.events| then s.(events := s.events[ev := true], inflight := s.inflight - {key}) else s
    case Follower => s
    case Background => s.(revalidations := s.revalidations - {id})
  }

  /** Entering the circuit breaker on the way to the origin, for a follower or a background task. */
  function BeginFetch(cfg: Config, s: State, id: nat, role: Role): State
    requires id < |s.tasks|
  {
    match Enter(s.breaker, cfg.limits, s.mono)
    case Ok(b) =>
      var t := s.tasks[id];
      s.(breaker := b, tasks := s.tasks[id := t.(phase := Fetching(role), fetches := t.fetches + 1)])
    case Err(why) =>
      Finish(SetPhase(s, id, Done(if why.CircuitOpen? then RefusedByCircuit else Raised)), id, role, s.tasks[id].key)
  }

  /** What is stored for a response, and under which key; nothing if it may not be stored. */
  function ToStore(cfg: Config, t: Task, resp: OriginResponse, now: Time): Option<Item> {
    var r := cfg.read(resp);
    if !r.cacheable then None
    else if resp.statusCode == 304 && t.cached.Some? then
      var e := t.cached.value;
      var vary := if r.vary.Some? && r.vary.value != [] then r.vary else e.varyHeaders;
      Some(Item(t.key, CacheEntry(e.content, e.headers, e.etag, now, r.ttl, now, e.size, e.statusCode,
                                  r.staleWindow, vary)))
    else
      var key := if r.vary.Some? && r.vary.value != [] && t.headers != []
        then cfg.storeKey(t.path, t.headers, r.vary) else t.key;
      Some(Item(key, CacheEntry(resp.content, resp.headers, resp.etag, now, r.ttl, now, |resp.content|,
                                resp.statusCode, r.staleWindow, r.vary)))
  }

  /** What the task returns for a response. */
  function ToReturn(cfg: Config, t: Task, resp: OriginResponse): Reply {
    if cfg.read(resp).cacheable && resp.statusCode == 304 && t.cached.Some? then Cached(t.cached.value, false)
    else Reply(resp.content, resp.statusCode, resp.headers, false)
  }

  // ---------- steps ----------

  datatype Step =
    | Arrive(path: string, headers: RequestHeaders)
    | Resume(id: nat)                             // a follower whose event is set
    | Launch(id: nat)                             // a background task starts
    | Complete(id: nat, response: OriginResponse)
    | Fail(id: nat)                               // the fetch raises
    | Cancel(id: nat)
    | Purge(key: Key)
    | PurgePrefix(prefix: string)
    | Tick(wall: Time, mono: Time)                // both clocks move on

  ghost predicate Enabled(s: State, step: Step) {
    match step
    case Arrive(_, _) => true
    case Resume(id) => id < |s.tasks| && s.tasks[id].phase.Waiting?
      && s.tasks[id].phase.event < |s.events| && s.events[s.tasks[id].phase.event]
    case Launch(id) => id < |s.tasks| && s.tasks[id].phase.Scheduled?
    case Complete(id, _) => id < |s.tasks| && s.tasks[id].phase.Fetching?
    case Fail(id) => id < |s.tasks| && s.tasks[id].phase.Fetching?
    case Cancel(id) => id < |s.tasks| && !s.tasks[id].phase.Done?
    case Purge(_) => true
    case PurgePrefix(_) => true
    case Tick(wall, mono) => s.wall <= wall && s.mono <= mono
  }

  /** A request from its start to its first suspension or its end. */
  function DoArrive(cfg: Config, s: State, path: string, headers: RequestHeaders): State {
    var key := cfg.lookupKey(path, headers);
    var cached := Touched(Lookup(s.store, key), s.wall);
    Dispatch(cfg, s.(store := LruContents.Get(s.store, key, s.wall)),
             Task(path, headers, key, cached, Done(Cancelled), 0, 0))
  }

  /** t is the new request, with its lookup done; its phase is still to be decided. */
  function Dispatch(cfg: Config, s: State, t: Task): State {
    if t.cached.Some? && !t.cached.value.IsExpired(s.wall) then
      End(s, t, Replied(Cached(t.cached.value, true)))
    else if t.cached.Some? && t.cached.value.IsStaleServable(s.wall) then
      ScheduleRevalidation(End(s, t, Replied(Cached(t.cached.value, true))), t)
    else if Visible(s.breaker, cfg.limits, s.mono) == Open then
      End(s, t, Replied(StaleOr503(t.cached)))
    else if t.key in s.inflight then
      Add(s, t.(phase := Waiting(s.inflight[t.key]), waits := 1))
    else
      Lead(cfg, s, t)
  }

  /** A new request that ends in its first step. */
  function End(s: State, t: Task, ending: Ending): State { Add(s, t.(phase := Done(ending))) }

  function Touched(found: Option<CacheEntry>, now: Time): Option<CacheEntry> {
    if found.Some? then Some(found.value.Touch(now)) else None
  }

  function ScheduleRevalidation(s: State, t: Task): State {
    if t.key in s.inflight then s
    else Add(s, t.(phase := Scheduled)).(revalidations := s.revalidations + {|s.tasks|})
  }

  /** The leader path: register an event, and fetch unless the breaker refuses. */
  function Lead(cfg: Config, s: State, t: Task): State {
    match Enter(s.breaker, cfg.limits, s.mono)
    case Ok(b) => Register(s.(breaker := b), t)
    case Err(why) => LeadRefused(s, t, why)
  }

  function Register(s: State, t: Task): State {
    var ev := |s.events|;
    Add(s.(events := s.events + [false], inflight := s.inflight[t.key := ev]),
        t.(phase := Fetching(Leader(ev)), fetches := 1))
  }

  /** The event is registered, set and unregistered again in the same step. */
  function LeadRefused(s: State, t: Task, why: Refusal): State {
    End(s.(events := s.events + [true], inflight := s.inflight - {t.key}), t,
        if why.CircuitOpen? then Replied(StaleOr503(t.cached)) else Raised)
  }

  /** A follower wakes up. */
  function DoResume(cfg: Config, s: State, id: nat): State
    requires id < |s.tasks|
  {
    var t := s.tasks[id];
    match Lookup(s.store, t.key)
    case Some(e) =>
      SetPhase(s.(store := LruContents.Get(s.store, t.key, s.wall)), id, Done(Replied(Cached(e, false))))
    case None => BeginFetch(cfg, s, id, Follower)
  }

  function StoreItem(s: State, cfg: Config, item: Option<Item>): State {
    if item.Some? then s.(store := LruContents.Put(s.store, cfg.capacity, item.value.key, item.value.entry)) else s
  }

  /** The origin answers. */
  function DoComplete(cfg: Config, s: State, id: nat, resp: OriginResponse): State
    requires id < |s.tasks| && s.tasks[id].phase.Fetching?
  {
    var t := s.tasks[id];
    var answered := s.(breaker := Success(s.breaker, cfg.limits), sent := s.sent + [Record(id, t, resp)]);
    var stored := StoreItem(answered, cfg, ToStore(cfg, t, resp, s.wall));
    Finish(SetPhase(stored, id, Done(Replied(ToReturn(cfg, t, resp)))), id, t.phase.role, t.key)
  }

  /** The fetch ends with an exception, the origin's or a cancellation. */
  function DoEnd(cfg: Config, s: State, id: nat, ending: Ending): State
    requires id < |s.tasks| && s.tasks[id].phase.Fetching?
  {
    var t := s.tasks[id];
    var failed := s.(breaker := Failure(s.breaker, cfg.limits, s.mono));
    Finish(SetPhase(failed, id, Done(ending)), id, t.phase.role, t.key)
  }

  function Next(cfg: Config, s: State, step: Step): State
    requires Enabled(s, step)
  {
    match step
    case Arrive(path, headers) => DoArrive(cfg, s, path, headers)
    case Resume(id) => DoResume(cfg, s, id)
    case Launch(id) => BeginFetch(cfg, s, id, Background)
    case Complete(id, resp) => DoComplete(cfg, s, id, resp)
    case Fail(id) => DoEnd(cfg, s, id, Raised)
    case Cancel(id) =>
      if s.tasks[id].phase.Fetching? then DoEnd(cfg, s, id, Cancelled) else SetPhase(s, id, Done(Cancelled))
    case Purge(key) => s.(store := Remove(s.store, key))
    case PurgePrefix(prefix) => s.(store := DeletePrefix(s.store, prefix))
    case Tick(wall, mono) => s.(wall := wall, mono := mono)
  }

  // ---------- runs ----------

  /** Each state follows from the one before by an enabled step. */
  ghost predicate IsRun(cfg: Config, states: seq<State>, steps: seq<Step>) {
    && |states| == |steps| + 1
    && forall i :: 0 <= i < |steps| ==> Enabled(states[i], steps[i]) && states[i + 1] == Next(cfg, states[i], steps[i])
  }

  /** A run of the service from its empty state. */
  ghost predicate IsExecution(cfg: Config, states: seq<State>, steps: seq<Step>) {
    IsRun(cfg, states, steps) && states[0] == START
  }

  /** An execution goes on by any enabled step. */
  lemma ExtendExecution(cfg: Config, states: seq<State>, steps: seq<Step>, step: Step)
    requires IsExecution(cfg, states, steps) && Enabled(states[|steps|], step)
    ensures IsExecution(cfg, states + [Next(cfg, states[|steps|], step)], steps + [step])
  {
    hide Next, Enabled;
    var more, taken := states + [Next(cfg, states[|steps|], step)], steps + [step];
    forall i | 0 <= i < |taken|
      ensures Enabled(more[i], taken[i]) && more[i + 1] == Next(cfg, more[i], taken[i])
    {
      assert more[i] == states[i];
      if i < |steps| {
        assert more[i + 1] == states[i + 1] && taken[i] == steps[i];
      }
    }
  }
}
