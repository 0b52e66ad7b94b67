/** Revalidation against the repository's own origin (src/presentation/origin/routes.py,
    src/application/cache_service.py; sections 3.2 and 4.1 of RFC 7232). */
module ConditionalFetch {
  import opened Text
  import opened Entities
  import opened LruContents
  import opened BreakerSteps
  import opened CacheKeys
  import opened EdgeProtocol
  import opened Progress

  // ---------- the origin ----------

  /** What the assets directory holds at a path. */
  datatype Asset = Outside | Missing | File(content: Bytes, contentType: string)

  type Assets = string -> Asset

  /** The digest of a file. */
  type Digest = Bytes -> string

  ghost predicate Faithful(digest: Digest) {
    && (forall a, b :: digest(a) == digest(b) ==> a == b)
    && (forall a :: '"' !in digest(a))
  }

  function Quote(s: string): string { "\"" + s + "\"" }

  /** s.strip('"') */
  function StripQuotes(s: string): string {
    if s != [] && s[0] == '"' then StripQuotes(s[1..])
    else if s != [] && s[|s| - 1] == '"' then StripQuotes(s[..|s| - 1])
    else s
  }

  /** serve_file without a Range header. */
  function Serve(digest: Digest, assets: Assets, path: string, ifNoneMatch: Option<string>): OriginResponse {
    match assets(path)
    case Outside => OriginResponse(Ascii("Forbidden"), 403, map[], None)
    case Missing => OriginResponse(Ascii("Not Found"), 404, map[], None)
    case File(content, contentType) =>
      var etag := Quote(digest(content));
      if ifNoneMatch.Some? && ifNoneMatch.value != "" && StripQuotes(ifNoneMatch.value) == digest(content) then
        OriginResponse([], 304, map["etag" := etag], Some(etag))
      else
        OriginResponse(content, 200,
          map["etag" := etag, "content-length" := PrintNat(|content|), "accept-ranges" := "bytes",
              "content-type" := contentType],
          Some(etag))
  }

  lemma {:induction false} StripUnquoted(s: string)
    requires '"' !in s
    ensures StripQuotes(s + "\"") == s
    ensures StripQuotes(s) == s
  {
    var q := s + "\"";
    assert q[..|q| - 1] == s;
    if s != [] {
      assert s[0] in s && s[|s| - 1] in s;
      assert q[0] == s[0];
    } else {
      assert q[1..] == s;
    }
  }

  lemma StripQuoted(s: string)
    requires '"' !in s
    ensures StripQuotes(Quote(s)) == s
  {
    assert Quote(s)[1..] == s + "\"";
    StripUnquoted(s);
  }

  // ---------- runs against that origin ----------

  /** Responses without Cache-Control may be stored. */
  ghost predicate PlainIsCacheable(cfg: Config) {
    forall resp: OriginResponse :: "cache-control" !in resp.headers ==> cfg.read(resp).cacheable
  }

  lemma ShippedPlainIsCacheable(hash: VaryHash, defaultTtl: Time, capacity: int, limits: Limits)
    ensures PlainIsCacheable(Shipped(hash, defaultTtl, capacity, limits))
  {
    var cfg := Shipped(hash, defaultTtl, capacity, limits);
    forall resp: OriginResponse | "cache-control" !in resp.headers ensures cfg.read(resp).cacheable {
      assert CacheKeys.Get(resp.headers, "cache-control", "") == "";
      assert cfg.read(resp) == ReadHeaders(resp, defaultTtl);
    }
  }

  /** The response of a completion is what the origin serves at that moment for the task's request. */
  ghost predicate Answers(digest: Digest, assets: Assets, s: State, step: Step) {
    step.Complete? && step.id < |s.tasks| ==>
      step.response == Serve(digest, assets, s.tasks[step.id].path, Condition(s.tasks[step.id].cached))
  }

  /** The assets may change between any two steps. */
  ghost predicate OriginRun(digest: Digest, assets: seq<Assets>, states: seq<State>, steps: seq<Step>) {
    && |assets| == |steps| && |states| == |steps| + 1
    && forall n :: 0 <= n < |steps| ==> Answers(digest, assets[n], states[n], steps[n])
  }

  /** An entry with a usable ETag is a 200 with the ETag of its own content, and every 200 has one. */
  ghost predicate Honest(digest: Digest, e: CacheEntry) {
    && (e.etag.Some? && e.etag.value != "" ==> e.statusCode == 200)
    && (e.statusCode == 200 ==> e.etag == Some(Quote(digest(e.content))))
  }

  ghost predicate HonestStore(digest: Digest, store: Contents) { forall it :: it in store ==> Honest(digest, it.entry) }

  ghost predicate HonestTask(digest: Digest, t: Task) { t.cached.Some? ==> Honest(digest, t.cached.value) }

  ghost predicate AllHonest(digest: Digest, s: State) {
    && HonestStore(digest, s.store)
    && forall i :: 0 <= i < |s.tasks| ==> HonestTask(digest, s.tasks[i])
  }

  /** The same content and status. */
  predicate SameBody(reply: Reply, resp: OriginResponse) {
    reply.content == resp.content && reply.status == resp.statusCode
  }

  /** An unconditional GET says by its status whether there is a file, and sends all of it. */
  lemma ServesByStatus(digest: Digest, assets: Assets, path: string)
    ensures var resp := Serve(digest, assets, path, None);
      && (resp.statusCode == 200 <==> assets(path).File?)
      && (resp.statusCode == 404 <==> assets(path).Missing?)
      && (resp.statusCode == 403 <==> assets(path).Outside?)
      && (assets(path).File? ==>
           && resp.content == assets(path).content
           && resp.etag == Some("\"" + digest(assets(path).content) + "\"")
           && resp.headers == map["etag" := resp.etag.value, "content-length" := PrintNat(|resp.content|),
                "accept-ranges" := "bytes", "content-type" := assets(path).contentType])
  {
  }

  /** Revalidating a stored file costs no body exactly when the file has not changed: the origin then answers 304
      without content; and every stored 200 is revalidated so. */
  lemma UnchangedIsNotSent(digest: Digest, assets: Assets, path: string, e: CacheEntry)
    requires Faithful(digest) && Honest(digest, e) && e.statusCode == 200
    ensures Condition(Some(e)) == Some(Quote(digest(e.content)))
    ensures var resp := Serve(digest, assets, path, Condition(Some(e)));
      && (resp.statusCode == 304 <==> assets(path).File? && assets(path).content == e.content)
      && (resp.statusCode == 304 ==> resp.content == [])
  {
    StripQuoted(digest(e.content));
  }

  /** Without an entry that has an ETag the fetch is unconditional, and is never answered 304. */
  lemma NothingToValidate(digest: Digest, assets: Assets, path: string, cached: Option<CacheEntry>)
    requires cached.None? || cached.value.etag.None? || cached.value.etag.value == ""
    ensures Condition(cached) == None && Serve(digest, assets, path, Condition(cached)).statusCode != 304
  {
  }

  /** A conditional fetch of an honest entry returns what an unconditional GET would return now. */
  lemma ReturnsCurrent(cfg: Config, digest: Digest, assets: Assets, t: Task)
    requires Faithful(digest) && PlainIsCacheable(cfg) && HonestTask(digest, t)
    ensures SameBody(ToReturn(cfg, t, Serve(digest, assets, t.path, Condition(t.cached))),
                     Serve(digest, assets, t.path, None))
  {
    var resp := Serve(digest, assets, t.path, Condition(t.cached));
    if resp.statusCode == 304 {
      var e := t.cached.value;
      StripQuoted(digest(e.content));
      assert assets(t.path).content == e.content;
      assert cfg.read(resp).cacheable;
    }
  }

  lemma StoresHonest(cfg: Config, digest: Digest, assets: Assets, t: Task, now: Time)
    requires HonestTask(digest, t)
    ensures var item := ToStore(cfg, t, Serve(digest, assets, t.path, Condition(t.cached)), now);
      item.Some? ==> Honest(digest, item.value.entry)
  {
  }

  lemma GetHonest(digest: Digest, store: Contents, k: Key, now: Time)
    requires HonestStore(digest, store)
    ensures HonestStore(digest, LruContents.Get(store, k, now))
    ensures Lookup(store, k).Some? ==> Honest(digest, Lookup(store, k).value)
  {
    var found := Lookup(store, k);
    if found.Some? {
      assert Item(k, found.value) in store;
    }
  }

  lemma PutHonest(digest: Digest, store: Contents, cap: int, it: Item)
    requires HonestStore(digest, store) && Honest(digest, it.entry)
    ensures HonestStore(digest, LruContents.Put(store, cap, it.key, it.entry))
  {
    EvictSplits(Remove(store, it.key), it.entry.size, cap);
  }

  lemma StoreHonest(cfg: Config, digest: Digest, assets: Assets, s: State, step: Step)
    requires AllHonest(digest, s) && Enabled(s, step) && Answers(digest, assets, s, step)
    ensures HonestStore(digest, Next(cfg, s, step).store)
  {
    match step
    case Complete(id, resp) =>
      assert HonestTask(digest, s.tasks[id]);
      CompleteHonest(cfg, digest, assets, s, id, resp);
    case Arrive(path, headers) =>
      StoreAfter(cfg, s, step);
      GetHonest(digest, s.store, cfg.lookupKey(path, headers), s.wall);
    case Resume(id) =>
      StoreAfter(cfg, s, step);
      GetHonest(digest, s.store, s.tasks[id].key, s.wall);
    case Purge(key) =>
    case PurgePrefix(prefix) =>
    case _ => StoreAfter(cfg, s, step);
  }

  lemma CompleteHonest(cfg: Config, digest: Digest, assets: Assets, s: State, id: nat, resp: OriginResponse)
    requires HonestStore(digest, s.store) && id < |s.tasks| && s.tasks[id].phase.Fetching?
    requires HonestTask(digest, s.tasks[id])
    requires resp == Serve(digest, assets, s.tasks[id].path, Condition(s.tasks[id].cached))
    ensures HonestStore(digest, DoComplete(cfg, s, id, resp).store)
  {
    StoresHonest(cfg, digest, assets, s.tasks[id], s.wall);
    var item := ToStore(cfg, s.tasks[id], resp, s.wall);
    if item.Some? {
      PutHonest(digest, s.store, cfg.capacity, item.value);
    }
  }

  lemma TasksHonest(cfg: Config, digest: Digest, s: State, step: Step)
    requires AllHonest(digest, s) && Enabled(s, step)
    ensures forall i :: 0 <= i < |Next(cfg, s, step).tasks| ==> HonestTask(digest, Next(cfg, s, step).tasks[i])
  {
    if step.Arrive? {
      var key := cfg.lookupKey(step.path, step.headers);
      GetHonest(digest, s.store, key, s.wall);
      var added := DispatchAdds(cfg, s.(store := LruContents.Get(s.store, key, s.wall)),
        Task(step.path, step.headers, key, Touched(Lookup(s.store, key), s.wall), Done(Cancelled), 0, 0));
    } else if OfTask(step) {
      var t := OnlyThatTask(cfg, s, step);
      assert HonestTask(digest, s.tasks[step.id]);
    }
  }

  /** The reply of a completion, against an unconditional GET at that moment. */
  ghost predicate CompletesCurrent(cfg: Config, digest: Digest, assets: Assets, s: State, step: Step) {
    step.Complete? && Enabled(s, step) ==>
      exists reply ::
        && Next(cfg, s, step).tasks[step.id].phase == Done(Replied(reply))
        && SameBody(reply, Serve(digest, assets, s.tasks[step.id].path, None))
  }

  lemma StepCurrent(cfg: Config, digest: Digest, assets: Assets, s: State, step: Step)
    requires Faithful(digest) && PlainIsCacheable(cfg)
    requires AllHonest(digest, s) && Enabled(s, step) && Answers(digest, assets, s, step)
    ensures CompletesCurrent(cfg, digest, assets, s, step)
  {
    if step.Complete? {
      assert HonestTask(digest, s.tasks[step.id]);
      ReturnsCurrent(cfg, digest, assets, s.tasks[step.id]);
      assert Next(cfg, s, step).tasks[step.id].phase == Done(Replied(ToReturn(cfg, s.tasks[step.id], step.response)));
    }
  }

  /** Conditional fetches preserve meaning: in every execution against the repository's origin, however its
      files change, each completed fetch, answered 304 or not, returns the content and status that an
      unconditional GET would return at that moment. */
  lemma {:induction false} ConditionalFetchPreservesMeaning(
    cfg: Config, digest: Digest, assets: seq<Assets>, states: seq<State>, steps: seq<Step>)
    requires Faithful(digest) && PlainIsCacheable(cfg)
    requires IsExecution(cfg, states, steps) && OriginRun(digest, assets, states, steps)
    ensures AllHonest(digest, states[|steps|])
    ensures forall n :: 0 <= n < |steps| ==> CompletesCurrent(cfg, digest, assets[n], states[n], steps[n])
    decreases |steps|
  {
    if steps != [] {
      var n := |steps| - 1;
      var s, step := states[n], steps[n];
      PrefixRun(cfg, digest, assets, states, steps, n);
      ConditionalFetchPreservesMeaning(cfg, digest, assets[..n], states[..n + 1], steps[..n]);
      assert states[..n + 1][n] == s;
      StoreHonest(cfg, digest, assets[n], s, step);
      TasksHonest(cfg, digest, s, step);
      StepCurrent(cfg, digest, assets[n], s, step);
      forall m | 0 <= m < n ensures CompletesCurrent(cfg, digest, assets[m], states[m], steps[m]) {
        assert CompletesCurrent(cfg, digest, assets[..n][m], states[..n + 1][m], steps[..n][m]);
      }
    }
  }

  lemma PrefixRun(cfg: Config, digest: Digest, assets: seq<Assets>, states: seq<State>, steps: seq<Step>, n: nat)
    requires IsExecution(cfg, states, steps) && OriginRun(digest, assets, states, steps) && n <= |steps|
    ensures IsExecution(cfg, states[..n + 1], steps[..n])
    ensures OriginRun(digest, assets[..n], states[..n + 1], steps[..n])
  {
  }
}
