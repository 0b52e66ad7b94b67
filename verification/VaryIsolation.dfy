/** Which request an entry may answer: the key that an answer with Vary is stored under, and that nobody is answered
    with an entry fetched for other values of the headers it varies on (src/application/cache_service.py,
    src/domain/value_objects.py; section 4.1 of RFC 7234). */
module VaryIsolation {
  import opened Text
  import opened Entities
  import opened LruContents
  import opened BreakerSteps
  import opened CacheKeys
  import opened EdgeProtocol
  import opened Progress
  import opened StoredEntries
  import opened Coalescing
  import opened Cohort
  import opened Stampede
  import opened Revalidation
  import CacheControl
  import Provenance

  // ---------- the key of an answer ----------

  function Fields(vary: Option<seq<string>>): seq<string> { if vary.Some? then vary.value else [] }

  /** The answer was used to refresh an entry. */
  predicate Refreshes(r: Sent) { r.validating && r.response.statusCode == 304 }

  /** The varying headers that stand in the key of a new answer: those that its own Vary names, or, for an answer
      without Vary or to a request without headers, those of a lookup. */
  function Dictionary(r: Sent, vary: Option<seq<string>>): Headers {
    if Fields(vary) != [] && r.headers != [] then VaryValues(Fields(vary), r.headers) else LookupVary(r.headers)
  }

  /** In the shipped service, a new answer that may be stored is stored under the key of its path and of the values
      that the request had for the fields of its Vary; a 304 refreshes the entry that it validates under its key. */
  lemma StoredUnder(hash: VaryHash, defaultTtl: Time, capacity: int, limits: Limits,
                    id: nat, t: Task, resp: OriginResponse, now: Time)
    requires t.key == LookupKey(hash, t.path, t.headers) && ReadHeaders(resp, defaultTtl).cacheable
    ensures var item := ToStore(Shipped(hash, defaultTtl, capacity, limits), t, resp, now);
      var r := Record(id, t, resp);
      && item.Some?
      && item.value.key == if Refreshes(r) then t.key
         else FromRequest(hash, t.path, Dictionary(r, ReadHeaders(resp, defaultTtl).vary))
  {
    hide ReadHeaders;
  }

  // ---------- where an entry comes from ----------

  /** The entry holds this answer, under the key of the answer. */
  ghost predicate FetchedAs(cfg: Config, r: Sent, k: Key, e: CacheEntry) {
    && !Refreshes(r) && cfg.read(r.response).cacheable
    && e.content == r.response.content && e.statusCode == r.response.statusCode
    && e.headers == r.response.headers && e.etag == r.response.etag && e.size == |e.content|
    && k == (if Fields(cfg.read(r.response).vary) != [] && r.headers != []
             then cfg.storeKey(r.path, r.headers, cfg.read(r.response).vary) else cfg.lookupKey(r.path, r.headers))
  }

  /** The entry's Vary is that of a 304 to a request for its key. */
  ghost predicate VaryFrom304(cfg: Config, r: Sent, k: Key, e: CacheEntry) {
    && Refreshes(r) && cfg.read(r.response).vary == e.varyHeaders && k == cfg.lookupKey(r.path, r.headers)
  }

  ghost predicate Comes(cfg: Config, sent: seq<Sent>, r: Sent, k: Key, e: CacheEntry) {
    && r in sent && FetchedAs(cfg, r, k, e)
    && (e.varyHeaders == cfg.read(r.response).vary || exists v :: v in sent && VaryFrom304(cfg, v, k, e))
  }

  ghost predicate Derived(cfg: Config, sent: seq<Sent>, k: Key, e: CacheEntry) {
    exists r :: Comes(cfg, sent, r, k, e)
  }

  ghost function DerivedFor(cfg: Config): Property {
    (sent: seq<Sent>, k: Key, e: CacheEntry) => Derived(cfg, sent, k, e)
  }

  lemma DerivedTouched(cfg: Config, sent: seq<Sent>, k: Key, e: CacheEntry, now: Time)
    requires Derived(cfg, sent, k, e)
    ensures Derived(cfg, sent, k, e.Touch(now))
  {
    var r :| Comes(cfg, sent, r, k, e);
    if e.varyHeaders != cfg.read(r.response).vary {
      var v :| v in sent && VaryFrom304(cfg, v, k, e);
      assert VaryFrom304(cfg, v, k, e.Touch(now));
    }
    assert Comes(cfg, sent, r, k, e.Touch(now));
  }

  lemma DerivedLater(cfg: Config, sent: seq<Sent>, k: Key, e: CacheEntry, more: Sent)
    requires Derived(cfg, sent, k, e)
    ensures Derived(cfg, sent + [more], k, e)
  {
    var r :| Comes(cfg, sent, r, k, e);
    if e.varyHeaders != cfg.read(r.response).vary {
      var v :| v in sent && VaryFrom304(cfg, v, k, e);
      assert v in sent + [more];
    }
    assert Comes(cfg, sent + [more], r, k, e);
  }

  lemma DerivedStored(cfg: Config, sent: seq<Sent>, id: nat, t: Task, resp: OriginResponse, now: Time)
    ensures Preserves(cfg, DerivedFor(cfg), sent, id, t, resp, now)
  {
    var item, r := ToStore(cfg, t, resp, now), Record(id, t, resp);
    if GoodTask(cfg, DerivedFor(cfg), sent, t) && item.Some? {
      if Refreshes(r) {
        DerivedRefreshed(cfg, sent, id, t, resp, now);
      } else {
        assert Comes(cfg, sent + [r], r, item.value.key, item.value.entry);
      }
    }
  }

  lemma DerivedRefreshed(cfg: Config, sent: seq<Sent>, id: nat, t: Task, resp: OriginResponse, now: Time)
    requires t.key == cfg.lookupKey(t.path, t.headers) && t.cached.Some? && Derived(cfg, sent, t.key, t.cached.value)
    requires cfg.read(resp).cacheable && resp.statusCode == 304
    ensures var item := ToStore(cfg, t, resp, now).value;
      Derived(cfg, sent + [Record(id, t, resp)], item.key, item.entry)
  {
    var was, item, r := t.cached.value, ToStore(cfg, t, resp, now).value, Record(id, t, resp);
    DerivedLater(cfg, sent, t.key, was, r);
    var from :| Comes(cfg, sent + [r], from, t.key, was);
    if item.entry.varyHeaders == was.varyHeaders {
      if was.varyHeaders != cfg.read(from.response).vary {
        var v :| v in sent + [r] && VaryFrom304(cfg, v, t.key, was);
        assert VaryFrom304(cfg, v, item.key, item.entry);
      }
    } else {
      assert VaryFrom304(cfg, r, item.key, item.entry);
    }
    assert Comes(cfg, sent + [r], from, item.key, item.entry);
  }

  /** In every execution, every stored entry holds an answer of the origin, with its status, headers, ETag and size,
      under the key of that answer; its Vary is that of the answer or of a 304 to a request for its key. */
  lemma AlwaysDerived(cfg: Config, states: seq<State>, steps: seq<Step>)
    requires IsExecution(cfg, states, steps)
    ensures forall it :: it in states[|steps|].store ==> Derived(cfg, states[|steps|].sent, it.key, it.entry)
    ensures forall i :: 0 <= i < |states[|steps|].tasks| ==>
      states[|steps|].tasks[i].key == cfg.lookupKey(states[|steps|].tasks[i].path, states[|steps|].tasks[i].headers)
  {
    var p := DerivedFor(cfg);
    forall sent, k, e, now: Time | p(sent, k, e) ensures p(sent, k, e.Touch(now)) {
      DerivedTouched(cfg, sent, k, e, now);
    }
    forall sent, k, e, r | p(sent, k, e) ensures p(sent + [r], k, e) {
      DerivedLater(cfg, sent, k, e, r);
    }
    forall sent, id, t, resp, now ensures Preserves(cfg, p, sent, id, t, resp, now) {
      DerivedStored(cfg, sent, id, t, resp, now);
    }
    Always(cfg, p, states, steps);
    var s := states[|steps|];
    forall i | 0 <= i < |s.tasks| ensures s.tasks[i].key == cfg.lookupKey(s.tasks[i].path, s.tasks[i].headers) {
      assert GoodTask(cfg, p, s.sent, s.tasks[i]);
    }
  }

  // ---------- nobody is answered for other values ----------

  /** The two requests have the same values for the fields. */
  predicate SameValues(fields: seq<string>, a: RequestHeaders, b: RequestHeaders) {
    VaryValues(fields, a) == VaryValues(fields, b)
  }

  /** Vary names nothing but accept-encoding, the one header that lookups look at. */
  predicate OnlyLookedUp(fields: seq<string>) { forall f :: f in fields ==> f == ACCEPT_ENCODING }

  /** The hash does not confuse these two dictionaries. */
  predicate ToldApart(hash: VaryHash, a: Headers, b: Headers) {
    a != map[] && b != map[] && hash(a) == hash(b) ==> a == b
  }

  lemma SameDictionary(hash: VaryHash, path: string, a: Headers, b: Headers)
    requires FromRequest(hash, path, a) == FromRequest(hash, path, b) && ToldApart(hash, a, b)
    ensures a == b
  {
    if a != b {
      if a != map[] {
        DifferentKeys(hash, path, a, b);
      } else {
        DifferentKeys(hash, path, b, a);
      }
    }
  }

  /** A request that looks up the key of an answer has the answer's values for everything in a Vary that names only
      accept-encoding, and for the answer's own Vary when the key was made from it. */
  lemma LookupAgrees(r: Sent, vary: Option<seq<string>>, headers: RequestHeaders, fields: seq<string>)
    requires LookupVary(headers) == Dictionary(r, vary)
    requires OnlyLookedUp(fields) || (fields == Fields(vary) && r.headers != [])
    ensures SameValues(fields, headers, r.headers)
  {
    var own := Fields(vary);
    if own != [] && r.headers != [] {
      assert own[0] in VaryValues(own, r.headers);
      assert VaryValues(own, r.headers).Keys == set f | f in own;
      assert LookupVary(headers).Keys <= {ACCEPT_ENCODING};
      assert forall f :: f in own ==> f in VaryValues(own, r.headers);
      assert ACCEPT_ENCODING in LookupVary(headers);
      assert VaryValues(own, r.headers)[ACCEPT_ENCODING] == LookupVary(headers)[ACCEPT_ENCODING];
      assert CacheKeys.Get(Normalize(headers), ACCEPT_ENCODING, "")
        == CacheKeys.Get(Normalize(r.headers), ACCEPT_ENCODING, "");
    } else {
      LookupVaryValue(headers);
      LookupVaryValue(r.headers);
    }
  }

  lemma LookupVaryValue(headers: RequestHeaders)
    ensures CacheKeys.Get(Normalize(headers), ACCEPT_ENCODING, "")
      == CacheKeys.Get(LookupVary(headers), ACCEPT_ENCODING, "")
  {
  }

  /** An answer whose Vary no lookup can honour, stored where lookups find it: to a request without headers,
      or a 304. */
  ghost predicate Stray(cfg: Config, r: Sent) {
    !OnlyLookedUp(Fields(cfg.read(r.response).vary)) && (r.headers == [] || Refreshes(r))
  }

  /** The entry is right for this request: it was fetched for the same path, from an answer that may be stored, and
      for the same values of the headers in its Vary. */
  ghost predicate RightFor(cfg: Config, sent: seq<Sent>, e: CacheEntry, path: string, headers: RequestHeaders) {
    exists r :: r in sent && r.path == path && cfg.read(r.response).cacheable
      && e.content == r.response.content && e.statusCode == r.response.statusCode && e.headers == r.response.headers
      && SameValues(Fields(e.varyHeaders), headers, r.headers)
  }

  lemma FoundIsRight(hash: VaryHash, defaultTtl: Time, capacity: int, limits: Limits, sent: seq<Sent>,
                     path: string, headers: RequestHeaders, r: Sent, e: CacheEntry)
    requires var cfg := Shipped(hash, defaultTtl, capacity, limits);
      && Comes(cfg, sent, r, LookupKey(hash, path, headers), e)
      && forall v :: v in sent ==> !Stray(cfg, v)
    requires Clean(path) && Clean(r.path)
    requires ToldApart(hash, LookupVary(headers), Dictionary(r, ReadHeaders(r.response, defaultTtl).vary))
    ensures RightFor(Shipped(hash, defaultTtl, capacity, limits), sent, e, path, headers)
  {
    hide ReadHeaders, VaryFields, Clean;
    var cfg := Shipped(hash, defaultTtl, capacity, limits);
    var vary, k := cfg.read(r.response).vary, LookupKey(hash, path, headers);
    var values := Dictionary(r, vary);
    assert k == FromRequest(hash, r.path, values);
    FromRequestIsKeyOf(hash, path, LookupVary(headers));
    FromRequestIsKeyOf(hash, r.path, values);
    KeyDeterminesPath(k, path, r.path);
    SameDictionary(hash, path, LookupVary(headers), values);
    assert !Stray(cfg, r);
    if e.varyHeaders != vary {
      var v :| v in sent && VaryFrom304(cfg, v, k, e);
      assert !Stray(cfg, v);
    }
    LookupAgrees(r, vary, headers, Fields(e.varyHeaders));
  }

  /** Over every execution of the shipped service, with paths that do not end like varied keys: whatever a request
      finds under the key that it looks up, as it arrives or resumes, was fetched for its own path and for its own
      values of the headers in the entry's Vary, if the hash tells the values apart and no stray answer was stored. */
  lemma NeverForOtherValues(hash: VaryHash, defaultTtl: Time, capacity: int, limits: Limits,
                            states: seq<State>, steps: seq<Step>, path: string, headers: RequestHeaders)
    requires IsExecution(Shipped(hash, defaultTtl, capacity, limits), states, steps)
    requires Provenance.CleanRun(steps) && Clean(path)
    requires Lookup(states[|steps|].store, LookupKey(hash, path, headers)).Some?
    requires forall r :: r in states[|steps|].sent ==>
      && !Stray(Shipped(hash, defaultTtl, capacity, limits), r)
      && ToldApart(hash, LookupVary(headers), Dictionary(r, ReadHeaders(r.response, defaultTtl).vary))
    ensures RightFor(Shipped(hash, defaultTtl, capacity, limits), states[|steps|].sent,
                     Lookup(states[|steps|].store, LookupKey(hash, path, headers)).value, path, headers)
  {
    hide ReadHeaders, Next, RightFor, Comes, Stray, ToldApart, Clean;
    var cfg, s, k := Shipped(hash, defaultTtl, capacity, limits), states[|steps|], LookupKey(hash, path, headers);
    var e := Lookup(s.store, k).value;
    ShippedKeys(hash, defaultTtl, capacity, limits);
    Provenance.AlwaysTraced(cfg, states, steps);
    Provenance.AlwaysClean(cfg, states, steps);
    AlwaysDerived(cfg, states, steps);
    assert Item(k, e) in s.store;
    var r :| Comes(cfg, s.sent, r, k, e);
    ComesFromSent(cfg, s.sent, r, k, e);
    FoundIsRight(hash, defaultTtl, capacity, limits, s.sent, path, headers, r, e);
  }

  lemma ComesFromSent(cfg: Config, sent: seq<Sent>, r: Sent, k: Key, e: CacheEntry)
    requires Comes(cfg, sent, r, k, e)
    ensures r in sent
  {
  }

  // ---------- the condition is exact ----------

  /** Every request that looks up the key of what is stored for the answer has the values that the task had. */
  ghost predicate RightForAll(hash: VaryHash, t: Task, r: Sent, vary: Option<seq<string>>, item: Item) {
    forall headers ::
      LookupKey(hash, t.path, headers) == item.key
      && ToldApart(hash, LookupVary(headers), if Refreshes(r) then LookupVary(t.headers) else Dictionary(r, vary))
      ==> SameValues(Fields(item.entry.varyHeaders), headers, t.headers)
  }

  /** What is stored for an answer is right for every request that finds it if and only if its Vary names only
      accept-encoding, or it is a new answer to a request with headers. */
  lemma StoredRightIff(hash: VaryHash, defaultTtl: Time, capacity: int, limits: Limits,
                       id: nat, t: Task, resp: OriginResponse, now: Time)
    requires t.key == LookupKey(hash, t.path, t.headers) && ReadHeaders(resp, defaultTtl).cacheable
    requires var item := ToStore(Shipped(hash, defaultTtl, capacity, limits), t, resp, now).value;
      forall f :: f in Fields(item.entry.varyHeaders) ==> Lower(f) == f
    ensures var item := ToStore(Shipped(hash, defaultTtl, capacity, limits), t, resp, now).value;
      var r := Record(id, t, resp);
      RightForAll(hash, t, r, ReadHeaders(resp, defaultTtl).vary, item) <==>
        OnlyLookedUp(Fields(item.entry.varyHeaders)) || (!Refreshes(r) && t.headers != [])
  {
    hide ReadHeaders, ToldApart, SameValues;
    StoredUnder(hash, defaultTtl, capacity, limits, id, t, resp, now);
    var item, r := ToStore(Shipped(hash, defaultTtl, capacity, limits), t, resp, now).value, Record(id, t, resp);
    var vary, fields := ReadHeaders(resp, defaultTtl).vary, Fields(item.entry.varyHeaders);
    if OnlyLookedUp(fields) || (!Refreshes(r) && t.headers != []) {
      forall headers | LookupKey(hash, t.path, headers) == item.key
        && ToldApart(hash, LookupVary(headers), if Refreshes(r) then LookupVary(t.headers) else Dictionary(r, vary))
        ensures SameValues(fields, headers, t.headers)
      {
        if Refreshes(r) {
          SameDictionary(hash, t.path, LookupVary(headers), LookupVary(t.headers));
          LookupAgrees(r, None, headers, fields);
        } else {
          SameDictionary(hash, t.path, LookupVary(headers), Dictionary(r, vary));
          LookupAgrees(r, vary, headers, fields);
        }
      }
    } else {
      var headers := OtherValues(t.headers, fields);
      SameIsToldApart(hash, LookupVary(headers));
    }
  }

  lemma SameIsToldApart(hash: VaryHash, a: Headers)
    ensures ToldApart(hash, a, a)
  {
  }

  /** A request that looks up the same key, with another value for a field that lookups do not look at. */
  lemma OtherValues(headers: RequestHeaders, fields: seq<string>) returns (other: RequestHeaders)
    requires !OnlyLookedUp(fields) && forall f :: f in fields ==> Lower(f) == f
    ensures LookupVary(other) == LookupVary(headers) && !SameValues(fields, other, headers)
  {
    var f :| f in fields && f != ACCEPT_ENCODING;
    var value := CacheKeys.Get(Normalize(headers), f, "") + "x";
    other := headers + [(f, value)];
    assert other[..|headers|] == headers;
    assert Normalize(other) == Normalize(headers)[f := value];
    assert f in VaryValues(fields, other) && f in VaryValues(fields, headers);
    assert VaryValues(fields, other)[f] == value && VaryValues(fields, headers)[f] != value;
  }

  /** From any state: a stray answer is stored, and at the same moment another request, with other values for the
      headers in its Vary, is answered with it as a hit. */
  lemma StrayIsServed(hash: VaryHash, defaultTtl: Time, capacity: int, limits: Limits,
                      s: State, id: nat, resp: OriginResponse)
    returns (other: RequestHeaders)
    requires Positive(limits) && Inv(s.breaker, limits) && Enabled(s, Complete(id, resp))
    requires s.tasks[id].key == LookupKey(hash, s.tasks[id].path, s.tasks[id].headers)
    requires var r := ReadHeaders(resp, defaultTtl);
      && r.cacheable && r.ttl >= 0.0 && r.staleWindow >= 0.0
      && !OnlyLookedUp(Fields(r.vary)) && forall f :: f in Fields(r.vary) ==> Lower(f) == f
    requires s.tasks[id].headers == [] || Refreshes(Record(id, s.tasks[id], resp))
    ensures var cfg, t := Shipped(hash, defaultTtl, capacity, limits), s.tasks[id];
      var stored, after := ToStore(cfg, t, resp, s.wall).value.entry, Next(cfg, s, Complete(id, resp));
      && ServedQuietly(after, Next(cfg, after, Arrive(t.path, other)), stored)
      && !SameValues(Fields(stored.varyHeaders), other, t.headers)
  {
    assert Fields(ReadHeaders(resp, defaultTtl).vary) != [];
    hide ReadHeaders, VaryFields, Next, Lookup, SameValues, OnlyLookedUp;
    var cfg, t := Shipped(hash, defaultTtl, capacity, limits), s.tasks[id];
    StoredUnder(hash, defaultTtl, capacity, limits, id, t, resp, s.wall);
    var item := ToStore(cfg, t, resp, s.wall).value;
    assert Fields(item.entry.varyHeaders) == Fields(ReadHeaders(resp, defaultTtl).vary);
    other := OtherValues(t.headers, Fields(item.entry.varyHeaders));
    assert LookupKey(hash, t.path, other) == item.key;
    CompletedStore(cfg, s, id, resp);
    ServedWithoutFetchIff(cfg, Next(cfg, s, Complete(id, resp)), t.path, other, item.entry);
  }

  lemma CompletedStore(cfg: Config, s: State, id: nat, resp: OriginResponse)
    requires Positive(cfg.limits) && Inv(s.breaker, cfg.limits) && Enabled(s, Complete(id, resp))
    requires ToStore(cfg, s.tasks[id], resp, s.wall).Some?
    ensures var item, after := ToStore(cfg, s.tasks[id], resp, s.wall).value, Next(cfg, s, Complete(id, resp));
      && Lookup(after.store, item.key) == Some(item.entry) && Inv(after.breaker, cfg.limits)
      && after.wall == s.wall && item.entry.createdAt == s.wall
  {
    LookupPut(s.store, cfg.capacity, ToStore(cfg, s.tasks[id], resp, s.wall).value);
    StepInv(s.breaker, cfg.limits, Event(s.mono, DoSuccess));
  }

  /** So it goes in an execution: a request without headers, an answer whose Vary is another field, and a request
      that has that field. The second request is answered with the first one's body. */
  lemma HeaderlessIsShared(hash: VaryHash, capacity: int, limits: Limits, path: string, body: Bytes, field: string)
    returns (states: seq<State>, steps: seq<Step>, other: RequestHeaders)
    requires Positive(limits) && CacheControl.Bare(field) && field != ACCEPT_ENCODING
    ensures IsExecution(Shipped(hash, 60.0, capacity, limits), states, steps)
    ensures var answer := OriginResponse(body, 200, map["vary" := field], None);
      && steps == [Arrive(path, []), Complete(0, answer), Arrive(path, other)]
      && !SameValues([field], other, [])
      && |states[3].tasks| == 2 && Answered(states[3].tasks[1], Reply(body, 200, answer.headers, true))
  {
    hide *;
    var cfg, resp := Shipped(hash, 60.0, capacity, limits), OriginResponse(body, 200, map["vary" := field], None);
    var s1 := FirstShipped(hash, 60.0, capacity, limits, path);
    other := StrayFollows(hash, capacity, limits, s1, resp, field);
    var s2 := Next(cfg, s1, Complete(0, resp));
    var s3 := Next(cfg, s2, Arrive(path, other));
    states, steps := [START, s1, s2, s3], [Arrive(path, []), Complete(0, resp), Arrive(path, other)];
    ThreeSteps(cfg, states, steps);
  }

  lemma ThreeSteps(cfg: Config, states: seq<State>, steps: seq<Step>)
    requires |states| == 4 && |steps| == 3 && states[0] == START
    requires forall i :: 0 <= i < 3 ==> Enabled(states[i], steps[i]) && states[i + 1] == Next(cfg, states[i], steps[i])
    ensures IsExecution(cfg, states, steps)
  {
    hide Enabled, Next;
  }

  lemma FirstShipped(hash: VaryHash, defaultTtl: Time, capacity: int, limits: Limits, path: string)
    returns (s: State)
    ensures Enabled(START, Arrive(path, []))
    ensures s == Next(Shipped(hash, defaultTtl, capacity, limits), START, Arrive(path, []))
    ensures |s.tasks| == 1 && s.breaker == INITIAL && s.tasks[0].phase.Fetching?
    ensures s.tasks[0].path == path && s.tasks[0].headers == [] && s.tasks[0].key == LookupKey(hash, path, [])
  {
    var cfg := Shipped(hash, defaultTtl, capacity, limits);
    MissStarts(cfg, START, path, []);
    FirstTask(cfg, path, []);
    hide Next;
    s := Next(cfg, START, Arrive(path, []));
  }

  lemma StrayFollows(hash: VaryHash, capacity: int, limits: Limits, s: State, resp: OriginResponse, field: string)
    returns (other: RequestHeaders)
    requires Positive(limits) && CacheControl.Bare(field) && field != ACCEPT_ENCODING
    requires |s.tasks| == 1 && s.breaker == INITIAL && s.tasks[0].phase.Fetching? && s.tasks[0].headers == []
    requires s.tasks[0].key == LookupKey(hash, s.tasks[0].path, [])
    requires resp.headers == map["vary" := field] && resp.statusCode == 200
    ensures Enabled(s, Complete(0, resp))
    ensures var cfg := Shipped(hash, 60.0, capacity, limits);
      var after := Next(cfg, s, Complete(0, resp));
      var last := Next(cfg, after, Arrive(s.tasks[0].path, other));
      && Enabled(after, Arrive(s.tasks[0].path, other)) && !SameValues([field], other, [])
      && |last.tasks| == 2 && Answered(last.tasks[1], Reply(resp.content, 200, resp.headers, true))
  {
    var cfg := Shipped(hash, 60.0, capacity, limits);
    ReadsVary(resp, field);
    LowerSame(field);
    assert field in [field] && !OnlyLookedUp([field]);
    NewEntry(cfg, s.tasks[0], resp, s.wall);
    OneTaskLeft(cfg, s, resp);
    hide Next, Lookup, ReadHeaders, SameValues, VaryFields, OnlyLookedUp, Lower, ToStore;
    assert cfg.read(resp) == ReadHeaders(resp, 60.0);
    other := StrayIsServed(hash, 60.0, capacity, limits, s, 0, resp);
  }

  lemma NewEntry(cfg: Config, t: Task, resp: OriginResponse, now: Time)
    requires cfg.read(resp).cacheable && resp.statusCode != 304
    ensures ToStore(cfg, t, resp, now).Some?
    ensures var e := ToStore(cfg, t, resp, now).value.entry;
      Cached(e, true) == Reply(resp.content, resp.statusCode, resp.headers, true)
      && e.varyHeaders == cfg.read(resp).vary
  {
  }

  lemma LowerSame(s: string)
    requires CacheControl.Bare(s)
    ensures Lower(s) == s
  {
    hide Lower;
  }

  lemma FirstTask(cfg: Config, path: string, headers: RequestHeaders)
    ensures var t := Next(cfg, START, Arrive(path, headers)).tasks[0];
      t.path == path && t.headers == headers && t.cached == None
  {
  }

  lemma OneTaskLeft(cfg: Config, s: State, resp: OriginResponse)
    requires |s.tasks| == 1 && Enabled(s, Complete(0, resp))
    ensures |Next(cfg, s, Complete(0, resp)).tasks| == 1
  {
  }

  lemma ReadsVary(resp: OriginResponse, field: string)
    requires resp.headers == map["vary" := field] && CacheControl.Bare(field)
    ensures ReadHeaders(resp, 60.0) == Reading(true, 60.0, 0.0, Some([field]))
  {
    assert CacheKeys.Get(resp.headers, "cache-control", "") == "";
    assert CacheKeys.Get(resp.headers, "vary", "") == field;
    SplitSingle(field, ',');
    StripNothing(field);
    LowerSame(field);
    hide Split, Strip, Lower, CacheControl.Bare;
    assert [field][1..] == [];
    assert NonBlank([field]) == [field];
  }
}
