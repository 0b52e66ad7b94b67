/** What the shipped service makes of the headers of requests and answers, from their text, and what follows for what it
    stores (src/application/cache_service.py, src/infrastructure/cache_control.py; sections 3 and 5.2.2 of RFC 7234). */
module ShippedReading {
  import opened Text
  import opened Entities
  import opened LruContents
  import opened BreakerSteps
  import opened CacheKeys
  import opened EdgeProtocol
  import opened DirectiveText
  import CacheControl
  import Provenance

  // ---------- request headers ----------

  /** The last header with this name, in any case. */
  ghost predicate IsLastHeader(headers: RequestHeaders, name: string, i: nat) {
    && i < |headers| && Lower(headers[i].0) == name
    && forall j :: i < j < |headers| ==> Lower(headers[j].0) != name
  }

  /** A name is there if some header has it, and its value is that of the last one. */
  lemma {:induction false} NormalizeMeans(headers: RequestHeaders, name: string)
    ensures name in Normalize(headers) <==> exists i: nat :: IsLastHeader(headers, name, i)
    ensures forall i: nat :: IsLastHeader(headers, name, i) ==>
      name in Normalize(headers) && Normalize(headers)[name] == headers[i].1
  {
    hide Lower;
    if headers != [] {
      var n := |headers| - 1;
      var init := headers[..n];
      NormalizeMeans(init, name);
      if Lower(headers[n].0) == name {
        assert IsLastHeader(headers, name, n);
      } else {
        forall i: nat | IsLastHeader(headers, name, i) ensures IsLastHeader(init, name, i) {
          assert init[i] == headers[i];
        }
        forall i: nat | IsLastHeader(init, name, i) ensures IsLastHeader(headers, name, i) {
          assert init[i] == headers[i];
        }
      }
    }
  }

  // ---------- the Vary header ----------

  /** Some comma-separated part of the header is the field, in any case and with any blanks. */
  ghost predicate NamesField(parts: seq<string>, field: string) {
    exists i :: 0 <= i < |parts| && Strip(parts[i]) != [] && Lower(Strip(parts[i])) == field
  }

  lemma {:induction false} NonBlankMeans(parts: seq<string>, field: string)
    ensures field in NonBlank(parts) <==> NamesField(parts, field)
  {
    hide Strip, Lower;
    if parts != [] {
      var rest := parts[1..];
      NonBlankMeans(rest, field);
      if NamesField(rest, field) {
        var i :| 0 <= i < |rest| && Strip(rest[i]) != [] && Lower(Strip(rest[i])) == field;
        assert parts[i + 1] == rest[i];
      }
      if NamesField(parts, field) {
        var i :| 0 <= i < |parts| && Strip(parts[i]) != [] && Lower(Strip(parts[i])) == field;
        if i > 0 {
          assert rest[i - 1] == parts[i];
        }
      }
    }
  }

  /** The fields that an answer varies on are those that its Vary header names; without one it varies on nothing. */
  lemma VaryMeans(header: string, field: string)
    ensures VaryFields(header).None? <==> header == ""
    ensures header != "" ==> (field in VaryFields(header).value <==> NamesField(Split(header, ','), field))
  {
    NonBlankMeans(Split(header, ','), field);
  }

  // ---------- the Cache-Control header ----------

  function CacheControlOf(resp: OriginResponse): string { CacheKeys.Get(resp.headers, "cache-control", "") }

  /** The answer forbids a shared cache to store it. */
  ghost predicate Forbids(resp: OriginResponse) {
    Holds(CacheControlOf(resp), "no-store") || Holds(CacheControlOf(resp), "private")
  }

  lemma NothingHeld(name: string)
    ensures !Holds("", name)
  {
    assert Split("", ',') == [""];
    forall piece | piece in Split("", ',') ensures !IsDirective(piece, name) {
    }
  }

  /** The shipped service may store an answer if and only if it does not forbid that. */
  lemma StoresIff(resp: OriginResponse, defaultTtl: Time)
    ensures ReadHeaders(resp, defaultTtl).cacheable <==> !Forbids(resp)
  {
    CacheableIff(CacheControlOf(resp));
    NothingHeld("no-store");
    NothingHeld("private");
    hide CacheControl.Parse, Holds, VaryFields;
  }

  /** A private or no-store answer leaves the store as it is, and is returned to the request that fetched it. */
  lemma ForbiddenIsNotStored(hash: VaryHash, defaultTtl: Time, capacity: int, limits: Limits,
                             s: State, id: nat, resp: OriginResponse)
    requires Enabled(s, Complete(id, resp)) && Forbids(resp)
    ensures var after := Next(Shipped(hash, defaultTtl, capacity, limits), s, Complete(id, resp));
      && after.store == s.store
      && id < |after.tasks|
      && after.tasks[id].phase == Done(Replied(Reply(resp.content, resp.statusCode, resp.headers, false)))
  {
    StoresIff(resp, defaultTtl);
    hide ReadHeaders, Forbids;
    var cfg := Shipped(hash, defaultTtl, capacity, limits);
    assert cfg.read(resp) == ReadHeaders(resp, defaultTtl);
    NotStored(cfg, s, id, resp);
  }

  lemma NotStored(cfg: Config, s: State, id: nat, resp: OriginResponse)
    requires Enabled(s, Complete(id, resp)) && !cfg.read(resp).cacheable
    ensures var after := Next(cfg, s, Complete(id, resp));
      && after.store == s.store && id < |after.tasks|
      && after.tasks[id].phase == Done(Replied(Reply(resp.content, resp.statusCode, resp.headers, false)))
  {
  }

  /** An answer of the origin for the path, with this body, that does not forbid storing. */
  ghost predicate SentOpenly(sent: seq<Sent>, path: string, content: Bytes, status: int, headers: Headers) {
    exists r :: r in sent && r.path == path && !Forbids(r.response)
      && r.response.content == content && r.response.statusCode == status && r.response.headers == headers
  }

  /** Isolation in the shipped service, from the text of the headers: in every execution whose paths do not end like
      varied keys, each reply is the synthetic 503, what the request itself fetched, or an answer for its path that
      holds neither private nor no-store. */
  lemma NothingPrivateIsShared(hash: VaryHash, defaultTtl: Time, capacity: int, limits: Limits,
                               states: seq<State>, steps: seq<Step>)
    requires IsExecution(Shipped(hash, defaultTtl, capacity, limits), states, steps) && Provenance.CleanRun(steps)
    ensures var s := states[|steps|];
      forall i, reply :: 0 <= i < |s.tasks| && s.tasks[i].phase == Done(Replied(reply)) ==>
        || reply == Unavailable()
        || Provenance.OwnAnswer(s.sent, i, reply)
        || SentOpenly(s.sent, s.tasks[i].path, reply.content, reply.status, reply.headers)
  {
    var cfg, s := Shipped(hash, defaultTtl, capacity, limits), states[|steps|];
    ShippedKeys(hash, defaultTtl, capacity, limits);
    Provenance.ProvenanceAndIsolation(cfg, states, steps);
    forall i, reply | 0 <= i < |s.tasks| && s.tasks[i].phase == Done(Replied(reply))
      && reply != Unavailable() && !Provenance.OwnAnswer(s.sent, i, reply)
      ensures SentOpenly(s.sent, s.tasks[i].path, reply.content, reply.status, reply.headers)
    {
      assert Provenance.SentCacheable(cfg, s.sent, s.tasks[i].path, reply.content, reply.status, reply.headers);
      OpenlySent(hash, defaultTtl, capacity, limits, s.sent, s.tasks[i].path, reply);
    }
  }

  lemma OpenlySent(hash: VaryHash, defaultTtl: Time, capacity: int, limits: Limits,
                   sent: seq<Sent>, path: string, reply: Reply)
    requires Provenance.SentCacheable(Shipped(hash, defaultTtl, capacity, limits), sent, path,
                                      reply.content, reply.status, reply.headers)
    ensures SentOpenly(sent, path, reply.content, reply.status, reply.headers)
  {
    var cfg := Shipped(hash, defaultTtl, capacity, limits);
    var r :| r in sent && r.path == path && cfg.read(r.response).cacheable
      && r.response.content == reply.content && r.response.statusCode == reply.status
      && r.response.headers == reply.headers;
    assert cfg.read(r.response) == ReadHeaders(r.response, defaultTtl);
    StoresIff(r.response, defaultTtl);
  }

  // ---------- times ----------

  /** How long a stored answer is fresh, and how long it may be served stale after that, from the directives of its
      Cache-Control header: no-cache, then s-maxage, then max-age, then the default; stale-while-revalidate. */
  lemma StoredTimes(hash: VaryHash, defaultTtl: Time, capacity: int, limits: Limits,
                    t: Task, resp: OriginResponse, now: Time, s: Option<nat>, m: Option<nat>, w: Option<nat>)
    requires !Forbids(resp) && CacheControlOf(resp) != ""
    requires var tokens := CacheControl.ReadTokens(Split(CacheControlOf(resp), ','));
      && CacheControl.IsLastValue(tokens, CacheControl.SMaxage, s)
      && CacheControl.IsLastValue(tokens, CacheControl.MaxAge, m)
      && CacheControl.IsLastValue(tokens, CacheControl.StaleWhileRevalidate, w)
    ensures var item := ToStore(Shipped(hash, defaultTtl, capacity, limits), t, resp, now);
      && item.Some? && item.value.entry.createdAt == now
      && item.value.entry.ttl == (
           if Holds(CacheControlOf(resp), "no-cache") then 0.0
           else match s
             case Some(n) => n as real
             case None => match m case Some(n) => n as real case None => defaultTtl)
      && item.value.entry.staleWhileRevalidate == match w case Some(n) => n as real case None => 0.0
  {
    var header := CacheControlOf(resp);
    var tokens := CacheControl.ReadTokens(Split(header, ','));
    StoresIff(resp, defaultTtl);
    TimesMean(tokens, defaultTtl, s, m, w);
    Names();
    MentionsIff(header, "no-cache");
    hide Split, CacheControl.ReadTokens, CacheControl.ApplyAll, VaryFields, Holds, Forbids, CacheControl.Mentions,
         CacheControl.NameOf;
    var cfg := Shipped(hash, defaultTtl, capacity, limits);
    assert cfg.read(resp) == ReadHeaders(resp, defaultTtl);
  }

  /** Without the header an answer is fresh for the default time and never served stale. */
  lemma DefaultTimes(hash: VaryHash, defaultTtl: Time, capacity: int, limits: Limits,
                     t: Task, resp: OriginResponse, now: Time)
    requires "cache-control" !in resp.headers
    ensures var item := ToStore(Shipped(hash, defaultTtl, capacity, limits), t, resp, now);
      && item.Some? && item.value.entry.createdAt == now
      && item.value.entry.ttl == defaultTtl && item.value.entry.staleWhileRevalidate == 0.0
  {
    hide VaryFields;
    var cfg := Shipped(hash, defaultTtl, capacity, limits);
    assert cfg.read(resp) == ReadHeaders(resp, defaultTtl);
  }

  // ---------- refreshing ----------

  /** What a 304 to a validating request stores: the entry that was validated, under its key, with its content, size,
      status, headers and ETag, but with the age, times and, if it names any field, the Vary of the 304. */
  lemma RefreshedEntry(cfg: Config, t: Task, resp: OriginResponse, now: Time)
    requires t.cached.Some? && resp.statusCode == 304 && cfg.read(resp).cacheable
    ensures var was, r, item := t.cached.value, cfg.read(resp), ToStore(cfg, t, resp, now);
      && item.Some? && item.value.key == t.key
      && var e := item.value.entry;
        && e.content == was.content && e.size == was.size && e.statusCode == was.statusCode
        && e.headers == was.headers && e.etag == was.etag
        && e.createdAt == now && e.lastAccessed == now && e.ttl == r.ttl && e.staleWhileRevalidate == r.staleWindow
        && (r.vary.None? || r.vary.value == [] ==> e.varyHeaders == was.varyHeaders)
        && (r.vary.Some? && r.vary.value != [] ==> e.varyHeaders == r.vary)
  {
  }
}
