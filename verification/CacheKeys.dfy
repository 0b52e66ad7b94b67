/** Cache keys: which key a request looks up, which key its response is stored under, and which path a
    key belongs to (src/domain/value_objects.py, src/application/cache_service.py). */
module CacheKeys {
  import opened Text
  import opened Entities
  import opened LruContents

  /** Request headers in dictionary order; no headers and an empty dictionary are treated alike. */
  type RequestHeaders = seq<(string, string)>

  /** The eight characters that stand for a non-empty dictionary of varying header values. */
  type VaryHash = h: Headers -> string | forall m :: |h(m)| == 8 ghost witness (m: Headers) => "00000000"

  /** {k.lower(): v}: a later header replaces an earlier one with the same lower-case name. */
  function Normalize(headers: RequestHeaders): Headers {
    if headers == [] then map[]
    else
      var (name, value) := headers[|headers| - 1];
      Normalize(headers[..|headers| - 1])[Lower(name) := value]
  }

  const VARY := "|vary="

  /** CacheKey.from_request for a GET without query parameters. */
  function FromRequest(hash: VaryHash, path: string, vary: Headers): Key {
    if vary == map[] then "GET:" + path else "GET:" + path + VARY + hash(vary)
  }

  const ACCEPT_ENCODING := "accept-encoding"

  function LookupVary(headers: RequestHeaders): Headers {
    var n := Normalize(headers);
    if ACCEPT_ENCODING in n then map[ACCEPT_ENCODING := n[ACCEPT_ENCODING]] else map[]
  }

  function LookupKey(hash: VaryHash, path: string, headers: RequestHeaders): Key {
    FromRequest(hash, path, LookupVary(headers))
  }

  /** The lower-case fields of a Vary header; None when there is no header. */
  function VaryFields(header: string): Option<seq<string>> {
    if header == "" then None else Some(NonBlank(Split(header, ',')))
  }

  function NonBlank(parts: seq<string>): seq<string> {
    if parts == [] then []
    else
      var rest := NonBlank(parts[1..]);
      if Strip(parts[0]) == [] then rest else [Lower(Strip(parts[0]))] + rest
  }

  function Get(m: Headers, name: string, default: string): string {
    if name in m then m[name] else default
  }

  function VaryValues(fields: seq<string>, headers: RequestHeaders): Headers {
    var n := Normalize(headers);
    map f | f in fields :: Get(n, f, "")
  }

  /** The key a new response is stored under. */
  function StoreKey(hash: VaryHash, path: string, headers: RequestHeaders, fields: Option<seq<string>>): Key {
    if fields.Some? && fields.value != [] && headers != []
    then FromRequest(hash, path, VaryValues(fields.value, headers))
    else LookupKey(hash, path, headers)
  }

  // ---------- which path a key belongs to ----------

  ghost predicate IsKeyOf(k: Key, path: string) {
    k == "GET:" + path || exists h: string :: |h| == 8 && k == "GET:" + path + VARY + h
  }

  /** The path does not itself end like a vary suffix. */
  predicate Clean(path: string) {
    |path| < 14 || path[|path| - 14..|path| - 8] != VARY
  }

  lemma FromRequestIsKeyOf(hash: VaryHash, path: string, vary: Headers)
    ensures IsKeyOf(FromRequest(hash, path, vary), path)
  {
    assert |hash(vary)| == 8;
  }

  lemma SuffixIsUnclean(path: string, h: string)
    requires |h| == 8
    ensures !Clean(path + VARY + h)
  {
    var p := path + VARY + h;
    assert p[|p| - 14..|p| - 8] == VARY;
  }

  lemma CancelPrefix(p: string, a: string, b: string)
    requires p + a == p + b
    ensures a == b
  {
    assert a == (p + a)[|p|..];
    assert b == (p + b)[|p|..];
  }

  lemma CancelSuffix(a: string, b: string, x: string, y: string)
    requires |x| == |y| && a + x == b + y
    ensures a == b && x == y
  {
    assert a == (a + x)[..|a|];
    assert b == (b + y)[..|b|];
    assert x == (a + x)[|a|..];
    assert y == (b + y)[|b|..];
  }

  /** Clean paths never share a key. */
  lemma KeyDeterminesPath(k: Key, p: string, q: string)
    requires IsKeyOf(k, p) && IsKeyOf(k, q) && Clean(p) && Clean(q)
    ensures p == q
  {
    var rest := k[4..];
    Rest(k, p);
    Rest(k, q);
    CleanHasNoSuffix(p, q);
    CleanHasNoSuffix(q, p);
    if rest != p && rest != q {
      var h :| |h| == 8 && rest == p + VARY + h;
      var g :| |g| == 8 && rest == q + VARY + g;
      assert p + (VARY + h) == p + VARY + h;
      assert q + (VARY + g) == q + VARY + g;
      CancelSuffix(p, q, VARY + h, VARY + g);
    }
  }

  lemma CleanHasNoSuffix(p: string, q: string)
    requires Clean(p)
    ensures forall h: string :: |h| == 8 ==> p != q + VARY + h
  {
    forall h: string | |h| == 8 ensures p != q + VARY + h {
      SuffixIsUnclean(q, h);
    }
  }

  lemma Rest(k: Key, p: string)
    requires IsKeyOf(k, p)
    ensures |k| >= 4
    ensures k[4..] == p || exists h: string :: |h| == 8 && k[4..] == p + VARY + h
  {
    if k == "GET:" + p {
      assert k[4..] == p;
    } else {
      var h :| |h| == 8 && k == "GET:" + p + VARY + h;
      assert "GET:" + p + VARY + h == "GET:" + (p + VARY + h);
      assert k[4..] == p + VARY + h;
    }
  }

  /** The hypothesis is needed: every path has an unclean twin that shares one of its keys. */
  lemma UncleanTwin(hash: VaryHash, path: string, vary: Headers)
    requires vary != map[]
    ensures var twin := path + VARY + hash(vary);
      !Clean(twin) && FromRequest(hash, twin, map[]) == FromRequest(hash, path, vary)
  {
    SuffixIsUnclean(path, hash(vary));
    assert "GET:" + (path + VARY + hash(vary)) == "GET:" + path + VARY + hash(vary);
  }

  // ---------- when a response is stored where the next request looks ----------

  /** No Vary, no request headers, or Vary naming only accept-encoding with that header present. */
  ghost predicate StoredWhereLookedUp(headers: RequestHeaders, fields: Option<seq<string>>) {
    || fields.None? || fields.value == [] || headers == []
    || ((forall f :: f in fields.value ==> f == ACCEPT_ENCODING) && ACCEPT_ENCODING in Normalize(headers))
  }

  /** A response is stored under the key its request looked up exactly in these cases and, when the looked-up key
      carries a hash, if that hash does not tell the two (different) dictionaries apart. */
  lemma StoreKeyIsLookupKey(hash: VaryHash, path: string, headers: RequestHeaders, fields: Option<seq<string>>)
    ensures StoredWhereLookedUp(headers, fields) ==>
      StoreKey(hash, path, headers, fields) == LookupKey(hash, path, headers)
    ensures !StoredWhereLookedUp(headers, fields) ==>
      VaryValues(fields.value, headers) != LookupVary(headers)
    ensures !StoredWhereLookedUp(headers, fields) ==>
      (StoreKey(hash, path, headers, fields) != LookupKey(hash, path, headers) <==>
        (LookupVary(headers) != map[] ==> hash(VaryValues(fields.value, headers)) != hash(LookupVary(headers))))
  {
    if fields.Some? && fields.value != [] && headers != [] {
      var a, b := VaryValues(fields.value, headers), LookupVary(headers);
      assert fields.value[0] in a;
      if StoredWhereLookedUp(headers, fields) {
        assert a.Keys == {ACCEPT_ENCODING};
        assert a == b;
      } else {
        DifferentValues(headers, fields.value);
        if b == map[] || hash(a) != hash(b) {
          DifferentKeys(hash, path, a, b);
        }
      }
    }
  }

  lemma DifferentValues(headers: RequestHeaders, fields: seq<string>)
    requires fields != [] && !StoredWhereLookedUp(headers, Some(fields))
    ensures VaryValues(fields, headers) != LookupVary(headers)
  {
    var a, b := VaryValues(fields, headers), LookupVary(headers);
    assert fields[0] in a;
    if ACCEPT_ENCODING in Normalize(headers) {
      var f :| f in fields && f != ACCEPT_ENCODING;
      assert f in a && f !in b;
    }
  }

  lemma DifferentKeys(hash: VaryHash, path: string, a: Headers, b: Headers)
    requires a != map[] && (b == map[] || hash(a) != hash(b))
    ensures FromRequest(hash, path, a) != FromRequest(hash, path, b)
  {
    var base := "GET:" + path;
    assert FromRequest(hash, path, a) == base + VARY + hash(a);
    if b != map[] {
      assert FromRequest(hash, path, b) == base + VARY + hash(b);
      if base + VARY + hash(a) == base + VARY + hash(b) {
        CancelPrefix(base + VARY, hash(a), hash(b));
      }
    } else {
      assert |FromRequest(hash, path, a)| > |base|;
    }
  }
}
