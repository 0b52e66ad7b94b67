/** What the operations of the hot/cold store compute, on values, and the unbounded map they refine
    (src/infrastructure/cache/tiered_store.py). */
module TieredContents {
  import opened Text
  import opened Entities
  import opened LruContents

  // ---------- directory names ----------

  predicate Unsafe(c: char) {
    || c == '/' || c == ':' || c == '?' || c == '#' || c == '[' || c == ']' || c == '@' || c == '!' || c == '$'
    || c == '&' || c == '\'' || c == '(' || c == ')' || c == '*' || c == '+' || c == ',' || c == ';' || c == '='
    || c == '%' || c == '\\' || c == '<' || c == '>' || c == '\"' || c == '|' || c == '^' || c == '`' || c == '{'
    || c == '}' || c == ' '
  }

  function Replaced(s: string): string {
    if s == [] then [] else [if Unsafe(s[0]) then '_' else s[0]] + Replaced(s[1..])
  }

  function Collapsed(s: string): string {
    if |s| < 2 then s
    else if s[0] == '_' && s[1] == '_' then Collapsed(s[1..])
    else [s[0]] + Collapsed(s[1..])
  }

  function StripUnderscores(s: string): string {
    if s != [] && s[0] == '_' then StripUnderscores(s[1..])
    else if s != [] && s[|s| - 1] == '_' then StripUnderscores(s[..|s| - 1])
    else s
  }

  function UrlSafeKey(key: Key): string {
    var safe := StripUnderscores(Collapsed(Replaced(key)));
    if safe == [] then "_empty_" else safe
  }

  // ---------- the cold tier ----------

  /** meta.json and data.bin of one directory. */
  datatype ColdFile = ColdFile(
    key: Key,
    headers: Headers,
    etag: Option<string>,
    createdAt: Time,
    ttl: Time,
    lastAccessed: Time,
    size: nat,
    statusCode: int,
    content: Bytes
  ) {
    predicate IsExpired(now: Time) { now - createdAt > ttl }
  }

  type Cold = map<string, ColdFile>

  function ToFile(k: Key, e: CacheEntry): ColdFile {
    ColdFile(k, e.headers, e.etag, e.createdAt, e.ttl, e.lastAccessed, e.size, e.statusCode, e.content)
  }

  /** The window and the vary list are not persisted. */
  function FromFile(f: ColdFile): CacheEntry {
    CacheEntry(f.content, f.headers, f.etag, f.createdAt, f.ttl, f.lastAccessed, f.size, f.statusCode, 0.0, None)
  }

  function WriteAll(cold: Cold, dir: Key -> string, items: Contents): Cold {
    if items == [] then cold
    else
      var last := items[|items| - 1];
      WriteAll(cold, dir, items[..|items| - 1])[dir(last.key) := ToFile(last.key, last.entry)]
  }

  // ---------- the operations ----------

  datatype Counters = Counters(
    hotHits: nat, hotMisses: nat, coldHits: nat, coldMisses: nat, promotions: nat, demotions: nat)

  /** evictions is the hot store's own counter. */
  datatype Tiers = Tiers(hot: Contents, cold: Cold, evictions: nat, counters: Counters)

  const EMPTY := Tiers([], map[], 0, Counters(0, 0, 0, 0, 0, 0))

  /** Put into the hot tier and write what it pushes out to the cold tier. */
  function HotPut(t: Tiers, dir: Key -> string, cap: int, k: Key, e: CacheEntry): Tiers {
    var out := PushedOut(t.hot, cap, k, e);
    Tiers(LruContents.Put(t.hot, cap, k, e), WriteAll(t.cold, dir, out), t.evictions + |out|,
          t.counters.(demotions := t.counters.demotions + |out|))
  }

  function TierPut(t: Tiers, dir: Key -> string, cap: int, k: Key, e: CacheEntry): Tiers {
    HotPut(t.(cold := t.cold - {dir(k)}), dir, cap, k, e)
  }

  function TierGet(t: Tiers, dir: Key -> string, cap: int, k: Key, now: Time): (Tiers, Option<CacheEntry>) {
    var c := t.counters;
    match Lookup(t.hot, k)
    case Some(e) =>
      (t.(hot := LruContents.Get(t.hot, k, now), counters := c.(hotHits := c.hotHits + 1)), Some(e.Touch(now)))
    case None =>
      var missed := c.(hotMisses := c.hotMisses + 1);
      if dir(k) !in t.cold then
        (t.(counters := missed.(coldMisses := c.coldMisses + 1)), None)
      else
        var e := FromFile(t.cold[dir(k)]);
        var rest := t.cold - {dir(k)};
        if e.IsExpired(now) then
          (t.(cold := rest, counters := missed.(coldMisses := c.coldMisses + 1)), None)
        else
          var promoted := missed.(coldHits := c.coldHits + 1, promotions := c.promotions + 1);
          (HotPut(t.(cold := rest, counters := promoted), dir, cap, k, e.Touch(now)), Some(e.Touch(now)))
  }

  function TierDelete(t: Tiers, dir: Key -> string, k: Key): (Tiers, bool) {
    (t.(hot := Remove(t.hot, k), cold := t.cold - {dir(k)}), Has(t.hot, k) || dir(k) in t.cold)
  }

  function ColdMatches(cold: Cold, prefix: string): set<string> { set d | d in cold && prefix <= cold[d].key }

  function TierDeletePrefix(t: Tiers, prefix: string): (Tiers, nat) {
    var gone := ColdMatches(t.cold, prefix);
    (t.(hot := LruContents.DeletePrefix(t.hot, prefix), cold := t.cold - gone),
     |Filter(t.hot, HasPrefix(prefix))| + |gone|)
  }

  function ColdExpired(cold: Cold, now: Time): set<string> { set d | d in cold && cold[d].IsExpired(now) }

  function ColdKeys(cold: Cold): set<Key> { set d | d in cold :: cold[d].key }

  function HotKeys(hot: Contents): set<Key> { set it | it in hot :: it.key }

  function TierKeys(t: Tiers, now: Time): (Tiers, set<Key>) {
    var after := t.(hot := Prune(t.hot, now), cold := t.cold - ColdExpired(t.cold, now));
    (after, HotKeys(after.hot) + ColdKeys(after.cold))
  }

  // ---------- events and what a client sees ----------

  datatype Action =
    | DoGet(key: Key)
    | DoPut(key: Key, entry: CacheEntry)
    | DoDelete(key: Key)
    | DoDeletePrefix(prefix: string)
    | DoKeys

  datatype Event = Event(now: Time, action: Action)

  datatype Observation =
    | Found(entry: Option<CacheEntry>)
    | Stored
    | Removed(removed: bool)
    | Counted(count: nat)
    | Listed(keys: set<Key>)

  function TierStep(t: Tiers, dir: Key -> string, cap: int, ev: Event): (Tiers, Observation) {
    match ev.action
    case DoGet(k) => var (u, e) := TierGet(t, dir, cap, k, ev.now); (u, Found(e))
    case DoPut(k, e) => (TierPut(t, dir, cap, k, e), Stored)
    case DoDelete(k) => var (u, b) := TierDelete(t, dir, k); (u, Removed(b))
    case DoDeletePrefix(prefix) => var (u, n) := TierDeletePrefix(t, prefix); (u, Counted(n))
    case DoKeys => var (u, ks) := TierKeys(t, ev.now); (u, Listed(ks))
  }

  function TierRun(dir: Key -> string, cap: int, evs: seq<Event>): Tiers {
    if evs == [] then EMPTY else TierStep(TierRun(dir, cap, evs[..|evs| - 1]), dir, cap, evs[|evs| - 1]).0
  }

  // ---------- the unbounded map ----------

  type Ideal = map<Key, CacheEntry>

  /** Only puts and deletes change the ideal map; it never evicts and never expires. */
  function IdealStep(m: Ideal, ev: Event): Ideal {
    match ev.action
    case DoGet(_) => m
    case DoPut(k, e) => m[k := e]
    case DoDelete(k) => m - {k}
    case DoDeletePrefix(prefix) => map k | k in m && !(prefix <= k) :: m[k]
    case DoKeys => m
  }

  function IdealRun(evs: seq<Event>): Ideal {
    if evs == [] then map[] else IdealStep(IdealRun(evs[..|evs| - 1]), evs[|evs| - 1])
  }

  /** The same entry on every persisted field; the two others are either kept or reset together. */
  ghost predicate Agrees(e: CacheEntry, m: CacheEntry) {
    var stamped := m.Touch(e.lastAccessed);
    e == stamped || e == stamped.(staleWhileRevalidate := 0.0, varyHeaders := None)
  }

  ghost function Matching(m: Ideal, prefix: string, now: Time): set<Key> {
    set k | k in m && prefix <= k && !m[k].IsExpired(now)
  }

  /** What a client of the ideal map could see. A key that is expired may or may not still be there. */
  ghost predicate Allowed(m: Ideal, ev: Event, obs: Observation) {
    match ev.action
    case DoGet(k) =>
      && obs.Found?
      && (k in m && !m[k].IsExpired(ev.now) ==> obs.entry.Some?)
      && (obs.entry.Some? ==> k in m && Agrees(obs.entry.value, m[k]) && obs.entry.value.lastAccessed == ev.now)
    case DoPut(_, _) => obs.Stored?
    case DoDelete(k) =>
      && obs.Removed?
      && (k in m && !m[k].IsExpired(ev.now) ==> obs.removed)
      && (obs.removed ==> k in m)
    case DoDeletePrefix(prefix) =>
      && obs.Counted?
      && |Matching(m, prefix, ev.now)| <= obs.count <= |set k | k in m && prefix <= k|
    case DoKeys =>
      obs == Listed(set k | k in m && !m[k].IsExpired(ev.now))
  }

  // ---------- the refinement ----------

  ghost predicate InjectiveOn(dir: Key -> string, keys: set<Key>) {
    forall k1, k2 :: k1 in keys && k2 in keys && dir(k1) == dir(k2) ==> k1 == k2
  }

  /** Every key the event names is in the set. */
  ghost predicate Within(ev: Event, keys: set<Key>) {
    (ev.action.DoGet? || ev.action.DoPut? || ev.action.DoDelete?) ==> ev.action.key in keys
  }

  ghost predicate Timely(evs: seq<Event>) {
    forall i, j :: 0 <= i < j < |evs| ==> evs[i].now <= evs[j].now
  }

  /** The run only names these keys, and its clock never goes back. */
  ghost predicate RunOver(evs: seq<Event>, keys: set<Key>) {
    (forall i :: 0 <= i < |evs| ==> Within(evs[i], keys)) && Timely(evs)
  }

  /** The hot tier holds part of the ideal map, each key in one tier only. */
  ghost predicate HotIn(hot: Contents, cold: Cold, dir: Key -> string, m: Ideal) {
    && Distinct(hot)
    && forall it :: it in hot ==> ItemIn(it, m) && dir(it.key) !in cold
  }

  ghost predicate ItemIn(it: Item, m: Ideal) { it.key in m && Agrees(it.entry, m[it.key]) }

  /** So does the cold tier, every file in the directory of its key. */
  ghost predicate ColdIn(cold: Cold, dir: Key -> string, m: Ideal) {
    forall d :: d in cold ==> FileIn(cold[d], m) && dir(cold[d].key) == d
  }

  ghost predicate FileIn(f: ColdFile, m: Ideal) { f.key in m && Agrees(FromFile(f), m[f.key]) }

  predicate InCold(cold: Cold, dir: Key -> string, k: Key) { dir(k) in cold && cold[dir(k)].key == k }

  /** Everything in the ideal map that is not expired is in one of the tiers. */
  ghost predicate Covered(hot: Contents, cold: Cold, dir: Key -> string, m: Ideal, now: Time) {
    forall k :: k in m && !m[k].IsExpired(now) ==> Has(hot, k) || InCold(cold, dir, k)
  }

  /** Demotions are the hot evictions, and promotions are the cold hits. */
  predicate Balanced(t: Tiers) {
    t.counters.demotions == t.evictions && t.counters.promotions == t.counters.coldHits
  }

  ghost predicate Refines(t: Tiers, dir: Key -> string, keys: set<Key>, m: Ideal, now: Time) {
    && m.Keys <= keys
    && HotIn(t.hot, t.cold, dir, m)
    && ColdIn(t.cold, dir, m)
    && Covered(t.hot, t.cold, dir, m, now)
    && Balanced(t)
  }
}
