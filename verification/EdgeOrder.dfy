/** The failover order of edges, as a property and as a function, and the failover bound
    (src/application/routing_service.py, src/presentation/router/routes.py). */
module EdgeOrder {
  import opened Text

  /** What the order depends on: the identity and region of each configured edge, in configuration order. */
  datatype Edge = Edge(id: string, region: string)

  type Status = map<string, bool>

  predicate Up(status: Status, id: string) { id in status && status[id] }

  /** The position of a region in the preference list, or its length. */
  function Rank(preferred: seq<string>, region: string): (r: nat)
    ensures r <= |preferred|
    ensures r < |preferred| ==> preferred[r] == region
    ensures forall i :: 0 <= i < r ==> preferred[i] != region
  {
    if preferred == [] || preferred[0] == region then 0 else 1 + Rank(preferred[1..], region)
  }

  /** Nearer region first, then configuration order. */
  predicate Before(edges: seq<Edge>, preferred: seq<string>, i: nat, j: nat)
    requires i < |edges| && j < |edges|
  {
    var ri, rj := Rank(preferred, edges[i].region), Rank(preferred, edges[j].region);
    ri < rj || (ri == rj && i < j)
  }

  /** A healthy edge that comes before every other healthy edge with its id.
      With unique ids, simply a healthy edge. */
  ghost predicate Chosen(edges: seq<Edge>, status: Status, preferred: seq<string>, i: nat)
    requires i < |edges|
  {
    && Up(status, edges[i].id)
    && forall j :: 0 <= j < |edges| && edges[j].id == edges[i].id && j != i ==> Before(edges, preferred, i, j)
  }

  /** The failover order: every chosen edge, once, sorted by rank and then configuration order. */
  ghost predicate IsOrder(edges: seq<Edge>, status: Status, preferred: seq<string>, order: seq<nat>) {
    && (forall k :: 0 <= k < |order| ==> order[k] < |edges| && Chosen(edges, status, preferred, order[k]))
    && (forall k, l :: 0 <= k < l < |order| ==> Before(edges, preferred, order[k], order[l]))
    && (forall i :: 0 <= i < |edges| && Chosen(edges, status, preferred, i) ==> i in order)
  }

  ghost predicate UniqueIds(edges: seq<Edge>) {
    forall i, j :: 0 <= i < j < |edges| ==> edges[i].id != edges[j].id
  }

  /** With unique ids the order holds exactly the healthy edges. */
  lemma OrderHoldsHealthy(edges: seq<Edge>, status: Status, preferred: seq<string>, order: seq<nat>)
    requires UniqueIds(edges) && IsOrder(edges, status, preferred, order)
    ensures forall i :: 0 <= i < |edges| ==> (i in order <==> Up(status, edges[i].id))
  {
  }

  /** Sorting leaves no choice: there is only one such order. */
  lemma {:induction false} OrderIsUnique(edges: seq<Edge>, status: Status, preferred: seq<string>,
                                         a: seq<nat>, b: seq<nat>)
    requires IsOrder(edges, status, preferred, a) && IsOrder(edges, status, preferred, b)
    ensures a == b
  {
    forall i ensures i in a <==> i in b {
    }
    Cardinality(a);
    Cardinality(b);
    assert Members(a) == Members(b);
    SamePrefix(edges, status, preferred, a, b, |a|);
    TakeAll(a);
    TakeAll(b);
  }

  function Members(s: seq<nat>): set<nat> { set i | i in s }

  lemma {:induction false} Cardinality(s: seq<nat>)
    requires forall k, l :: 0 <= k < l < |s| ==> s[k] != s[l]
    ensures |Members(s)| == |s|
  {
    if s != [] {
      Cardinality(s[1..]);
      assert s == [s[0]] + s[1..];
      var rest := Members(s[1..]);
      var all := Members(s);
      forall i | i in s[1..] ensures i != s[0] {
        var l :| 0 <= l < |s[1..]| && s[1..][l] == i;
        assert s[0] != s[l + 1];
      }
      assert s[0] !in rest;
      assert all == {s[0]} + rest;
      assert |all| == 1 + |rest|;
    }
  }

  lemma {:induction false} SamePrefix(edges: seq<Edge>, status: Status, preferred: seq<string>,
                                      a: seq<nat>, b: seq<nat>, n: nat)
    requires IsOrder(edges, status, preferred, a) && IsOrder(edges, status, preferred, b)
    requires n <= |a| && n <= |b|
    ensures a[..n] == b[..n]
  {
    if n > 0 {
      SamePrefix(edges, status, preferred, a, b, n - 1);
      NextIsNotBefore(edges, status, preferred, a, b, n - 1);
      NextIsNotBefore(edges, status, preferred, b, a, n - 1);
      assert a[..n] == a[..n - 1] + [a[n - 1]];
      assert b[..n] == b[..n - 1] + [b[n - 1]];
    }
  }

  /** If two orders agree up to n, the next edge of one does not come before the next edge of the other. */
  lemma NextIsNotBefore(edges: seq<Edge>, status: Status, preferred: seq<string>,
                        a: seq<nat>, b: seq<nat>, n: nat)
    requires IsOrder(edges, status, preferred, a) && IsOrder(edges, status, preferred, b)
    requires n < |a| && n < |b| && a[..n] == b[..n]
    ensures !Before(edges, preferred, a[n], b[n])
  {
    forall i | 0 <= i < n ensures b[i] != a[n] {
      assert b[i] == b[..n][i] == a[..n][i] == a[i];
    }
    assert a[n] in b;
    var k :| 0 <= k < |b| && b[k] == a[n];
  }

  /** The nearest edge: healthy, and before every other healthy edge. */
  ghost predicate IsNearest(edges: seq<Edge>, status: Status, preferred: seq<string>, i: nat) {
    && i < |edges| && Up(status, edges[i].id)
    && forall j :: 0 <= j < |edges| && Up(status, edges[j].id) && j != i ==> Before(edges, preferred, i, j)
  }

  /** The nearest edge is the head of the order, and there is one exactly when the order is not empty. */
  lemma NearestIsHead(edges: seq<Edge>, status: Status, preferred: seq<string>, order: seq<nat>)
    requires IsOrder(edges, status, preferred, order)
    ensures forall i :: IsNearest(edges, status, preferred, i) <==> order != [] && i == order[0]
    ensures order == [] ==> forall i :: 0 <= i < |edges| ==> !Up(status, edges[i].id)
  {
    forall j | 0 <= j < |edges| && Up(status, edges[j].id)
      ensures order != [] && (j == order[0] || Before(edges, preferred, order[0], j))
    {
      var c := ChosenFor(edges, status, preferred, j);
      var k :| 0 <= k < |order| && order[k] == c;
    }
  }

  /** The region itself is preferred most. */
  predicate OwnFirst(preferred: seq<string>, region: string) { preferred != [] && preferred[0] == region }

  /** With a healthy edge in a region that is preferred most, the nearest edge is in that region. */
  lemma NearestInOwnRegion(edges: seq<Edge>, status: Status, preferred: seq<string>, region: string)
    ensures OwnFirst(preferred, region) && HasHealthy(edges, status, region) ==>
      forall at: nat :: IsNearest(edges, status, preferred, at) ==> edges[at].region == region
  {
    if OwnFirst(preferred, region) && HasHealthy(edges, status, region) {
      var i: nat :| i < |edges| && Up(status, edges[i].id) && edges[i].region == region;
      forall at: nat | IsNearest(edges, status, preferred, at) ensures edges[at].region == region {
        assert Rank(preferred, edges[i].region) == 0;
        assert at == i || Before(edges, preferred, at, i);
      }
    }
  }

  ghost predicate HasHealthy(edges: seq<Edge>, status: Status, region: string) {
    exists i: nat :: i < |edges| && Up(status, edges[i].id) && edges[i].region == region
  }

  /** Without preferences the order is that of the configuration. */
  lemma NoPreference(edges: seq<Edge>, status: Status, order: seq<nat>)
    requires IsOrder(edges, status, [], order)
    ensures forall k, l :: 0 <= k < l < |order| ==> order[k] < order[l]
  {
    forall k, l | 0 <= k < l < |order| ensures order[k] < order[l] {
      assert Before(edges, [], order[k], order[l]);
    }
  }

  /** Every healthy edge is chosen, or comes after the chosen edge with its id. */
  lemma ChosenFor(edges: seq<Edge>, status: Status, preferred: seq<string>, j: nat) returns (c: nat)
    requires j < |edges| && Up(status, edges[j].id)
    ensures c < |edges| && edges[c].id == edges[j].id && Chosen(edges, status, preferred, c)
    ensures c == j || Before(edges, preferred, c, j)
  {
    c := j;
    var n := 0;
    while n < |edges|
      invariant n <= |edges| && c < |edges| && edges[c].id == edges[j].id
      invariant c == j || Before(edges, preferred, c, j)
      invariant forall i :: 0 <= i < n && edges[i].id == edges[j].id && i != c ==> Before(edges, preferred, c, i)
    {
      if edges[n].id == edges[j].id && n != c && Before(edges, preferred, n, c) {
        c := n;
      }
      n := n + 1;
    }
  }

  // ---------- the scan by preferred region, then by configuration order ----------

  /** The scan at region r, edge j has passed edge i. */
  predicate Passed(edges: seq<Edge>, preferred: seq<string>, i: nat, r: nat, j: nat)
    requires i < |edges|
  {
    var ri := Rank(preferred, edges[i].region);
    ri < r || (ri == r && i < j)
  }

  /** Some healthy edge with this id has been passed. */
  ghost predicate SeenBy(edges: seq<Edge>, status: Status, preferred: seq<string>, id: string, r: nat, j: nat) {
    exists i :: 0 <= i < |edges| && edges[i].id == id && Up(status, id) && Passed(edges, preferred, i, r, j)
  }

  /** The order so far is right for the edges passed, and seen is the set of their ids. */
  ghost predicate Placed(edges: seq<Edge>, status: Status, preferred: seq<string>,
                         order: seq<nat>, seen: set<string>, r: nat, j: nat) {
    && (forall k :: 0 <= k < |order| ==>
          order[k] < |edges| && Chosen(edges, status, preferred, order[k]) && Passed(edges, preferred, order[k], r, j))
    && (forall k, l :: 0 <= k < l < |order| ==> Before(edges, preferred, order[k], order[l]))
    && (forall i :: 0 <= i < |edges| && Chosen(edges, status, preferred, i) && Passed(edges, preferred, i, r, j) ==>
          i in order)
    && (forall id :: id in seen <==> SeenBy(edges, status, preferred, id, r, j))
  }

  /** Whether the scan appends edge j. */
  predicate Appends(edges: seq<Edge>, status: Status, preferred: seq<string>, seen: set<string>, r: nat, j: nat)
    requires r <= |preferred| && j < |edges|
  {
    && (r < |preferred| ==> edges[j].region == preferred[r])
    && Up(status, edges[j].id) && edges[j].id !in seen
  }

  lemma AppendedIsNew(edges: seq<Edge>, status: Status, preferred: seq<string>,
                      order: seq<nat>, seen: set<string>, r: nat, j: nat)
    requires r <= |preferred| && j < |edges| && Placed(edges, status, preferred, order, seen, r, j)
    requires Appends(edges, status, preferred, seen, r, j)
    ensures Rank(preferred, edges[j].region) == r
    ensures Chosen(edges, status, preferred, j)
  {
    assert !SeenBy(edges, status, preferred, edges[j].id, r, j);
    assert !Passed(edges, preferred, j, r, j);
    forall i | 0 <= i < |edges| && edges[i].id == edges[j].id && i != j
      ensures Before(edges, preferred, j, i)
    {
      assert !Passed(edges, preferred, i, r, j);
    }
  }

  lemma SkippedIsNotChosen(edges: seq<Edge>, status: Status, preferred: seq<string>,
                           order: seq<nat>, seen: set<string>, r: nat, j: nat)
    requires r <= |preferred| && j < |edges| && Placed(edges, status, preferred, order, seen, r, j)
    requires !Appends(edges, status, preferred, seen, r, j)
    requires Rank(preferred, edges[j].region) == r
    ensures !Chosen(edges, status, preferred, j)
    ensures Up(status, edges[j].id) ==> edges[j].id in seen
  {
    if edges[j].id in seen {
      assert SeenBy(edges, status, preferred, edges[j].id, r, j);
      var i :| 0 <= i < |edges| && edges[i].id == edges[j].id && Passed(edges, preferred, i, r, j);
      assert Before(edges, preferred, i, j);
    }
  }

  lemma SeenNext(edges: seq<Edge>, status: Status, preferred: seq<string>, id: string, r: nat, j: nat)
    requires j < |edges|
    ensures SeenBy(edges, status, preferred, id, r, j + 1) <==>
      SeenBy(edges, status, preferred, id, r, j)
      || (edges[j].id == id && Up(status, id) && Rank(preferred, edges[j].region) == r)
  {
    if SeenBy(edges, status, preferred, id, r, j + 1) {
      var i :| 0 <= i < |edges| && edges[i].id == id && Passed(edges, preferred, i, r, j + 1);
      assert i == j || Passed(edges, preferred, i, r, j);
      assert i != j ==> SeenBy(edges, status, preferred, id, r, j);
    }
    if SeenBy(edges, status, preferred, id, r, j) {
      var i :| 0 <= i < |edges| && edges[i].id == id && Passed(edges, preferred, i, r, j);
      assert Passed(edges, preferred, i, r, j + 1);
    }
    if edges[j].id == id && Up(status, id) && Rank(preferred, edges[j].region) == r {
      assert Passed(edges, preferred, j, r, j + 1);
    }
  }

  /** One step of the inner loop. */
  lemma PlaceNext(edges: seq<Edge>, status: Status, preferred: seq<string>,
                  order: seq<nat>, seen: set<string>, r: nat, j: nat)
    requires r <= |preferred| && j < |edges| && Placed(edges, status, preferred, order, seen, r, j)
    ensures if Appends(edges, status, preferred, seen, r, j)
      then Placed(edges, status, preferred, order + [j], seen + {edges[j].id}, r, j + 1)
      else Placed(edges, status, preferred, order, seen, r, j + 1)
  {
    forall id ensures SeenBy(edges, status, preferred, id, r, j + 1) <==>
      SeenBy(edges, status, preferred, id, r, j)
      || (edges[j].id == id && Up(status, id) && Rank(preferred, edges[j].region) == r)
    {
      SeenNext(edges, status, preferred, id, r, j);
    }
    if Appends(edges, status, preferred, seen, r, j) {
      AppendedIsNew(edges, status, preferred, order, seen, r, j);
      forall k | 0 <= k < |order| ensures Before(edges, preferred, order[k], j) {
      }
      forall i | 0 <= i < |edges| && Chosen(edges, status, preferred, i) && Passed(edges, preferred, i, r, j + 1)
        ensures i in order + [j]
      {
        assert i == j || Passed(edges, preferred, i, r, j);
      }
    } else if Rank(preferred, edges[j].region) == r {
      SkippedIsNotChosen(edges, status, preferred, order, seen, r, j);
    }
  }

  /** The end of one region is the start of the next. */
  lemma PlaceRegion(edges: seq<Edge>, status: Status, preferred: seq<string>,
                    order: seq<nat>, seen: set<string>, r: nat)
    requires Placed(edges, status, preferred, order, seen, r, |edges|)
    ensures Placed(edges, status, preferred, order, seen, r + 1, 0)
  {
    forall i | 0 <= i < |edges|
      ensures Passed(edges, preferred, i, r, |edges|) <==> Passed(edges, preferred, i, r + 1, 0)
    {
    }
    forall id ensures SeenBy(edges, status, preferred, id, r, |edges|) <==>
      SeenBy(edges, status, preferred, id, r + 1, 0)
    {
    }
  }

  lemma PlacedAll(edges: seq<Edge>, status: Status, preferred: seq<string>, order: seq<nat>, seen: set<string>)
    requires Placed(edges, status, preferred, order, seen, |preferred|, |edges|)
    ensures IsOrder(edges, status, preferred, order)
  {
    forall i | 0 <= i < |edges| ensures Passed(edges, preferred, i, |preferred|, |edges|) {
    }
  }

  // ---------- attempts ----------

  /** The first try and the failovers allowed after it. */
  const MAX_FAILOVER_ATTEMPTS := 2

  datatype Outcome = Served(edge: nat, failovers: nat) | Unavailable(failovers: nat)

  function AttemptLimit(order: seq<nat>): (n: nat)
    ensures n <= |order| && n <= MAX_FAILOVER_ATTEMPTS + 1
    ensures n < MAX_FAILOVER_ATTEMPTS + 1 ==> n == |order|
  {
    if |order| <= MAX_FAILOVER_ATTEMPTS + 1 then |order| else MAX_FAILOVER_ATTEMPTS + 1
  }

  function MarkAll(edges: seq<Edge>, status: Status, order: seq<nat>, n: nat): Status
    requires n <= |order| && forall k :: 0 <= k < |order| ==> order[k] < |edges|
  {
    if n == 0 then status else MarkAll(edges, status, order, n - 1)[edges[order[n - 1]].id := false]
  }

  /** What one proxied request does, given the failover order: it is answered by the first live edge within
      the attempt limit, with exactly the earlier ones marked down; otherwise all attempted ones are marked
      down and the answer is 503. */
  ghost predicate Attempted(edges: seq<Edge>, order: seq<nat>, live: string -> bool,
                            before: Status, after: Status, outcome: Outcome)
    requires forall k :: 0 <= k < |order| ==> order[k] < |edges|
  {
    match outcome
    case Served(e, n) =>
      && n < AttemptLimit(order) && order[n] == e && live(edges[e].id)
      && (forall k :: 0 <= k < n ==> !live(edges[order[k]].id))
      && after == MarkAll(edges, before, order, n)
    case Unavailable(n) =>
      && n == AttemptLimit(order)
      && (forall k :: 0 <= k < n ==> !live(edges[order[k]].id))
      && after == MarkAll(edges, before, order, n)
  }

  ghost predicate Proxied(edges: seq<Edge>, before: Status, preferred: seq<string>, live: string -> bool,
                          after: Status, outcome: Outcome) {
    exists order :: IsOrder(edges, before, preferred, order)
      && Attempted(edges, order, live, before, after, outcome)
  }

  /** A request from a region that is preferred most, with its healthy edges all live, is answered there at once. */
  lemma ServedInOwnRegion(edges: seq<Edge>, before: Status, preferred: seq<string>, region: string,
                          live: string -> bool, after: Status, outcome: Outcome)
    requires Proxied(edges, before, preferred, live, after, outcome)
    requires OwnFirst(preferred, region) && HasHealthy(edges, before, region)
    requires forall i: nat :: i < |edges| && Up(before, edges[i].id) && edges[i].region == region ==> live(edges[i].id)
    ensures outcome.Served? && outcome.failovers == 0 && after == before
    ensures outcome.edge < |edges| && edges[outcome.edge].region == region
  {
    var order :| IsOrder(edges, before, preferred, order)
      && Attempted(edges, order, live, before, after, outcome);
    NearestIsHead(edges, before, preferred, order);
    NearestInOwnRegion(edges, before, preferred, region);
    var i: nat :| i < |edges| && Up(before, edges[i].id) && edges[i].region == region;
    assert IsNearest(edges, before, preferred, order[0]);
    assert live(edges[order[0]].id);
  }

  // ---------- the failover bound ----------

  /** Ids of edges marked healthy that do not answer. */
  function DeadUp(edges: seq<Edge>, status: Status, live: string -> bool): set<string> {
    set e | e in edges && Up(status, e.id) && !live(e.id) :: e.id
  }

  ghost predicate SomeLiveUp(edges: seq<Edge>, status: Status, live: string -> bool) {
    exists i :: 0 <= i < |edges| && Up(status, edges[i].id) && live(edges[i].id)
  }

  /** Distinct positions of the order have distinct ids. */
  lemma OrderIdsDistinct(edges: seq<Edge>, status: Status, preferred: seq<string>, order: seq<nat>)
    requires IsOrder(edges, status, preferred, order)
    ensures forall k, l :: 0 <= k < l < |order| ==> edges[order[k]].id != edges[order[l]].id
  {
    forall k, l | 0 <= k < l < |order| ensures edges[order[k]].id != edges[order[l]].id {
      assert Before(edges, preferred, order[k], order[l]);
    }
  }

  /** Marking the first n edges of the order down, all of them dead, removes exactly n dead ids. */
  lemma {:induction false} MarkAllRemoves(edges: seq<Edge>, status: Status, preferred: seq<string>,
                                          order: seq<nat>, n: nat, live: string -> bool)
    requires IsOrder(edges, status, preferred, order) && n <= |order|
    requires forall k :: 0 <= k < n ==> !live(edges[order[k]].id)
    ensures |DeadUp(edges, MarkAll(edges, status, order, n), live)| + n == |DeadUp(edges, status, live)|
    ensures forall k :: n <= k < |order| ==> Up(MarkAll(edges, status, order, n), edges[order[k]].id)
    ensures forall id :: live(id) ==> (Up(MarkAll(edges, status, order, n), id) <==> Up(status, id))
  {
    if n > 0 {
      MarkAllRemoves(edges, status, preferred, order, n - 1, live);
      OrderIdsDistinct(edges, status, preferred, order);
      var was, now := MarkAll(edges, status, order, n - 1), MarkAll(edges, status, order, n);
      var e := edges[order[n - 1]];
      assert e in edges && e.id in DeadUp(edges, was, live);
      assert DeadUp(edges, now, live) == DeadUp(edges, was, live) - {e.id};
    }
  }

  /** One request takes dead edges out of service, three of them if it ends in 503,
      and never a live one. */
  lemma RequestUsesUpDead(edges: seq<Edge>, before: Status, preferred: seq<string>, live: string -> bool,
                          after: Status, outcome: Outcome)
    requires Proxied(edges, before, preferred, live, after, outcome) && SomeLiveUp(edges, before, live)
    ensures SomeLiveUp(edges, after, live)
    ensures |DeadUp(edges, after, live)| + outcome.failovers == |DeadUp(edges, before, live)|
    ensures outcome.Unavailable? ==> outcome.failovers == MAX_FAILOVER_ATTEMPTS + 1
  {
    var order :| IsOrder(edges, before, preferred, order)
      && Attempted(edges, order, live, before, after, outcome);
    var n := outcome.failovers;
    MarkAllRemoves(edges, before, preferred, order, n, live);
    var i :| 0 <= i < |edges| && Up(before, edges[i].id) && live(edges[i].id);
    assert Up(after, edges[i].id);
    var c := ChosenFor(edges, before, preferred, i);
    assert c in order;
  }

  /** A run of sequential requests with no recovery marking: the status before and after each. */
  ghost predicate RequestRun(edges: seq<Edge>, statuses: seq<Status>, preferences: seq<seq<string>>,
                             live: string -> bool, outcomes: seq<Outcome>) {
    && |statuses| == |outcomes| + 1 && |preferences| == |outcomes|
    && forall i :: 0 <= i < |outcomes| ==>
      Proxied(edges, statuses[i], preferences[i], live, statuses[i + 1], outcomes[i])
  }

  function Failed(outcomes: seq<Outcome>): nat {
    if outcomes == [] then 0
    else Failed(outcomes[..|outcomes| - 1]) + if outcomes[|outcomes| - 1].Unavailable? then 1 else 0
  }

  /** With fixed liveness and some live edge in service, each 503 uses up three dead edges:
      at most a third of the dead edges marked healthy end in 503, whatever the regions. */
  lemma {:induction false} FailoverBound(edges: seq<Edge>, statuses: seq<Status>, preferences: seq<seq<string>>,
                                         live: string -> bool, outcomes: seq<Outcome>)
    requires RequestRun(edges, statuses, preferences, live, outcomes)
    requires SomeLiveUp(edges, statuses[0], live)
    ensures SomeLiveUp(edges, statuses[|outcomes|], live)
    ensures 3 * Failed(outcomes) + |DeadUp(edges, statuses[|outcomes|], live)| <= |DeadUp(edges, statuses[0], live)|
    ensures Failed(outcomes) <= |DeadUp(edges, statuses[0], live)| / 3
  {
    if outcomes != [] {
      var n := |outcomes| - 1;
      FailoverBound(edges, statuses[..n + 1], preferences[..n], live, outcomes[..n]);
      RequestUsesUpDead(edges, statuses[n], preferences[n], live, statuses[n + 1], outcomes[n]);
    }
  }
}
