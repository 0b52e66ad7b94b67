/** RoutingService as an object updated in place, and the router's failover loop over it
    (src/application/routing_service.py, src/presentation/router/routes.py). */
module Routing {
  import opened Text
  import opened EdgeOrder

  type PriorityTable = map<string, seq<string>>

  const REGION_PRIORITY: PriorityTable := map[
    "eu" := ["eu", "us", "asia"],
    "us" := ["us", "eu", "asia"],
    "asia" := ["asia", "eu", "us"]
  ]

  const DEFAULT_REGION := "eu"

  datatype EdgeConfig = EdgeConfig(id: string, host: string, port: int, region: string)

  /** The shipped table: every region first, and then the others in a fixed order. */
  lemma ShippedTable()
    ensures REGION_PRIORITY.Keys == {"eu", "us", "asia"}
    ensures forall region :: region in REGION_PRIORITY ==> OwnFirst(REGION_PRIORITY[region], region)
    ensures Rank(REGION_PRIORITY["eu"], "us") == 1 && Rank(REGION_PRIORITY["eu"], "asia") == 2
    ensures Rank(REGION_PRIORITY["us"], "eu") == 1 && Rank(REGION_PRIORITY["us"], "asia") == 2
    ensures Rank(REGION_PRIORITY["asia"], "eu") == 1 && Rank(REGION_PRIORITY["asia"], "us") == 2
    ensures forall unknown, list :: unknown !in REGION_PRIORITY && Prefers(REGION_PRIORITY, unknown, list) ==>
      list == REGION_PRIORITY["eu"]
  {
  }

  class EdgeNode {
    const id: string
    const host: string
    const port: int
    const region: string
    var healthy: bool

    constructor (config: EdgeConfig)
      ensures id == config.id && host == config.host && port == config.port && region == config.region
      ensures healthy
    {
      id := config.id;
      host := config.host;
      port := config.port;
      region := config.region;
      healthy := true;
    }
  }

  /** What the order depends on. */
  function View(edges: seq<EdgeNode>): (v: seq<Edge>)
    ensures |v| == |edges|
    ensures forall i :: 0 <= i < |edges| ==> v[i] == Edge(edges[i].id, edges[i].region)
  {
    seq(|edges|, i requires 0 <= i < |edges| => Edge(edges[i].id, edges[i].region))
  }

  /** Whether the list is the one that the table prefers for a client of the region: the region's own, or else that
      of the default region, or else none. */
  ghost predicate Prefers(table: PriorityTable, region: string, list: seq<string>) {
    && (region in table ==> list == table[region])
    && (region !in table && DEFAULT_REGION in table ==> list == table[DEFAULT_REGION])
    && (region !in table && DEFAULT_REGION !in table ==> list == [])
  }

  /** The list of edges at these positions. */
  ghost predicate Lists(edges: seq<EdgeNode>, ordered: seq<EdgeNode>, order: seq<nat>) {
    |ordered| == |order| && forall k :: 0 <= k < |order| ==> order[k] < |edges| && ordered[k] == edges[order[k]]
  }

  class RoutingService {
    var edges: seq<EdgeNode>
    var edgeStatus: Status
    var regionPriority: PriorityTable

    /** The edge objects are distinct, and every one has a status. */
    ghost predicate Valid()
      reads this
    {
      && (forall i, j :: 0 <= i < j < |edges| ==> edges[i] != edges[j])
      && (forall i :: 0 <= i < |edges| ==> edges[i].id in edgeStatus)
    }

    /** The healthy flag of every edge says what the status table says. */
    ghost predicate InSync()
      reads this, edges
    {
      forall i :: 0 <= i < |edges| ==> edges[i].healthy == Up(edgeStatus, edges[i].id)
    }

    constructor (configs: seq<EdgeConfig>, table: Option<PriorityTable>)
      ensures Valid() && InSync() && fresh(edges)
      ensures |edges| == |configs|
      ensures forall i :: 0 <= i < |configs| ==>
        edges[i].id == configs[i].id && edges[i].region == configs[i].region && Up(edgeStatus, configs[i].id)
      ensures regionPriority == if table.Some? && table.value != map[] then table.value else REGION_PRIORITY
    {
      edges := [];
      edgeStatus := map[];
      regionPriority := if table.Some? && table.value != map[] then table.value else REGION_PRIORITY;
      new;
      for n := 0 to |configs|
        invariant Valid() && InSync() && fresh(edges) && |edges| == n
        invariant forall i :: 0 <= i < n ==>
          edges[i].id == configs[i].id && edges[i].region == configs[i].region && Up(edgeStatus, configs[i].id)
        invariant regionPriority == if table.Some? && table.value != map[] then table.value else REGION_PRIORITY
      {
        var edge := new EdgeNode(configs[n]);
        edges := edges + [edge];
        edgeStatus := edgeStatus[configs[n].id := true];
      }
    }

    /** The preference list of a region, the default region's list, or nothing. */
    function Preferred(region: string): (list: seq<string>)
      reads this
      ensures Prefers(regionPriority, region, list)
    {
      if region in regionPriority then regionPriority[region]
      else if DEFAULT_REGION in regionPriority then regionPriority[DEFAULT_REGION]
      else []
    }

    method GetNearestEdge(clientRegion: string) returns (edge: EdgeNode?, ghost at: nat)
      ensures edge == null ==> forall i :: 0 <= i < |edges| ==> !Up(edgeStatus, edges[i].id)
      ensures edge != null ==> at < |edges| && edge == edges[at]
      ensures edge != null ==> forall list :: Prefers(regionPriority, clientRegion, list) ==>
        IsNearest(View(edges), edgeStatus, list, at)
      ensures clientRegion in regionPriority && OwnFirst(regionPriority[clientRegion], clientRegion) ==>
        HasHealthy(View(edges), edgeStatus, clientRegion) ==> edge != null && edge.region == clientRegion
    {
      var preferred := Preferred(clientRegion);
      ghost var view := View(edges);
      NearestInOwnRegion(view, edgeStatus, preferred, clientRegion);
      edge, at := null, 0;
      for r := 0 to |preferred|
        invariant forall i :: 0 <= i < |edges| && Up(edgeStatus, edges[i].id) ==>
          Rank(preferred, edges[i].region) >= r
      {
        for j := 0 to |edges|
          invariant forall i :: 0 <= i < |edges| && Up(edgeStatus, edges[i].id) ==>
            !Passed(view, preferred, i, r, j)
        {
          if edges[j].region == preferred[r] && Up(edgeStatus, edges[j].id) {
            edge, at := edges[j], j;
            assert Rank(preferred, view[j].region) == r;
            return;
          }
        }
        forall i | 0 <= i < |edges| && Up(edgeStatus, edges[i].id)
          ensures Rank(preferred, edges[i].region) >= r + 1
        {
          assert !Passed(view, preferred, i, r, |edges|);
        }
      }
      for j := 0 to |edges|
        invariant forall i :: 0 <= i < j ==> !Up(edgeStatus, edges[i].id)
      {
        if Up(edgeStatus, edges[j].id) {
          edge, at := edges[j], j;
          return;
        }
      }
    }

    /** One pass over the edges, for the region of rank r or, at the end, for all that are left. */
    method PlaceEdges(preferred: seq<string>, r: nat, ordered: seq<EdgeNode>, order: seq<nat>, seen: set<string>)
      returns (ordered': seq<EdgeNode>, order': seq<nat>, seen': set<string>)
      requires r <= |preferred| && Placed(View(edges), edgeStatus, preferred, order, seen, r, 0)
      requires Lists(edges, ordered, order)
      ensures Placed(View(edges), edgeStatus, preferred, order', seen', r, |edges|)
      ensures Lists(edges, ordered', order')
    {
      ghost var view := View(edges);
      ordered', order', seen' := ordered, order, seen;
      for j := 0 to |edges|
        invariant Placed(view, edgeStatus, preferred, order', seen', r, j)
        invariant Lists(edges, ordered', order')
      {
        PlaceNext(view, edgeStatus, preferred, order', seen', r, j);
        if (r < |preferred| ==> edges[j].region == preferred[r])
          && Up(edgeStatus, edges[j].id) && edges[j].id !in seen' {
          ordered', order' := ordered' + [edges[j]], order' + [j];
          seen' := seen' + {edges[j].id};
        }
      }
    }

    /** The edges in failover order, with their positions in the configuration. */
    method GetOrderedEdges(clientRegion: string) returns (ordered: seq<EdgeNode>, order: seq<nat>)
      ensures forall list :: Prefers(regionPriority, clientRegion, list) ==>
        IsOrder(View(edges), edgeStatus, list, order)
      ensures Lists(edges, ordered, order)
    {
      var preferred := Preferred(clientRegion);
      ghost var view := View(edges);
      ordered, order := [], [];
      var seen: set<string> := {};
      for r := 0 to |preferred|
        invariant Placed(view, edgeStatus, preferred, order, seen, r, 0)
        invariant Lists(edges, ordered, order)
      {
        ordered, order, seen := PlaceEdges(preferred, r, ordered, order, seen);
        PlaceRegion(view, edgeStatus, preferred, order, seen, r);
      }
      ordered, order, seen := PlaceEdges(preferred, |preferred|, ordered, order, seen);
      PlacedAll(view, edgeStatus, preferred, order, seen);
    }

    /** Set the status of an id, and the flag of the first edge with that id. */
    method Mark(edgeId: string, up: bool)
      requires Valid()
      modifies this`edgeStatus, edges
      ensures Valid()
      ensures edgeStatus == old(edgeStatus)[edgeId := up]
      ensures forall i :: 0 <= i < |edges| ==>
        edges[i].healthy == if edges[i].id == edgeId && (forall j :: 0 <= j < i ==> edges[j].id != edgeId)
                            then up else old(edges[i].healthy)
      ensures UniqueIds(View(edges)) && old(InSync()) ==> InSync()
    {
      edgeStatus := edgeStatus[edgeId := up];
      for i := 0 to |edges|
        invariant forall j :: 0 <= j < i ==> edges[j].id != edgeId
        invariant forall j :: 0 <= j < |edges| ==> edges[j].healthy == old(edges[j].healthy)
      {
        if edges[i].id == edgeId {
          edges[i].healthy := up;
          assert UniqueIds(View(edges)) ==> forall j :: 0 <= j < |edges| && j != i ==> edges[j].id != edgeId;
          break;
        }
      }
    }

    method MarkUnhealthy(edgeId: string)
      requires Valid()
      modifies this`edgeStatus, edges
      ensures Valid()
      ensures edgeStatus == old(edgeStatus)[edgeId := false]
      ensures UniqueIds(View(edges)) && old(InSync()) ==> InSync()
    {
      Mark(edgeId, false);
    }

    method MarkHealthy(edgeId: string)
      requires Valid()
      modifies this`edgeStatus, edges
      ensures Valid()
      ensures edgeStatus == old(edgeStatus)[edgeId := true]
      ensures UniqueIds(View(edges)) && old(InSync()) ==> InSync()
    {
      Mark(edgeId, true);
    }
  }

  /** The failover loop. live says which edges answer during this request; one request tries each id once. */
  method ProxyToEdge(service: RoutingService, region: string, live: string -> bool) returns (outcome: Outcome)
    requires service.Valid()
    modifies service`edgeStatus, service.edges
    ensures service.Valid()
    ensures forall list :: Prefers(service.regionPriority, region, list) ==>
      Proxied(View(service.edges), old(service.edgeStatus), list, live, service.edgeStatus, outcome)
    ensures UniqueIds(View(service.edges)) && old(service.InSync()) ==> service.InSync()
  {
    hide IsOrder, Up, Prefers;
    var ordered, order := service.GetOrderedEdges(region);
    ghost var before, view := service.edgeStatus, View(service.edges);
    if ordered == [] {
      assert Attempted(view, order, live, before, before, Unavailable(0));
      return Unavailable(0);
    }
    var maxAttempts := if |ordered| <= MAX_FAILOVER_ATTEMPTS + 1 then |ordered| else MAX_FAILOVER_ATTEMPTS + 1;
    var failoverCount := 0;
    for i := 0 to maxAttempts
      invariant service.Valid() && failoverCount == i
      invariant forall k :: 0 <= k < i ==> !live(view[order[k]].id)
      invariant service.edgeStatus == MarkAll(view, before, order, i)
      invariant UniqueIds(view) && old(service.InSync()) ==> service.InSync()
    {
      var edge := ordered[i];
      if live(edge.id) {
        outcome := Served(order[i], failoverCount);
        assert Attempted(view, order, live, before, service.edgeStatus, outcome);
        return;
      }
      service.MarkUnhealthy(edge.id);
      failoverCount := failoverCount + 1;
    }
    outcome := Unavailable(failoverCount);
    assert Attempted(view, order, live, before, service.edgeStatus, outcome);
  }
}
