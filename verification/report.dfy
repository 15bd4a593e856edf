/** Reading the search records back as a route: the predecessor chain from the
    destination, the interchange count of the printed route, and the summary
    (station count, interchanges, travel time) returned as a value. */
module Report {
  import opened Metro
  import opened Paths
  import opened Search

  /** The route printed for a query. */
  datatype Itinerary = Itinerary(
    path: seq<int>,          // station indices from source to destination
    stops: seq<Station>,     // the record printed for each of them: name and line label
    stationCount: int,
    interchanges: int,
    time: int)

  datatype Outcome = NoPath | Found(route: Itinerary)

  /** The stations met by following prev from at until it runs out, in travel order. */
  function PrevChain(g: Network, start: int, s: State, at: int): (p: seq<int>)
    requires Chained(g, start, s) && 0 <= at < |g.stations| && s.dist[at] != INF
    ensures IsPath(g.adj, p) && InTable(g.stations, p)
    ensures p[0] == start && p[|p| - 1] == at
    ensures Cost(g.adj, p) == s.dist[at]
    ensures LineChanges(g.stations, p) == s.transfers[at]
    decreases s.dist[at]
  {
    if s.prev[at] == -1 then
      NoPredecessorIsStart(g, start, s);
      [at]
    else
      assert Linked(g, s, at);
      var q := PrevChain(g, start, s, s.prev[at]);
      ExtendPath(g, q, at);
      q + [at]
  }

  /** The interchanges the report announces: a step counts when the label of the station
      left is non-empty and differs from the label of the station reached. */
  function Interchanges(stations: seq<Station>, p: seq<int>): (r: int)
    requires InTable(stations, p)
    ensures 0 <= r <= LineChanges(stations, p)
    ensures r <= |p| - 1 || r == 0
    decreases |p|
  {
    if |p| <= 1 then 0
    else
      var here, next := stations[p[|p| - 2]].line, stations[p[|p| - 1]].line;
      Interchanges(stations, p[..|p| - 1]) + (if here != "" && here != next then 1 else 0)
  }

  /** The report loop: walk the route keeping the label of the previous station, starting
      from the empty label. */
  method CountInterchanges(stations: seq<Station>, path: seq<int>) returns (k: int)
    requires InTable(stations, path)
    ensures k == Interchanges(stations, path)
  {
    k := 0;
    var current := "";
    var i := 0;
    while i < |path|
      invariant 0 <= i <= |path|
      invariant InTable(stations, path[..i])
      invariant k == Interchanges(stations, path[..i])
      invariant current == if i == 0 then "" else stations[path[i - 1]].line
    {
      var here := stations[path[i]].line;
      assert path[..i + 1][..i] == path[..i];
      if current != here && current != "" {
        k := k + 1;
      }
      current := here;
      i := i + 1;
    }
    assert path[..|path|] == path;
  }

  /** When every line label on the route is non-empty, the announced interchanges are
      exactly the label changes the search counted. */
  lemma {:induction false} InterchangesAreLineChanges(stations: seq<Station>, p: seq<int>)
    requires InTable(stations, p)
    requires forall i :: 0 <= i < |p| ==> stations[p[i]].line != ""
    ensures Interchanges(stations, p) == LineChanges(stations, p)
    decreases |p|
  {
    if |p| > 1 {
      var init := p[..|p| - 1];
      assert forall i :: 0 <= i < |init| ==> init[i] == p[i];
      InterchangesAreLineChanges(stations, init);
      assert stations[p[|p| - 2]].line != "";
    }
  }

  /** An itinerary that is the best route from start to end: it follows edges, its time is
      its cost, it is no later in the (time, changes) order than any route between the same
      two stations, and its counts are those of the report. */
  ghost predicate BestRoute(g: Network, start: int, end: int, it: Itinerary)
    requires WellFormed(g)
  {
    && IsPath(g.adj, it.path)
    && InTable(g.stations, it.path)
    && it.path[0] == start
    && it.path[|it.path| - 1] == end
    && it.time == Cost(g.adj, it.path)
    && (forall q :: IsPath(g.adj, q) && q[0] == start && q[|q| - 1] == end ==>
          LexLe(it.time, LineChanges(g.stations, it.path), Cost(g.adj, q), LineChanges(g.stations, q)))
    && |it.stops| == |it.path|
    && (forall i :: 0 <= i < |it.path| ==> it.stops[i] == g.stations[it.path[i]])
    && it.stationCount == |it.path|
    && it.interchanges == Interchanges(g.stations, it.path)
  }

  /** A query between two resolved stations: "no path" exactly when the destination cannot
      be reached, otherwise the best route. */
  method ShortestRoute(g: Network, start: int, end: int) returns (r: Outcome)
    requires WellFormed(g) && 0 <= start < |g.stations| && 0 <= end < |g.stations|
    ensures r.NoPath? <==> !Reachable(g.adj, start, end)
    ensures r.Found? ==> BestRoute(g, start, end, r.route)
  {
    var s := Dijkstra(g, start);
    if s.dist[end] == INF {
      assert !Reachable(g.adj, start, end) by {
        forall p | IsPath(g.adj, p) && p[0] == start
          ensures p[|p| - 1] != end
        {
          assert Dominated(g, s, p);
        }
      }
      return NoPath;
    }
    var path := PrevChain(g, start, s, end);
    var k := CountInterchanges(g.stations, path);
    var stops := seq(|path|, i requires 0 <= i < |path| => g.stations[path[i]]);
    r := Found(Itinerary(path, stops, |path|, k, s.dist[end]));
    forall q | IsPath(g.adj, q) && q[0] == start && q[|q| - 1] == end
      ensures LexLe(s.dist[end], s.transfers[end], Cost(g.adj, q), LineChanges(g.stations, q))
    {
      assert Dominated(g, s, q);
    }
  }
}
