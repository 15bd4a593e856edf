/** The route query of the main menu: normalise both typed names, look each up, and
    either report that a station is unknown, or run the search and report its outcome. */
module Planner {
  import opened Text
  import opened Metro
  import opened Paths
  import opened Report
  import opened Builder

  datatype Answer =
    | StationNotFound          // one or both typed names match no record
    | NoRoute                  // both found, the destination cannot be reached
    | Route(itinerary: Itinerary)

  /** One query against a network: the answer is "station not found" exactly when a
      normalised name has no record, "no route" exactly when both are found and the
      destination is unreachable, and otherwise the best route between the two records
      the lookups returned, whose end records carry the normalised names. */
  method FindRoute(g: Network, source: string, dest: string) returns (a: Answer)
    requires WellFormed(g)
    ensures var s, e := FindStation(g.stations, Normalize(source)), FindStation(g.stations, Normalize(dest));
      && (a.StationNotFound? <==> s == -1 || e == -1)
      && (a.NoRoute? <==> s != -1 && e != -1 && !Reachable(g.adj, s, e))
      && (a.Route? ==> s != -1 && e != -1 && BestRoute(g, s, e, a.itinerary))
    ensures a.Route? ==>
      && a.itinerary.stops[0].name == Normalize(source)
      && a.itinerary.stops[|a.itinerary.stops| - 1].name == Normalize(dest)
  {
    var start := NormalizeInput(source);
    var goal := NormalizeInput(dest);
    var s := FindStation(g.stations, start);
    var e := FindStation(g.stations, goal);
    if s == -1 || e == -1 {
      return StationNotFound;
    }
    var r := ShortestRoute(g, s, e);
    match r {
      case NoPath => a := NoRoute;
      case Found(it) => a := Route(it);
    }
  }

  /** The same query against the network built with normalised table names: a typed name
      is unknown exactly when no stop of the configuration normalises to the same key. */
  method FindRouteKeyed(cfg: Config, source: string, dest: string) returns (a: Answer)
    requires Fits(cfg)
    ensures a.StationNotFound? <==> !Listed(cfg, Normalize(source)) || !Listed(cfg, Normalize(dest))
    ensures var g := BuildKeyed(cfg);
      var s, e := FindStation(g.stations, Normalize(source)), FindStation(g.stations, Normalize(dest));
      && (a.NoRoute? <==> s != -1 && e != -1 && !Reachable(g.adj, s, e))
      && (a.Route? ==> s != -1 && e != -1 && BestRoute(g, s, e, a.itinerary))
  {
    KeyedLookup(cfg, Normalize(source));
    KeyedLookup(cfg, Normalize(dest));
    a := FindRoute(BuildKeyed(cfg), source, dest);
  }

  /** A trip from a station to itself is the one-stop route: no time, no interchanges. */
  lemma SameStationTrip(g: Network, s: int, it: Itinerary)
    requires WellFormed(g) && 0 <= s < |g.stations|
    requires BestRoute(g, s, s, it)
    ensures it.time == 0 && it.stationCount == 1 && it.interchanges == 0 && it.path == [s]
  {
    var stay := [s];
    assert IsPath(g.adj, stay);
    assert Cost(g.adj, stay) == 0;
    if |it.path| > 1 {
      PrefixCheaper(g, it.path, 1);
    }
    assert it.path == stay;
  }
}
