/** The network record of the route finder: station records, the weighted
    adjacency matrix, the constants the program is built around, and the
    station lookup by exact name. */
module Metro {
  import opened Text

  /** Sentinel for "no edge" in the matrix and "not reached" in the search. */
  const INF: int := 99999
  /** Capacity of the station table and of each matrix dimension. */
  const MaxStations: int := 200
  /** Travel time between consecutive stations of one line. */
  const InLineWeight: int := 10
  /** Travel time of an interchange connection. */
  const InterchangeWeight: int := 5
  /** The largest weight a well-formed matrix may hold. */
  const MaxWeight: int := 10
  /** Buffer sizes of a station record (a C string needs room for its terminator). */
  const NameCapacity: int := 50
  const LabelCapacity: int := 20

  /** One record per occurrence of a name on a line: name, own position, line label. */
  datatype Station = Station(name: string, index: int, line: string)

  datatype Network = Network(stations: seq<Station>, adj: seq<seq<int>>)

  predicate Square(adj: seq<seq<int>>, n: int) {
    |adj| == n && forall i :: 0 <= i < n ==> |adj[i]| == n
  }

  /** Every entry of the matrix is either "no edge" or a positive weight of at most MaxWeight. */
  predicate WeightsInRange(adj: seq<seq<int>>)
    requires Square(adj, |adj|)
  {
    forall i, j :: 0 <= i < |adj| && 0 <= j < |adj| ==> adj[i][j] == INF || 1 <= adj[i][j] <= MaxWeight
  }

  /** What the route search relies on: a table within capacity and a square matrix over it. */
  predicate WellFormed(g: Network) {
    && |g.stations| <= MaxStations
    && Square(g.adj, |g.stations|)
    && WeightsInRange(g.adj)
  }

  /** The linear scan of the station table: the first record with this exact name, or -1. */
  function FindStation(stations: seq<Station>, name: string): (r: int)
    ensures -1 <= r < |stations|
    ensures r == -1 <==> forall i :: 0 <= i < |stations| ==> stations[i].name != name
    ensures r != -1 ==> stations[r].name == name
    ensures r != -1 ==> forall i :: 0 <= i < r ==> stations[i].name != name
  {
    FindFrom(stations, name, 0)
  }

  function FindFrom(stations: seq<Station>, name: string, from: nat): (r: int)
    requires from <= |stations|
    requires forall i :: 0 <= i < from ==> stations[i].name != name
    ensures -1 <= r < |stations|
    ensures r == -1 <==> forall i :: 0 <= i < |stations| ==> stations[i].name != name
    ensures r != -1 ==> from <= r && stations[r].name == name
    ensures r != -1 ==> forall i :: 0 <= i < r ==> stations[i].name != name
    decreases |stations| - from
  {
    if from == |stations| then -1
    else if stations[from].name == name then from
    else FindFrom(stations, name, from + 1)
  }

  /** A record is the first occurrence of its name exactly when lookup of that name lands on it. */
  predicate IsFirstOccurrence(stations: seq<Station>, k: int) {
    0 <= k < |stations| && FindStation(stations, stations[k].name) == k
  }

  /** Lookup with a normalised typed name lands, if anywhere, on a record whose name is a key:
      a record whose name holds a space or a capital can never be reached this way. */
  lemma NormalizedLookupHitsKeysOnly(stations: seq<Station>, input: string)
    ensures var k := FindStation(stations, Normalize(input));
      k == -1 || IsKey(stations[k].name)
  {
  }

  lemma SpacedNameNeverFound(stations: seq<Station>, k: int, input: string)
    requires 0 <= k < |stations|
    requires exists i :: 0 <= i < |stations[k].name| && IsSpace(stations[k].name[i])
    ensures FindStation(stations, Normalize(input)) != k
  {
    NormalizedLookupHitsKeysOnly(stations, input);
  }
}
