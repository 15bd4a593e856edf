/** A two-line excerpt of the Delhi table, used to exhibit two behaviours of the program:
    a table name holding a space cannot be typed back, and the typed query from patelchowk
    to newdelhi, a straight Yellow ride, is answered through rajivchowk's Blue record and
    reported with two interchanges. */
module Examples {
  import opened Text
  import opened Metro
  import opened Paths
  import opened Report
  import opened Builder
  import opened Planner

  /** Blue before Yellow, as in the program's line order, so rajivchowk is first listed on
      Blue. The Yellow stops keep the program's order, abbreviated: the stations between
      newdelhi and civil lines are dropped; "civil lines" keeps its space as in the
      program's table. */
  function Sample(): Config {
    Config(
      [ Line("Blue", ["rajivchowk", "barakhamba"]),
        Line("Yellow", ["patelchowk", "rajivchowk", "newdelhi", "civil lines"]) ],
      [])
  }

  lemma SampleFits(cfg: Config)
    requires cfg == Sample()
    ensures Fits(cfg) && TotalStops(cfg.lines[..1]) == 2
  {
    var lines := cfg.lines;
    assert lines[..1] == [lines[0]] && [lines[0]][..0] == [];
    assert lines[..|lines| - 1] == [lines[0]];
  }

  /** The records of the sample, in order: one per stop occurrence. */
  function SampleRecords(): seq<Station> {
    [ Station("rajivchowk", 0, "Blue"), Station("barakhamba", 1, "Blue"),
      Station("patelchowk", 2, "Yellow"), Station("rajivchowk", 3, "Yellow"),
      Station("newdelhi", 4, "Yellow"), Station("civil lines", 5, "Yellow") ]
  }

  lemma SampleStations(lines: seq<Line>)
    requires lines == Sample().lines
    ensures StationsOf(lines) == SampleRecords()
  {
    assert lines[..0] == [] && lines[..1] == [lines[0]];
    var st := StationsOf(lines);
    assert |st| == 6 by {
      assert lines[..|lines| - 1] == [lines[0]] && [lines[0]][..0] == [];
    }
    StationPlacement(lines, 0, 0);
    StationPlacement(lines, 0, 1);
    StationPlacement(lines, 1, 0);
    StationPlacement(lines, 1, 1);
    StationPlacement(lines, 1, 2);
    StationPlacement(lines, 1, 3);
    assert st[0] == SampleRecords()[0] && st[1] == SampleRecords()[1] && st[2] == SampleRecords()[2];
    assert st[3] == SampleRecords()[3] && st[4] == SampleRecords()[4] && st[5] == SampleRecords()[5];
  }

  lemma SampleTable(cfg: Config)
    requires cfg == Sample()
    ensures Fits(cfg) && |Build(cfg).adj| == 6
    ensures Build(cfg).stations == SampleRecords()
  {
    SampleFits(cfg);
    SampleStations(cfg.lines);
  }

  lemma CivilLinesKey()
    ensures Normalize("civil lines") == "civillines"
  {
    assert "civil lines" == "civil" + [' '] + "lines";
    KeysAroundSpace("civil", ' ', "lines");
    assert "civil" + "lines" == "civillines";
  }

  lemma CapitalisedCivilKey()
    ensures Normalize("Civil") == "civil"
  {
    assert "Civil" == ['C'] + "ivil";
    CapitalThenKey('C', "ivil");
  }

  lemma CapitalisedLinesKey()
    ensures Normalize("Lines") == "lines"
  {
    assert "Lines" == ['L'] + "ines";
    CapitalThenKey('L', "ines");
  }

  lemma CapitalisedCivilLinesKey()
    ensures Normalize("Civil Lines") == "civillines"
  {
    assert "Civil Lines" == "Civil" + [' '] + "Lines";
    BlankDropped("Civil", ' ', "Lines");
    CapitalisedCivilKey();
    CapitalisedLinesKey();
    assert "civil" + "lines" == "civillines";
  }

  /** Typing the table's own spelling of "civil lines", or its capitalised form, reaches no
      record: the normalised input has lost the space, and no record is spelled that way. */
  lemma CivilLinesNotFound(cfg: Config)
    requires cfg == Sample()
    ensures Fits(cfg) && Build(cfg).stations[5].name == "civil lines"
    ensures FindStation(Build(cfg).stations, Normalize("civil lines")) == -1
    ensures FindStation(Build(cfg).stations, Normalize("Civil Lines")) == -1
  {
    SampleTable(cfg);
    CivilLinesKey();
    CapitalisedCivilLinesKey();
    SampleLookups(Build(cfg).stations);
  }

  /** Lookups in the sample table: the first record of each name, and no "civillines". */
  lemma SampleLookups(st: seq<Station>)
    requires st == SampleRecords()
    ensures FindStation(st, "rajivchowk") == 0
    ensures FindStation(st, "barakhamba") == 1
    ensures FindStation(st, "patelchowk") == 2
    ensures FindStation(st, "newdelhi") == 4
    ensures FindStation(st, "civil lines") == 5
    ensures FindStation(st, "civillines") == -1
    ensures st[5].name == "civil lines" && st[3].name == "rajivchowk"
  {
    assert "rajivchowk"[0] != "barakhamba"[0];
    assert "rajivchowk"[0] != "patelchowk"[0] && "barakhamba"[0] != "patelchowk"[0];
    assert "rajivchowk"[0] != "newdelhi"[0] && "barakhamba"[0] != "newdelhi"[0];
    assert "patelchowk"[0] != "newdelhi"[0];
    assert "rajivchowk"[0] != "civil lines"[0] && "barakhamba"[0] != "civil lines"[0];
    assert "patelchowk"[0] != "civil lines"[0] && "newdelhi"[0] != "civil lines"[0];
    assert forall k :: 0 <= k < |st| ==> st[k].name != "civillines";
  }

  /** With normalised table names the same inputs find the station. */
  lemma CivilLinesFoundWhenKeyed(cfg: Config)
    requires cfg == Sample()
    ensures Fits(cfg)
    ensures FindStation(BuildKeyed(cfg).stations, Normalize("civil lines")) != -1
    ensures FindStation(BuildKeyed(cfg).stations, Normalize("Civil Lines")) != -1
  {
    SampleFits(cfg);
    CivilLinesKey();
    CapitalisedCivilLinesKey();
    assert cfg.lines[1].stops[3] == "civil lines";
    KeyedStopFound(cfg, 1, 3, "civil lines");
  }

  /** Where each stop of the sample is found: rajivchowk on Yellow resolves to its Blue
      record. */
  lemma SampleStopLookups(cfg: Config)
    requires cfg == Sample()
    ensures var st, blue, yellow := StationsOf(cfg.lines), cfg.lines[0].stops, cfg.lines[1].stops;
      && |st| == 6 && |cfg.lines| == 2 && |blue| == 2 && |yellow| == 4
      && FindStation(st, blue[0]) == 0 && FindStation(st, blue[1]) == 1
      && FindStation(st, yellow[0]) == 2 && FindStation(st, yellow[1]) == 0
      && FindStation(st, yellow[2]) == 4 && FindStation(st, yellow[3]) == 5
  {
    var blue, yellow := cfg.lines[0].stops, cfg.lines[1].stops;
    assert blue[0] == "rajivchowk" && blue[1] == "barakhamba";
    assert yellow[0] == "patelchowk" && yellow[1] == "rajivchowk";
    assert yellow[2] == "newdelhi" && yellow[3] == "civil lines";
    SampleStations(cfg.lines);
    SampleLookups(StationsOf(cfg.lines));
  }

  /** The pairs of records the sample's consecutive stops join: rajivchowk-barakhamba on
      Blue, and patelchowk-rajivchowk, rajivchowk-newdelhi, newdelhi-civil lines on Yellow,
      where rajivchowk is always its Blue record 0. */
  predicate SampleJoined(i: int, j: int) {
    || Touches(Write(0, 1, InLineWeight), i, j)
    || Touches(Write(2, 0, InLineWeight), i, j)
    || Touches(Write(0, 4, InLineWeight), i, j)
    || Touches(Write(4, 5, InLineWeight), i, j)
  }

  /** Every entry an in-line write of the sample touches is one of the joined pairs,
      given where each stop is found. */
  lemma SampleInLinePairs(st: seq<Station>, lines: seq<Line>, i: int, j: int)
    requires |lines| == 2 && |lines[0].stops| == 2 && |lines[1].stops| == 4
    requires FindStation(st, lines[0].stops[0]) == 0 && FindStation(st, lines[0].stops[1]) == 1
    requires FindStation(st, lines[1].stops[0]) == 2 && FindStation(st, lines[1].stops[1]) == 0
    requires FindStation(st, lines[1].stops[2]) == 4 && FindStation(st, lines[1].stops[3]) == 5
    requires Touched(InLineWrites(st, lines), i, j)
    ensures SampleJoined(i, j)
  {
    var l, k := InLineWriteOrigin(st, lines, i, j);
  }

  /** A finite entry of the sample's matrix is one of the joined pairs, with the in-line
      weight. */
  lemma SampleEntry(cfg: Config, i: int, j: int)
    requires cfg == Sample() && 0 <= i < 6 && 0 <= j < 6
    ensures Fits(cfg) && |Build(cfg).adj| == 6
    ensures Build(cfg).adj[i][j] != INF ==> Build(cfg).adj[i][j] == InLineWeight && SampleJoined(i, j)
  {
    SampleTable(cfg);
    var st := StationsOf(cfg.lines);
    BuildAdjacency(cfg, i, j);
    assert LinkWrites(st, cfg.links) == [];
    if Touched(InLineWrites(st, cfg.lines), i, j) {
      SampleStopLookups(cfg);
      SampleInLinePairs(st, cfg.lines, i, j);
    }
  }

  /** Every edge of the sample joins one of the listed pairs and weighs the in-line
      weight. */
  lemma SampleWeights(cfg: Config)
    requires cfg == Sample()
    ensures Fits(cfg) && |Build(cfg).adj| == 6
    ensures forall a, b :: Edge(Build(cfg).adj, a, b) ==>
      Build(cfg).adj[a][b] == InLineWeight && SampleJoined(a, b)
  {
    SampleTable(cfg);
    forall a, b | Edge(Build(cfg).adj, a, b)
      ensures Build(cfg).adj[a][b] == InLineWeight && SampleJoined(a, b)
    {
      SampleEntry(cfg, a, b);
    }
  }

  /** The two Yellow steps around rajivchowk both use its Blue record, with the in-line
      weight. */
  lemma SampleEdges(cfg: Config)
    requires cfg == Sample()
    ensures Fits(cfg) && |Build(cfg).adj| == 6
    ensures Build(cfg).adj[2][0] == InLineWeight && Build(cfg).adj[0][4] == InLineWeight
  {
    SampleStepIn(cfg);
    SampleStepOut(cfg);
  }

  /** patelchowk to rajivchowk: the first Yellow step. */
  lemma SampleStepIn(cfg: Config)
    requires cfg == Sample()
    ensures Fits(cfg) && |Build(cfg).adj| == 6 && Build(cfg).adj[2][0] == InLineWeight
  {
    SampleFits(cfg);
    SampleStopLookups(cfg);
    var st, yellow := StationsOf(cfg.lines), cfg.lines[1].stops;
    assert FindStation(st, yellow[0]) == 2 && FindStation(st, yellow[1]) == 0;
    PlainStep(cfg, 1, 0, 2, 0);
  }

  /** rajivchowk to newdelhi: the second Yellow step. */
  lemma SampleStepOut(cfg: Config)
    requires cfg == Sample()
    ensures Fits(cfg) && |Build(cfg).adj| == 6 && Build(cfg).adj[0][4] == InLineWeight
  {
    SampleFits(cfg);
    SampleStopLookups(cfg);
    var st, yellow := StationsOf(cfg.lines), cfg.lines[1].stops;
    assert FindStation(st, yellow[1]) == 0 && FindStation(st, yellow[2]) == 4;
    PlainStep(cfg, 1, 1, 0, 4);
  }

  /** The Yellow record of rajivchowk repeats a name already listed, so it has no edge. */
  lemma SampleDuplicateIsolated(cfg: Config)
    requires cfg == Sample()
    ensures Fits(cfg) && |Build(cfg).adj| == 6
    ensures forall j :: 0 <= j < 6 ==> Build(cfg).adj[3][j] == INF
  {
    SampleTable(cfg);
    var st := Build(cfg).stations;
    SampleLookups(st);
    assert !IsFirstOccurrence(st, 3);
    forall j | 0 <= j < 6
      ensures Build(cfg).adj[3][j] == INF
    {
      DuplicateHasNoEdges(cfg, 3, j);
    }
  }

  /** Riding Yellow from patelchowk to newdelhi passes the Blue record of rajivchowk (the
      Yellow record is a duplicate without edges). That ride is the only best route, so
      the route report announces two interchanges for a ride that never leaves the line. */
  lemma StraightRideCountsTwoInterchanges(cfg: Config)
    requires cfg == Sample()
    ensures Fits(cfg) && Reachable(Build(cfg).adj, 2, 4)
    ensures forall it :: BestRoute(Build(cfg), 2, 4, it) ==>
      it.path == [2, 0, 4] && it.time == 2 * InLineWeight && it.interchanges == 2
  {
    SampleTable(cfg);
    SampleEdges(cfg);
    SampleWeights(cfg);
    OnlyRide(Build(cfg));
  }

  /** In a network shaped like the sample, newdelhi is reachable from patelchowk and every
      best route between them is the ride through rajivchowk's Blue record. */
  lemma OnlyRide(g: Network)
    requires WellFormed(g) && g.stations == SampleRecords()
    requires g.adj[2][0] == InLineWeight && g.adj[0][4] == InLineWeight
    requires forall a, b :: Edge(g.adj, a, b) ==> g.adj[a][b] == InLineWeight && SampleJoined(a, b)
    ensures Reachable(g.adj, 2, 4)
    ensures forall it :: BestRoute(g, 2, 4, it) ==>
      it.path == [2, 0, 4] && it.time == 2 * InLineWeight && it.interchanges == 2
  {
    RideCost(g.adj);
    var ride := [2, 0, 4];
    assert IsPath(g.adj, ride) && ride[0] == 2 && ride[|ride| - 1] == 4;
    forall it | BestRoute(g, 2, 4, it)
      ensures it.path == [2, 0, 4] && it.time == 2 * InLineWeight && it.interchanges == 2
    {
      RideIsBest(g, it);
    }
  }

  /** In a network shaped like the sample, a best route from patelchowk to newdelhi is the
      ride through rajivchowk's Blue record: two steps, two interchanges. */
  lemma RideIsBest(g: Network, it: Itinerary)
    requires WellFormed(g) && g.stations == SampleRecords()
    requires g.adj[2][0] == InLineWeight && g.adj[0][4] == InLineWeight
    requires forall a, b :: Edge(g.adj, a, b) ==> g.adj[a][b] == InLineWeight && SampleJoined(a, b)
    requires BestRoute(g, 2, 4, it)
    ensures it.path == [2, 0, 4] && it.time == 2 * InLineWeight && it.interchanges == 2
  {
    RideBound(g, it);
    PatelExit(g.adj);
    OnlyWayOut(g.adj, it.path, 2, 0, 4, InLineWeight);
    RideInterchanges(g.stations);
  }

  /** A best route is no dearer than the straight ride. */
  lemma RideBound(g: Network, it: Itinerary)
    requires WellFormed(g) && |g.adj| == 6
    requires g.adj[2][0] == InLineWeight && g.adj[0][4] == InLineWeight
    requires BestRoute(g, 2, 4, it)
    ensures it.time <= 2 * InLineWeight
  {
    RideCost(g.adj);
    var ride := [2, 0, 4];
    assert ride[0] == 2 && ride[|ride| - 1] == 4;
  }

  /** In the sample, the only edge out of patelchowk leads to rajivchowk's Blue record. */
  lemma PatelExit(adj: seq<seq<int>>)
    requires forall a, b :: Edge(adj, a, b) ==> SampleJoined(a, b)
    ensures forall b :: Edge(adj, 2, b) ==> b == 0
  {
    forall b | Edge(adj, 2, b)
      ensures b == 0
    {
      assert SampleJoined(2, b);
    }
  }

  lemma RideCost(adj: seq<seq<int>>)
    requires Square(adj, 6) && adj[2][0] == InLineWeight && adj[0][4] == InLineWeight
    ensures IsPath(adj, [2, 0, 4]) && Cost(adj, [2, 0, 4]) == 2 * InLineWeight
  {
    var p := [2, 0, 4];
    assert Edge(adj, 2, 0) && Edge(adj, 0, 4);
    assert IsPath(adj, p);
    assert p[..2] == [2, 0] && [2, 0][..1] == [2];
    assert IsPath(adj, [2, 0]);
  }

  lemma RideInterchanges(st: seq<Station>)
    requires st == SampleRecords()
    ensures InTable(st, [2, 0, 4]) && Interchanges(st, [2, 0, 4]) == 2
  {
    var p := [2, 0, 4];
    assert p[..2] == [2, 0] && [2, 0][..1] == [2];
  }

  lemma PatelChowkKey()
    ensures Normalize("patelchowk") == "patelchowk"
  {
    KeyIsFixed("patelchowk");
  }

  lemma NewDelhiKey()
    ensures Normalize("newdelhi") == "newdelhi"
  {
    KeyIsFixed("newdelhi");
  }

  /** The two typed names of the query are already keys, found at patelchowk's record and
      newdelhi's. */
  lemma RideKeys(st: seq<Station>)
    requires st == SampleRecords()
    ensures FindStation(st, Normalize("patelchowk")) == 2 && FindStation(st, Normalize("newdelhi")) == 4
  {
    PatelChowkKey();
    NewDelhiKey();
    SampleLookups(st);
  }

  /** The query the menu runs when "patelchowk" and "newdelhi" are typed: the route is
      the straight Yellow ride, announced with two interchanges. */
  method PatelChowkToNewDelhi(cfg: Config) returns (a: Answer)
    requires cfg == Sample()
    ensures a.Route? && a.itinerary.path == [2, 0, 4]
    ensures a.itinerary.time == 2 * InLineWeight && a.itinerary.interchanges == 2
  {
    StraightRideCountsTwoInterchanges(cfg);
    SampleTable(cfg);
    var g := Build(cfg);
    RideKeys(g.stations);
    a := FindRoute(g, "patelchowk", "newdelhi");
  }
}
