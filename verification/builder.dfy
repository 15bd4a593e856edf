/** Construction of the network from a configuration of lines (a name plus ordered
    station names) and interchange pairs. One record is appended per occurrence
    of a station name, in line order; in-line edges join the first records of
    consecutive names; interchange pairs are written with the interchange weight;
    every write is mirrored. */
module Builder {
  import opened Text
  import opened Metro

  /** A line: the label its records carry, and its stops in travel order. */
  datatype Line = Line(name: string, stops: seq<string>)

  /** An interchange pair: two station names joined with the interchange weight. */
  datatype Link = Link(a: string, b: string)

  datatype Config = Config(lines: seq<Line>, links: seq<Link>)

  /** One mirrored matrix write: entry (a, b) and entry (b, a) both become w. */
  datatype Write = Write(a: int, b: int, w: int)

  function TotalStops(lines: seq<Line>): nat
    decreases |lines|
  {
    if |lines| == 0 then 0 else TotalStops(lines[..|lines| - 1]) + |lines[|lines| - 1].stops|
  }

  /** The configuration fits the fixed-size table and the record buffers. */
  predicate Fits(cfg: Config) {
    && TotalStops(cfg.lines) <= MaxStations
    && (forall l :: 0 <= l < |cfg.lines| ==> |cfg.lines[l].name| < LabelCapacity)
    && (forall l, i :: 0 <= l < |cfg.lines| && 0 <= i < |cfg.lines[l].stops| ==>
          |cfg.lines[l].stops[i]| < NameCapacity)
  }

  // ---------------------------------------------------------------------------
  // Station records

  /** The records appended for one line when base records already exist. */
  function Records(base: int, line: Line): seq<Station> {
    seq(|line.stops|, i requires 0 <= i < |line.stops| => Station(line.stops[i], base + i, line.name))
  }

  /** The station table after appending every line in order. */
  function StationsOf(lines: seq<Line>): (st: seq<Station>)
    ensures |st| == TotalStops(lines)
    ensures forall k :: 0 <= k < |st| ==> st[k].index == k
    decreases |lines|
  {
    if |lines| == 0 then []
    else
      var acc := StationsOf(lines[..|lines| - 1]);
      acc + Records(|acc|, lines[|lines| - 1])
  }

  /** Stop i of line l is record number (stops of the earlier lines) + i, carrying that
      name, that position as its index, and the line's name as its label. */
  lemma {:induction false} StationPlacement(lines: seq<Line>, l: int, i: int)
    requires 0 <= l < |lines| && 0 <= i < |lines[l].stops|
    ensures TotalStops(lines[..l]) + i < TotalStops(lines)
    ensures StationsOf(lines)[TotalStops(lines[..l]) + i]
         == Station(lines[l].stops[i], TotalStops(lines[..l]) + i, lines[l].name)
    decreases |lines|
  {
    var m := |lines| - 1;
    var init := lines[..m];
    if l == m {
      assert init == lines[..l];
    } else {
      StationPlacement(init, l, i);
      assert init[..l] == lines[..l];
    }
  }

  /** Every record comes from some stop of some line. */
  lemma {:induction false} RecordOrigin(lines: seq<Line>, k: int) returns (l: int, i: int)
    requires 0 <= k < TotalStops(lines)
    ensures 0 <= l < |lines| && 0 <= i < |lines[l].stops|
    ensures k == TotalStops(lines[..l]) + i
    decreases |lines|
  {
    var m := |lines| - 1;
    var init := lines[..m];
    if k < TotalStops(init) {
      l, i := RecordOrigin(init, k);
      assert init[..l] == lines[..l];
      assert init[l] == lines[l];
    } else {
      l, i := m, k - TotalStops(init);
      assert init == lines[..m];
    }
  }

  /** Every stop name of every line is in the table. */
  lemma StopIsListed(lines: seq<Line>, l: int, i: int)
    requires 0 <= l < |lines| && 0 <= i < |lines[l].stops|
    ensures FindStation(StationsOf(lines), lines[l].stops[i]) != -1
  {
    StationPlacement(lines, l, i);
  }

  // ---------------------------------------------------------------------------
  // Matrix writes

  predicate Touches(wr: Write, i: int, j: int) {
    (wr.a == i && wr.b == j) || (wr.a == j && wr.b == i)
  }

  /** Some write of ws touches the pair (i, j). */
  predicate Touched(ws: seq<Write>, i: int, j: int) {
    exists k :: 0 <= k < |ws| && Touches(ws[k], i, j)
  }

  /** A write made by the builder: both ends are first occurrences of their names. */
  predicate Resolved(stations: seq<Station>, wr: Write) {
    IsFirstOccurrence(stations, wr.a) && IsFirstOccurrence(stations, wr.b)
  }

  /** Every write of ws is resolved and carries weight w. */
  predicate AllResolved(stations: seq<Station>, ws: seq<Write>, w: int) {
    forall k :: 0 <= k < |ws| ==> Resolved(stations, ws[k]) && ws[k].w == w
  }

  /** Look both names up and write w between the results when both are found. */
  function Connect(stations: seq<Station>, x: string, y: string, w: int): (r: seq<Write>)
    ensures |r| <= 1 && AllResolved(stations, r, w)
    ensures |r| == 1 <==> FindStation(stations, x) != -1 && FindStation(stations, y) != -1
    ensures |r| == 1 ==> r[0].a == FindStation(stations, x) && r[0].b == FindStation(stations, y)
  {
    var a := FindStation(stations, x);
    var b := FindStation(stations, y);
    if a != -1 && b != -1 then [Write(a, b, w)] else []
  }

  /** The in-line writes of one line: consecutive names, weight InLineWeight. */
  function LineWrites(stations: seq<Station>, stops: seq<string>): (r: seq<Write>)
    ensures AllResolved(stations, r, InLineWeight)
    decreases |stops|
  {
    if |stops| < 2 then []
    else
      LineWrites(stations, stops[..|stops| - 1])
        + Connect(stations, stops[|stops| - 2], stops[|stops| - 1], InLineWeight)
  }

  function InLineWrites(stations: seq<Station>, lines: seq<Line>): (r: seq<Write>)
    ensures AllResolved(stations, r, InLineWeight)
    decreases |lines|
  {
    if |lines| == 0 then []
    else InLineWrites(stations, lines[..|lines| - 1]) + LineWrites(stations, lines[|lines| - 1].stops)
  }

  /** The interchange writes, in the order the pairs are listed. */
  function LinkWrites(stations: seq<Station>, links: seq<Link>): (r: seq<Write>)
    ensures AllResolved(stations, r, InterchangeWeight)
    decreases |links|
  {
    if |links| == 0 then []
    else
      var last := links[|links| - 1];
      LinkWrites(stations, links[..|links| - 1]) + Connect(stations, last.a, last.b, InterchangeWeight)
  }

  /** Every write of the builder, in program order: all in-line writes, then all interchanges. */
  function Writes(stations: seq<Station>, cfg: Config): seq<Write> {
    InLineWrites(stations, cfg.lines) + LinkWrites(stations, cfg.links)
  }

  /** The weight left at (i, j) by a sequence of writes: that of the last write touching
      the pair, or INF when none does. */
  function LastWeight(ws: seq<Write>, i: int, j: int): int
    decreases |ws|
  {
    if |ws| == 0 then INF
    else if Touches(ws[|ws| - 1], i, j) then ws[|ws| - 1].w
    else LastWeight(ws[..|ws| - 1], i, j)
  }

  lemma {:induction false} LastWeightSymmetric(ws: seq<Write>, i: int, j: int)
    ensures LastWeight(ws, i, j) == LastWeight(ws, j, i)
    decreases |ws|
  {
    if |ws| > 0 {
      LastWeightSymmetric(ws[..|ws| - 1], i, j);
    }
  }

  /** When the last write misses the pair, the pair is touched exactly when it is touched
      before it. */
  lemma TouchedInit(ws: seq<Write>, i: int, j: int)
    requires |ws| > 0 && !Touches(ws[|ws| - 1], i, j)
    ensures Touched(ws, i, j) <==> Touched(ws[..|ws| - 1], i, j)
  {
    var init := ws[..|ws| - 1];
    if Touched(ws, i, j) {
      var k :| 0 <= k < |ws| && Touches(ws[k], i, j);
      assert init[k] == ws[k];
    }
    if Touched(init, i, j) {
      var k :| 0 <= k < |init| && Touches(init[k], i, j);
      assert ws[k] == init[k];
    }
  }

  lemma TouchedConcat(ws1: seq<Write>, ws2: seq<Write>, i: int, j: int)
    ensures Touched(ws1 + ws2, i, j) <==> Touched(ws1, i, j) || Touched(ws2, i, j)
  {
    if Touched(ws1, i, j) {
      var k :| 0 <= k < |ws1| && Touches(ws1[k], i, j);
      assert (ws1 + ws2)[k] == ws1[k];
    }
    if Touched(ws2, i, j) {
      var k :| 0 <= k < |ws2| && Touches(ws2[k], i, j);
      assert (ws1 + ws2)[|ws1| + k] == ws2[k];
    }
    if Touched(ws1 + ws2, i, j) {
      var k :| 0 <= k < |ws1 + ws2| && Touches((ws1 + ws2)[k], i, j);
      if k < |ws1| {
        assert (ws1 + ws2)[k] == ws1[k];
      } else {
        assert (ws1 + ws2)[k] == ws2[k - |ws1|];
      }
    }
  }

  /** When every write carries weight w, a touched entry is w and an untouched one INF. */
  lemma {:induction false} UniformWeight(ws: seq<Write>, w: int, i: int, j: int)
    requires forall k :: 0 <= k < |ws| ==> ws[k].w == w
    ensures LastWeight(ws, i, j) == if Touched(ws, i, j) then w else INF
    decreases |ws|
  {
    if |ws| > 0 {
      var init := ws[..|ws| - 1];
      UniformWeight(init, w, i, j);
      if Touches(ws[|ws| - 1], i, j) {
        assert Touched(ws, i, j);
      } else {
        TouchedInit(ws, i, j);
      }
    }
  }

  /** Later writes win: after ws1 + ws2 an entry is ws2's if ws2 touches it, ws1's otherwise. */
  lemma {:induction false} LastWeightConcat(ws1: seq<Write>, ws2: seq<Write>, i: int, j: int)
    ensures LastWeight(ws1 + ws2, i, j) == if Touched(ws2, i, j) then LastWeight(ws2, i, j) else LastWeight(ws1, i, j)
    decreases |ws2|
  {
    if |ws2| == 0 {
      assert ws1 + ws2 == ws1;
    } else {
      var init := ws2[..|ws2| - 1];
      assert (ws1 + ws2)[..|ws1 + ws2| - 1] == ws1 + init;
      LastWeightConcat(ws1, init, i, j);
      if Touches(ws2[|ws2| - 1], i, j) {
        assert Touched(ws2, i, j);
      } else {
        TouchedInit(ws2, i, j);
      }
    }
  }

  /** The entry after in-line writes (all InLineWeight) followed by interchange writes (all
      InterchangeWeight). */
  lemma TwoPhaseEntry(ws1: seq<Write>, ws2: seq<Write>, i: int, j: int)
    requires forall k :: 0 <= k < |ws1| ==> ws1[k].w == InLineWeight
    requires forall k :: 0 <= k < |ws2| ==> ws2[k].w == InterchangeWeight
    ensures LastWeight(ws1 + ws2, i, j) ==
      if Touched(ws2, i, j) then InterchangeWeight else if Touched(ws1, i, j) then InLineWeight else INF
  {
    LastWeightConcat(ws1, ws2, i, j);
    UniformWeight(ws1, InLineWeight, i, j);
    UniformWeight(ws2, InterchangeWeight, i, j);
  }

  // ---------------------------------------------------------------------------
  // The matrix

  function Blank(n: nat): (m: seq<seq<int>>)
    ensures Square(m, n)
    ensures forall i, j :: 0 <= i < n && 0 <= j < n ==> m[i][j] == INF
  {
    seq(n, _ => seq(n, _ => INF))
  }

  predicate InRange(ws: seq<Write>, n: int) {
    forall k :: 0 <= k < |ws| ==> 0 <= ws[k].a < n && 0 <= ws[k].b < n
  }

  /** One mirrored write: the two entries of the pair change, nothing else does. */
  function Put(adj: seq<seq<int>>, wr: Write): (m: seq<seq<int>>)
    requires Square(adj, |adj|) && 0 <= wr.a < |adj| && 0 <= wr.b < |adj|
    ensures Square(m, |adj|)
    ensures forall i, j :: 0 <= i < |adj| && 0 <= j < |adj| ==>
              m[i][j] == if Touches(wr, i, j) then wr.w else adj[i][j]
  {
    var m1 := adj[wr.a := adj[wr.a][wr.b := wr.w]];
    m1[wr.b := m1[wr.b][wr.a := wr.w]]
  }

  /** The writes in order: an entry some write touches ends at the weight of the last such
      write, and every other entry keeps its value. */
  function Apply(adj: seq<seq<int>>, ws: seq<Write>): (m: seq<seq<int>>)
    requires Square(adj, |adj|) && InRange(ws, |adj|)
    ensures Square(m, |adj|)
    ensures forall i, j :: 0 <= i < |adj| && 0 <= j < |adj| ==>
              m[i][j] == if Touched(ws, i, j) then LastWeight(ws, i, j) else adj[i][j]
    decreases |ws|
  {
    if |ws| == 0 then adj
    else
      TouchedLast(ws);
      Put(Apply(adj, ws[..|ws| - 1]), ws[|ws| - 1])
  }

  /** An entry is touched by some write exactly when the last write or an earlier one touches it. */
  lemma TouchedLast(ws: seq<Write>)
    requires |ws| > 0
    ensures forall i, j :: Touched(ws, i, j) <==> Touches(ws[|ws| - 1], i, j) || Touched(ws[..|ws| - 1], i, j)
  {
    forall i, j
      ensures Touched(ws, i, j) <==> Touches(ws[|ws| - 1], i, j) || Touched(ws[..|ws| - 1], i, j)
    {
      if !Touches(ws[|ws| - 1], i, j) {
        TouchedInit(ws, i, j);
      } else {
        assert Touched(ws, i, j);
      }
    }
  }

  /** Applying writes to the all-INF matrix leaves, at every entry, the weight of the last
      write touching it. */
  lemma {:induction false} ApplyIsLastWeight(n: nat, ws: seq<Write>)
    requires InRange(ws, n)
    ensures forall i, j :: 0 <= i < n && 0 <= j < n ==> Apply(Blank(n), ws)[i][j] == LastWeight(ws, i, j)
    decreases |ws|
  {
    if |ws| > 0 {
      ApplyIsLastWeight(n, ws[..|ws| - 1]);
    }
  }

  predicate Symmetric(adj: seq<seq<int>>)
    requires Square(adj, |adj|)
  {
    forall i, j :: 0 <= i < |adj| && 0 <= j < |adj| ==> adj[i][j] == adj[j][i]
  }

  /** Every entry is "no edge", the in-line weight or the interchange weight. */
  predicate BuilderWeights(adj: seq<seq<int>>)
    requires Square(adj, |adj|)
  {
    forall i, j :: 0 <= i < |adj| && 0 <= j < |adj| ==>
      adj[i][j] == INF || adj[i][j] == InLineWeight || adj[i][j] == InterchangeWeight
  }

  lemma WritesInRange(st: seq<Station>, cfg: Config)
    ensures InRange(Writes(st, cfg), |st|)
  {
    var ws1, ws2 := InLineWrites(st, cfg.lines), LinkWrites(st, cfg.links);
    forall k | 0 <= k < |ws1 + ws2|
      ensures Resolved(st, (ws1 + ws2)[k])
    {
      if k < |ws1| {
        assert (ws1 + ws2)[k] == ws1[k];
      } else {
        assert (ws1 + ws2)[k] == ws2[k - |ws1|];
      }
    }
  }

  /** Every entry of the builder's matrix is the last write's weight: symmetric, and one of
      INF, InLineWeight, InterchangeWeight. */
  lemma MatrixEntries(st: seq<Station>, cfg: Config)
    ensures InRange(Writes(st, cfg), |st|)
    ensures forall i, j :: 0 <= i < |st| && 0 <= j < |st| ==>
              && Apply(Blank(|st|), Writes(st, cfg))[i][j] == LastWeight(Writes(st, cfg), i, j)
              && LastWeight(Writes(st, cfg), i, j) == LastWeight(Writes(st, cfg), j, i)
              && LastWeight(Writes(st, cfg), i, j) ==
                   if Touched(LinkWrites(st, cfg.links), i, j) then InterchangeWeight
                   else if Touched(InLineWrites(st, cfg.lines), i, j) then InLineWeight
                   else INF
  {
    var ws1, ws2 := InLineWrites(st, cfg.lines), LinkWrites(st, cfg.links);
    WritesInRange(st, cfg);
    ApplyIsLastWeight(|st|, ws1 + ws2);
    forall i, j | 0 <= i < |st| && 0 <= j < |st|
      ensures LastWeight(ws1 + ws2, i, j) == LastWeight(ws1 + ws2, j, i)
      ensures LastWeight(ws1 + ws2, i, j) ==
        if Touched(ws2, i, j) then InterchangeWeight else if Touched(ws1, i, j) then InLineWeight else INF
    {
      LastWeightSymmetric(ws1 + ws2, i, j);
      TwoPhaseEntry(ws1, ws2, i, j);
    }
  }

  /** The matrix the builder leaves over a station table. */
  function Matrix(st: seq<Station>, cfg: Config): (adj: seq<seq<int>>)
    ensures Square(adj, |st|) && Symmetric(adj) && BuilderWeights(adj)
  {
    MatrixEntries(st, cfg);
    Apply(Blank(|st|), Writes(st, cfg))
  }

  // ---------------------------------------------------------------------------
  // The builder

  /** The network of a configuration: one record per stop occurrence, within capacity, a
      symmetric matrix whose entries are INF, InLineWeight or InterchangeWeight. */
  function Build(cfg: Config): (g: Network)
    requires Fits(cfg)
    ensures g.stations == StationsOf(cfg.lines)
    ensures WellFormed(g) && Symmetric(g.adj) && BuilderWeights(g.adj)
  {
    var st := StationsOf(cfg.lines);
    Network(st, Matrix(st, cfg))
  }

  /** Every matrix entry of the built network: the interchange weight if an interchange pair
      resolves to it, else the in-line weight if two consecutive stops do, else INF. */
  lemma BuildAdjacency(cfg: Config, i: int, j: int)
    requires Fits(cfg)
    requires 0 <= i < |Build(cfg).stations| && 0 <= j < |Build(cfg).stations|
    ensures var st := StationsOf(cfg.lines);
      Build(cfg).adj[i][j] ==
        if Touched(LinkWrites(st, cfg.links), i, j) then InterchangeWeight
        else if Touched(InLineWrites(st, cfg.lines), i, j) then InLineWeight
        else INF
  {
    MatrixEntries(StationsOf(cfg.lines), cfg);
  }

  /** The in-line write of stops i and i+1 is among the writes of their line. */
  lemma {:induction false} LineWriteListed(stations: seq<Station>, stops: seq<string>, i: int)
    requires 0 <= i < |stops| - 1
    requires FindStation(stations, stops[i]) != -1 && FindStation(stations, stops[i + 1]) != -1
    ensures Touched(LineWrites(stations, stops), FindStation(stations, stops[i]), FindStation(stations, stops[i + 1]))
    decreases |stops|
  {
    var a, b := FindStation(stations, stops[i]), FindStation(stations, stops[i + 1]);
    var init := stops[..|stops| - 1];
    var c := Connect(stations, stops[|stops| - 2], stops[|stops| - 1], InLineWeight);
    TouchedConcat(LineWrites(stations, init), c, a, b);
    if i < |stops| - 2 {
      assert init[i] == stops[i] && init[i + 1] == stops[i + 1];
      LineWriteListed(stations, init, i);
    } else {
      assert Touches(c[0], a, b);
    }
  }

  lemma {:induction false} InLineWriteListed(stations: seq<Station>, lines: seq<Line>, l: int, i: int)
    requires 0 <= l < |lines| && 0 <= i < |lines[l].stops| - 1
    requires FindStation(stations, lines[l].stops[i]) != -1
    requires FindStation(stations, lines[l].stops[i + 1]) != -1
    ensures Touched(InLineWrites(stations, lines),
                    FindStation(stations, lines[l].stops[i]), FindStation(stations, lines[l].stops[i + 1]))
    decreases |lines|
  {
    var a, b := FindStation(stations, lines[l].stops[i]), FindStation(stations, lines[l].stops[i + 1]);
    var init := lines[..|lines| - 1];
    TouchedConcat(InLineWrites(stations, init), LineWrites(stations, lines[|lines| - 1].stops), a, b);
    if l == |lines| - 1 {
      LineWriteListed(stations, lines[l].stops, i);
    } else {
      assert init[l] == lines[l];
      InLineWriteListed(stations, init, l, i);
    }
  }

  /** The write of stops k and k + 1, between the first records of their names, touches
      the pair (i, j). */
  predicate StepTouches(stations: seq<Station>, stops: seq<string>, k: int, i: int, j: int) {
    && 0 <= k < |stops| - 1
    && Touches(Write(FindStation(stations, stops[k]), FindStation(stations, stops[k + 1]), InLineWeight), i, j)
  }

  lemma ConnectTouch(stations: seq<Station>, x: string, y: string, w: int, i: int, j: int)
    requires Touched(Connect(stations, x, y, w), i, j)
    ensures Touches(Write(FindStation(stations, x), FindStation(stations, y), w), i, j)
  {
    var c := Connect(stations, x, y, w);
    var n :| 0 <= n < |c| && Touches(c[n], i, j);
    assert c[n] == Write(FindStation(stations, x), FindStation(stations, y), w);
  }

  /** Conversely, every entry the in-line writes of a line touch is the pair of first
      records of two consecutive stops. */
  lemma {:induction false} LineWriteOrigin(stations: seq<Station>, stops: seq<string>, i: int, j: int)
      returns (k: int)
    requires Touched(LineWrites(stations, stops), i, j)
    ensures StepTouches(stations, stops, k, i, j)
    decreases |stops|
  {
    assert |stops| >= 2;
    var init := stops[..|stops| - 1];
    var c := Connect(stations, stops[|stops| - 2], stops[|stops| - 1], InLineWeight);
    TouchedConcat(LineWrites(stations, init), c, i, j);
    if Touched(c, i, j) {
      k := |stops| - 2;
      ConnectTouch(stations, stops[k], stops[k + 1], InLineWeight, i, j);
    } else {
      k := LineWriteOrigin(stations, init, i, j);
      assert init[k] == stops[k] && init[k + 1] == stops[k + 1];
    }
  }

  /** Every entry the in-line writes touch is the pair of first records of two consecutive
      stops of some line. */
  lemma {:induction false} InLineWriteOrigin(stations: seq<Station>, lines: seq<Line>, i: int, j: int)
      returns (l: int, k: int)
    requires Touched(InLineWrites(stations, lines), i, j)
    ensures 0 <= l < |lines| && StepTouches(stations, lines[l].stops, k, i, j)
    decreases |lines|
  {
    assert |lines| >= 1;
    var init := lines[..|lines| - 1];
    var last := LineWrites(stations, lines[|lines| - 1].stops);
    TouchedConcat(InLineWrites(stations, init), last, i, j);
    if Touched(last, i, j) {
      l := |lines| - 1;
      k := LineWriteOrigin(stations, lines[l].stops, i, j);
    } else {
      l, k := InLineWriteOrigin(stations, init, i, j);
      assert init[l] == lines[l];
    }
  }

  /** Every entry the interchange writes touch is the pair of first records of the two
      names of some listed pair. */
  lemma {:induction false} LinkWriteOrigin(stations: seq<Station>, links: seq<Link>, i: int, j: int)
      returns (k: int)
    requires Touched(LinkWrites(stations, links), i, j)
    ensures 0 <= k < |links|
    ensures Touches(Write(FindStation(stations, links[k].a), FindStation(stations, links[k].b), InterchangeWeight), i, j)
    decreases |links|
  {
    assert |links| >= 1;
    var init := links[..|links| - 1];
    var c := Connect(stations, links[|links| - 1].a, links[|links| - 1].b, InterchangeWeight);
    TouchedConcat(LinkWrites(stations, init), c, i, j);
    if Touched(c, i, j) {
      k := |links| - 1;
      ConnectTouch(stations, links[k].a, links[k].b, InterchangeWeight, i, j);
    } else {
      k := LinkWriteOrigin(stations, init, i, j);
      assert init[k] == links[k];
    }
  }

  /** Consecutive names on a line are joined between their first records, in both
      directions: with the interchange weight when an interchange pair resolves to the same
      two records, with the in-line weight otherwise. */
  lemma InLineEdge(cfg: Config, l: int, i: int)
    requires Fits(cfg)
    requires 0 <= l < |cfg.lines| && 0 <= i < |cfg.lines[l].stops| - 1
    ensures var st := StationsOf(cfg.lines);
      var a, b := FindStation(st, cfg.lines[l].stops[i]), FindStation(st, cfg.lines[l].stops[i + 1]);
      && a != -1 && b != -1
      && Build(cfg).adj[a][b] == Build(cfg).adj[b][a]
      && Build(cfg).adj[a][b] == if Touched(LinkWrites(st, cfg.links), a, b) then InterchangeWeight else InLineWeight
  {
    var st := StationsOf(cfg.lines);
    StopIsListed(cfg.lines, l, i);
    StopIsListed(cfg.lines, l, i + 1);
    var a, b := FindStation(st, cfg.lines[l].stops[i]), FindStation(st, cfg.lines[l].stops[i + 1]);
    InLineWriteListed(st, cfg.lines, l, i);
    BuildAdjacency(cfg, a, b);
  }

  /** Without interchanges, consecutive stops of a line are joined both ways with the
      in-line weight. */
  lemma PlainLineEdge(cfg: Config, l: int, i: int)
    requires Fits(cfg) && cfg.links == []
    requires 0 <= l < |cfg.lines| && 0 <= i < |cfg.lines[l].stops| - 1
    ensures var st := StationsOf(cfg.lines);
      var a, b := FindStation(st, cfg.lines[l].stops[i]), FindStation(st, cfg.lines[l].stops[i + 1]);
      && a != -1 && b != -1
      && Build(cfg).adj[a][b] == InLineWeight && Build(cfg).adj[b][a] == InLineWeight
  {
    var st := StationsOf(cfg.lines);
    assert LinkWrites(st, cfg.links) == [];
    InLineEdge(cfg, l, i);
  }

  /** The same step, for a caller that already knows which records its two stops name. */
  lemma PlainStep(cfg: Config, l: int, i: int, a: int, b: int)
    requires Fits(cfg) && cfg.links == []
    requires 0 <= l < |cfg.lines| && 0 <= i < |cfg.lines[l].stops| - 1
    requires FindStation(StationsOf(cfg.lines), cfg.lines[l].stops[i]) == a
    requires FindStation(StationsOf(cfg.lines), cfg.lines[l].stops[i + 1]) == b
    ensures 0 <= a < |Build(cfg).adj| && 0 <= b < |Build(cfg).adj|
    ensures Build(cfg).adj[a][b] == InLineWeight && Build(cfg).adj[b][a] == InLineWeight
  {
    PlainLineEdge(cfg, l, i);
  }

  /** A record that is not the first with its name is never written: it has no edges. */
  lemma DuplicateHasNoEdges(cfg: Config, k: int, j: int)
    requires Fits(cfg)
    requires 0 <= k < |Build(cfg).stations| && 0 <= j < |Build(cfg).stations|
    requires !IsFirstOccurrence(Build(cfg).stations, k)
    ensures Build(cfg).adj[k][j] == INF && Build(cfg).adj[j][k] == INF
  {
    var st := StationsOf(cfg.lines);
    var ws1, ws2 := InLineWrites(st, cfg.lines), LinkWrites(st, cfg.links);
    assert !Touched(ws1, k, j) by {
      forall x | 0 <= x < |ws1|
        ensures !Touches(ws1[x], k, j)
      {
        assert Resolved(st, ws1[x]);
      }
    }
    assert !Touched(ws2, k, j) by {
      forall x | 0 <= x < |ws2|
        ensures !Touches(ws2[x], k, j)
      {
        assert Resolved(st, ws2[x]);
      }
    }
    BuildAdjacency(cfg, k, j);
  }

  // ---------------------------------------------------------------------------
  // Interchange pairs naming the same station twice

  /** The pairs whose two names differ, in order. */
  function DistinctLinks(links: seq<Link>): (r: seq<Link>)
    ensures forall k :: 0 <= k < |r| ==> r[k].a != r[k].b
    decreases |links|
  {
    if |links| == 0 then []
    else
      var last := links[|links| - 1];
      DistinctLinks(links[..|links| - 1]) + (if last.a != last.b then [last] else [])
  }

  /** Off the diagonal, the interchange writes of all pairs and those of the distinct-name
      pairs alone touch the same entries. */
  lemma {:induction false} SameNameLinksOffDiagonal(st: seq<Station>, links: seq<Link>, i: int, j: int)
    requires i != j
    ensures Touched(LinkWrites(st, links), i, j) <==> Touched(LinkWrites(st, DistinctLinks(links)), i, j)
    decreases |links|
  {
    if |links| > 0 {
      var init, last := links[..|links| - 1], links[|links| - 1];
      SameNameLinksOffDiagonal(st, init, i, j);
      var c := Connect(st, last.a, last.b, InterchangeWeight);
      TouchedConcat(LinkWrites(st, init), c, i, j);
      if last.a != last.b {
        DistinctKeepsLast(st, links);
        TouchedConcat(LinkWrites(st, DistinctLinks(init)), c, i, j);
      } else {
        assert DistinctLinks(links) == DistinctLinks(init);
        SameNameConnect(st, last.a, i, j);
      }
    }
  }

  /** A pair whose names differ keeps its interchange write among the distinct-name pairs. */
  lemma DistinctKeepsLast(st: seq<Station>, links: seq<Link>)
    requires |links| > 0 && links[|links| - 1].a != links[|links| - 1].b
    ensures var last := links[|links| - 1];
      LinkWrites(st, DistinctLinks(links))
      == LinkWrites(st, DistinctLinks(links[..|links| - 1])) + Connect(st, last.a, last.b, InterchangeWeight)
  {
    var init, last := links[..|links| - 1], links[|links| - 1];
    var d := DistinctLinks(links);
    assert d == DistinctLinks(init) + [last];
    assert d[..|d| - 1] == DistinctLinks(init);
  }

  /** A pair that names one station twice writes only on the diagonal. */
  lemma SameNameConnect(st: seq<Station>, x: string, i: int, j: int)
    requires i != j
    ensures !Touched(Connect(st, x, x, InterchangeWeight), i, j)
  {
  }

  lemma {:induction false} LinkWriteListed(stations: seq<Station>, links: seq<Link>, k: int)
    requires 0 <= k < |links|
    requires FindStation(stations, links[k].a) != -1 && FindStation(stations, links[k].b) != -1
    ensures Touched(LinkWrites(stations, links), FindStation(stations, links[k].a), FindStation(stations, links[k].b))
    decreases |links|
  {
    var a, b := FindStation(stations, links[k].a), FindStation(stations, links[k].b);
    var init, last := links[..|links| - 1], links[|links| - 1];
    var c := Connect(stations, last.a, last.b, InterchangeWeight);
    TouchedConcat(LinkWrites(stations, init), c, a, b);
    if k < |links| - 1 {
      assert init[k] == links[k];
      LinkWriteListed(stations, init, k);
    } else {
      assert Touches(c[0], a, b);
    }
  }

  /** An interchange pair naming one station twice resolves to a single record: its write
      lands on that record's diagonal entry, which ends at the interchange weight, and off
      the diagonal the network is the one built without such pairs. */
  lemma SameNameLinkIsLoop(cfg: Config, k: int, i: int, j: int)
    requires Fits(cfg)
    requires 0 <= k < |cfg.links| && cfg.links[k].a == cfg.links[k].b
    requires FindStation(StationsOf(cfg.lines), cfg.links[k].a) != -1
    requires 0 <= i < |Build(cfg).stations| && 0 <= j < |Build(cfg).stations| && i != j
    ensures var f := FindStation(StationsOf(cfg.lines), cfg.links[k].a);
      Build(cfg).adj[f][f] == InterchangeWeight
    ensures Build(cfg).adj[i][j] == Build(Config(cfg.lines, DistinctLinks(cfg.links))).adj[i][j]
  {
    var st := StationsOf(cfg.lines);
    var f := FindStation(st, cfg.links[k].a);
    var cfg2 := Config(cfg.lines, DistinctLinks(cfg.links));
    assert Fits(cfg2);
    LinkWriteListed(st, cfg.links, k);
    BuildAdjacency(cfg, f, f);
    BuildAdjacency(cfg, i, j);
    BuildAdjacency(cfg2, i, j);
    SameNameLinksOffDiagonal(st, cfg.links, i, j);
  }

  // ---------------------------------------------------------------------------
  // Table names as lookup keys

  function KeyedLine(line: Line): (r: Line)
    ensures r.name == line.name && |r.stops| == |line.stops|
    ensures forall i :: 0 <= i < |r.stops| ==> r.stops[i] == Normalize(line.stops[i])
  {
    Line(line.name, seq(|line.stops|, i requires 0 <= i < |line.stops| => Normalize(line.stops[i])))
  }

  /** The configuration with every station name, on lines and in pairs, normalised. */
  function KeyedConfig(cfg: Config): (r: Config)
    ensures |r.lines| == |cfg.lines| && |r.links| == |cfg.links|
    ensures forall l :: 0 <= l < |r.lines| ==> r.lines[l] == KeyedLine(cfg.lines[l])
    ensures forall k :: 0 <= k < |r.links| ==>
              r.links[k] == Link(Normalize(cfg.links[k].a), Normalize(cfg.links[k].b))
  {
    Config(
      seq(|cfg.lines|, l requires 0 <= l < |cfg.lines| => KeyedLine(cfg.lines[l])),
      seq(|cfg.links|, k requires 0 <= k < |cfg.links| => Link(Normalize(cfg.links[k].a), Normalize(cfg.links[k].b))))
  }

  lemma {:induction false} KeyedTotalStops(lines: seq<Line>, keyed: seq<Line>)
    requires |keyed| == |lines|
    requires forall l :: 0 <= l < |lines| ==> keyed[l] == KeyedLine(lines[l])
    ensures TotalStops(keyed) == TotalStops(lines)
    decreases |lines|
  {
    if |lines| > 0 {
      KeyedTotalStops(lines[..|lines| - 1], keyed[..|keyed| - 1]);
    }
  }

  lemma KeyedFits(cfg: Config)
    requires Fits(cfg)
    ensures Fits(KeyedConfig(cfg))
  {
    var r := KeyedConfig(cfg);
    KeyedTotalStops(cfg.lines, r.lines);
    forall l, i | 0 <= l < |r.lines| && 0 <= i < |r.lines[l].stops|
      ensures |r.lines[l].stops[i]| < NameCapacity
    {
      assert r.lines[l].stops[i] == Normalize(cfg.lines[l].stops[i]);
    }
  }

  lemma KeyedNamesAreKeys(cfg: Config)
    ensures forall k :: 0 <= k < |StationsOf(KeyedConfig(cfg).lines)| ==> IsKey(StationsOf(KeyedConfig(cfg).lines)[k].name)
  {
    var r := KeyedConfig(cfg);
    var st := StationsOf(r.lines);
    forall k | 0 <= k < |st|
      ensures IsKey(st[k].name)
    {
      var l, i := RecordOrigin(r.lines, k);
      StationPlacement(r.lines, l, i);
    }
  }

  /** The builder over normalised station names: the shape guarantees of Build, and every
      record's name is a lookup key. */
  function BuildKeyed(cfg: Config): (g: Network)
    requires Fits(cfg)
    ensures WellFormed(g) && Symmetric(g.adj) && BuilderWeights(g.adj)
    ensures forall k :: 0 <= k < |g.stations| ==> IsKey(g.stations[k].name)
  {
    KeyedFits(cfg);
    KeyedNamesAreKeys(cfg);
    Build(KeyedConfig(cfg))
  }

  /** With normalised table names, any spelling of a listed stop that normalises to the
      stop's key finds a record carrying exactly that key. */
  lemma KeyedStopFound(cfg: Config, l: int, i: int, input: string)
    requires Fits(cfg)
    requires 0 <= l < |cfg.lines| && 0 <= i < |cfg.lines[l].stops|
    requires Normalize(input) == Normalize(cfg.lines[l].stops[i])
    ensures var k := FindStation(BuildKeyed(cfg).stations, Normalize(input));
      k != -1 && BuildKeyed(cfg).stations[k].name == Normalize(cfg.lines[l].stops[i])
  {
    KeyedFits(cfg);
    var r := KeyedConfig(cfg);
    assert r.lines[l].stops[i] == Normalize(cfg.lines[l].stops[i]);
    StopIsListed(r.lines, l, i);
  }

  /** Some stop of some line normalises to key. */
  predicate Listed(cfg: Config, key: string) {
    exists l, i :: 0 <= l < |cfg.lines| && 0 <= i < |cfg.lines[l].stops| && Normalize(cfg.lines[l].stops[i]) == key
  }

  /** Over normalised table names, lookup of a key succeeds exactly when some stop of the
      configuration normalises to that key. */
  lemma KeyedLookup(cfg: Config, key: string)
    requires Fits(cfg)
    ensures FindStation(BuildKeyed(cfg).stations, key) != -1 <==> Listed(cfg, key)
  {
    var r := KeyedConfig(cfg);
    var st := BuildKeyed(cfg).stations;
    if Listed(cfg, key) {
      var l, i :| 0 <= l < |cfg.lines| && 0 <= i < |cfg.lines[l].stops| && Normalize(cfg.lines[l].stops[i]) == key;
      KeyedStopFound(cfg, l, i, cfg.lines[l].stops[i]);
    }
    if FindStation(st, key) != -1 {
      var k := FindStation(st, key);
      var l, i := RecordOrigin(r.lines, k);
      StationPlacement(r.lines, l, i);
      assert r.lines[l].stops[i] == Normalize(cfg.lines[l].stops[i]);
    }
  }
}
