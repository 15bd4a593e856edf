/** Routes through the adjacency matrix: what a path is, what it costs in
    minutes and in line changes, and the (time, changes) order the search
    minimises. */
module Paths {
  import opened Metro

  /** A usable matrix entry from a to b. */
  predicate Edge(adj: seq<seq<int>>, a: int, b: int) {
    0 <= a < |adj| && 0 <= b < |adj| && b < |adj[a]| && adj[a][b] != INF
  }

  /** A non-empty sequence of stations, each step along an edge. */
  predicate IsPath(adj: seq<seq<int>>, p: seq<int>) {
    && |p| >= 1
    && (forall i :: 0 <= i < |p| ==> 0 <= p[i] < |adj|)
    && (forall i :: 0 <= i < |p| - 1 ==> Edge(adj, p[i], p[i + 1]))
  }

  ghost predicate Reachable(adj: seq<seq<int>>, from: int, to: int) {
    exists p :: IsPath(adj, p) && p[0] == from && p[|p| - 1] == to
  }

  lemma PrefixIsPath(adj: seq<seq<int>>, p: seq<int>, k: int)
    requires IsPath(adj, p) && 1 <= k <= |p|
    ensures IsPath(adj, p[..k])
  {
    var q := p[..k];
    forall i | 0 <= i < k - 1
      ensures Edge(adj, q[i], q[i + 1])
    {
      assert q[i] == p[i] && q[i + 1] == p[i + 1];
    }
  }

  /** Total travel time: the sum of the weights of the steps. */
  function Cost(adj: seq<seq<int>>, p: seq<int>): int
    requires IsPath(adj, p)
    decreases |p|
  {
    if |p| == 1 then 0
    else
      PrefixIsPath(adj, p, |p| - 1);
      Cost(adj, p[..|p| - 1]) + adj[p[|p| - 2]][p[|p| - 1]]
  }

  predicate InTable(stations: seq<Station>, p: seq<int>) {
    forall i :: 0 <= i < |p| ==> 0 <= p[i] < |stations|
  }

  /** 1 when the records at a and b exist and carry different line labels. */
  function Diff(stations: seq<Station>, a: int, b: int): int {
    if 0 <= a < |stations| && 0 <= b < |stations| && stations[a].line != stations[b].line then 1 else 0
  }

  /** Number of steps of p whose two records carry different line labels. */
  function LineChanges(stations: seq<Station>, p: seq<int>): int
    decreases |p|
  {
    if |p| <= 1 then 0
    else LineChanges(stations, p[..|p| - 1]) + Diff(stations, p[|p| - 2], p[|p| - 1])
  }

  /** (d1, t1) comes no later than (d2, t2): less time, or equal time and no more changes. */
  predicate LexLe(d1: int, t1: int, d2: int, t2: int) {
    d1 < d2 || (d1 == d2 && t1 <= t2)
  }

  /** A path extended along an edge from its last station is a path. */
  lemma ExtendIsPath(adj: seq<seq<int>>, p: seq<int>, x: int)
    requires IsPath(adj, p) && Edge(adj, p[|p| - 1], x)
    ensures IsPath(adj, p + [x])
  {
    var q := p + [x];
    forall i | 0 <= i < |q| - 1
      ensures Edge(adj, q[i], q[i + 1])
    {
      if i < |p| - 1 {
        assert q[i] == p[i] && q[i + 1] == p[i + 1];
      }
    }
    forall i | 0 <= i < |q|
      ensures 0 <= q[i] < |adj|
    {
      if i < |p| {
        assert q[i] == p[i];
      }
    }
  }

  lemma ExtendCost(adj: seq<seq<int>>, p: seq<int>, x: int)
    requires IsPath(adj, p) && Edge(adj, p[|p| - 1], x)
    ensures IsPath(adj, p + [x])
    ensures Cost(adj, p + [x]) == Cost(adj, p) + adj[p[|p| - 1]][x]
  {
    ExtendIsPath(adj, p, x);
    var q := p + [x];
    assert q[..|q| - 1] == p;
    assert q[|q| - 2] == p[|p| - 1];
  }

  lemma AppendInTable(stations: seq<Station>, p: seq<int>, x: int)
    requires InTable(stations, p) && 0 <= x < |stations|
    ensures InTable(stations, p + [x])
  {
    var q := p + [x];
    forall i | 0 <= i < |q|
      ensures 0 <= q[i] < |stations|
    {
      if i < |p| {
        assert q[i] == p[i];
      }
    }
  }

  lemma ExtendChanges(stations: seq<Station>, p: seq<int>, x: int)
    requires |p| >= 1
    ensures LineChanges(stations, p + [x]) == LineChanges(stations, p) + Diff(stations, p[|p| - 1], x)
  {
    var q := p + [x];
    assert q[..|q| - 1] == p;
    assert q[|q| - 2] == p[|p| - 1];
  }

  /** Extending a path by one step adds that step's weight and label change. */
  lemma ExtendPath(g: Network, p: seq<int>, x: int)
    requires |g.stations| == |g.adj|
    requires IsPath(g.adj, p) && Edge(g.adj, p[|p| - 1], x)
    ensures IsPath(g.adj, p + [x]) && InTable(g.stations, p + [x])
    ensures Cost(g.adj, p + [x]) == Cost(g.adj, p) + g.adj[p[|p| - 1]][x]
    ensures InTable(g.stations, p)
    ensures LineChanges(g.stations, p + [x]) == LineChanges(g.stations, p) + Diff(g.stations, p[|p| - 1], x)
  {
    ExtendCost(g.adj, p, x);
    AppendInTable(g.stations, p, x);
    ExtendChanges(g.stations, p, x);
  }

  /** The last step of a path costs at least one minute and never removes a line change. */
  lemma LastStep(g: Network, p: seq<int>)
    requires WellFormed(g) && IsPath(g.adj, p) && |p| >= 2
    ensures IsPath(g.adj, p[..|p| - 1]) && InTable(g.stations, p) && InTable(g.stations, p[..|p| - 1])
    ensures Cost(g.adj, p) >= Cost(g.adj, p[..|p| - 1]) + 1
    ensures LineChanges(g.stations, p) >= LineChanges(g.stations, p[..|p| - 1])
  {
    PrefixIsPath(g.adj, p, |p| - 1);
    assert Edge(g.adj, p[|p| - 2], p[|p| - 1]);
  }

  /** When every edge weighs w, a route costs w per step. */
  lemma {:induction false} UniformCost(adj: seq<seq<int>>, p: seq<int>, w: int)
    requires IsPath(adj, p)
    requires forall a, b :: Edge(adj, a, b) ==> adj[a][b] == w
    ensures Cost(adj, p) == w * (|p| - 1)
    decreases |p|
  {
    if |p| > 1 {
      PrefixIsPath(adj, p, |p| - 1);
      UniformCost(adj, p[..|p| - 1], w);
      assert Edge(adj, p[|p| - 2], p[|p| - 1]);
    }
  }

  /** When every edge weighs w and the only edge out of s leads to h, a route from s to
      another station e that takes at most two steps' time is s, h, e. */
  lemma OnlyWayOut(adj: seq<seq<int>>, p: seq<int>, s: int, h: int, e: int, w: int)
    requires IsPath(adj, p) && p[0] == s && p[|p| - 1] == e && s != e && h != e
    requires w > 0 && forall a, b :: Edge(adj, a, b) ==> adj[a][b] == w
    requires forall b :: Edge(adj, s, b) ==> b == h
    requires Cost(adj, p) <= 2 * w
    ensures p == [s, h, e]
  {
    UniformCost(adj, p, w);
    assert 2 <= |p| <= 3;
    assert Edge(adj, p[0], p[1]);
  }

  /** With positive weights a proper prefix costs strictly less, and a prefix is never
      later in the (time, changes) order. */
  lemma {:induction false} PrefixCheaper(g: Network, p: seq<int>, k: int)
    requires WellFormed(g) && IsPath(g.adj, p) && 1 <= k <= |p|
    ensures IsPath(g.adj, p[..k]) && InTable(g.stations, p) && InTable(g.stations, p[..k])
    ensures k < |p| ==> Cost(g.adj, p[..k]) < Cost(g.adj, p)
    ensures LexLe(Cost(g.adj, p[..k]), LineChanges(g.stations, p[..k]), Cost(g.adj, p), LineChanges(g.stations, p))
    decreases |p|
  {
    PrefixIsPath(g.adj, p, k);
    if k == |p| {
      assert p[..k] == p;
    } else {
      var init := p[..|p| - 1];
      LastStep(g, p);
      PrefixCheaper(g, init, k);
      assert init[..k] == p[..k];
    }
  }
}
