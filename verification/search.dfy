/** The dense Dijkstra search of the route finder. The primary key is travel
    time; on equal time a step that gives fewer line changes wins. The next
    station to settle is the lowest-numbered unvisited one with the smallest
    finite time. */
module Search {
  import opened Metro
  import opened Paths

  /** The four per-station arrays of the search. */
  datatype State = State(dist: seq<int>, prev: seq<int>, transfers: seq<int>, visited: seq<bool>)

  predicate Sized(g: Network, s: State) {
    && |s.dist| == |g.stations|
    && |s.prev| == |g.stations|
    && |s.transfers| == |g.stations|
    && |s.visited| == |g.stations|
  }

  predicate Shaped(g: Network, s: State) {
    WellFormed(g) && Sized(g, s)
  }

  /** The number of visited stations. */
  function CountTrue(b: seq<bool>): nat
    decreases |b|
  {
    if |b| == 0 then 0 else CountTrue(b[..|b| - 1]) + (if b[|b| - 1] then 1 else 0)
  }

  // ---------------------------------------------------------------------------
  // Selection

  /** No unvisited station has a finite time left: the search stops. */
  predicate NoneLeft(s: State)
    requires |s.visited| == |s.dist|
  {
    forall v :: 0 <= v < |s.dist| && !s.visited[v] ==> s.dist[v] >= INF
  }

  /** u is a legal next station: unvisited, finite, and no unvisited station is nearer. */
  predicate IsNearest(s: State, u: int)
    requires |s.visited| == |s.dist|
  {
    && 0 <= u < |s.dist|
    && !s.visited[u]
    && s.dist[u] < INF
    && forall v :: 0 <= v < |s.dist| && !s.visited[v] ==> s.dist[u] <= s.dist[v]
  }

  /** The scan for the next station: the first index of minimal finite time among the
      unvisited stations, or -1 when none has a finite time. */
  method SelectNearest(s: State) returns (u: int)
    requires |s.visited| == |s.dist|
    ensures -1 <= u < |s.dist|
    ensures u == -1 <==> NoneLeft(s)
    ensures u != -1 ==> IsNearest(s, u)
    ensures u != -1 ==> forall v :: 0 <= v < u && !s.visited[v] ==> s.dist[u] < s.dist[v]
  {
    u := -1;
    var best := INF;
    var v := 0;
    while v < |s.dist|
      invariant 0 <= v <= |s.dist|
      invariant -1 <= u < v
      invariant u == -1 ==> best == INF
      invariant u != -1 ==> best == s.dist[u] && !s.visited[u] && best < INF
      invariant forall w :: 0 <= w < v && !s.visited[w] ==> best <= s.dist[w]
      invariant u != -1 ==> forall w :: 0 <= w < u && !s.visited[w] ==> best < s.dist[w]
    {
      if !s.visited[v] && s.dist[v] < best {
        best := s.dist[v];
        u := v;
      }
      v := v + 1;
    }
  }

  // ---------------------------------------------------------------------------
  // Relaxation

  /** Station v's time and changes if it were reached by one step from u. */
  function StepDist(g: Network, s: State, u: int, v: int): int
    requires Shaped(g, s) && 0 <= u < |g.stations| && 0 <= v < |g.stations|
  {
    s.dist[u] + g.adj[u][v]
  }

  function StepTransfers(g: Network, s: State, u: int, v: int): int
    requires Shaped(g, s) && 0 <= u < |g.stations| && 0 <= v < |g.stations|
  {
    s.transfers[u] + Diff(g.stations, u, v)
  }

  /** The step from u strictly improves on v's record: less time, or equal time and fewer changes. */
  predicate Better(g: Network, s: State, u: int, v: int)
    requires Shaped(g, s) && 0 <= u < |g.stations| && 0 <= v < |g.stations|
  {
    || StepDist(g, s, u, v) < s.dist[v]
    || (StepDist(g, s, u, v) == s.dist[v] && StepTransfers(g, s, u, v) < s.transfers[v])
  }

  predicate Kept(s: State, t: State, v: int)
    requires 0 <= v < |s.dist| == |s.prev| == |s.transfers|
    requires |t.dist| == |s.dist| == |t.prev| == |t.transfers|
  {
    t.dist[v] == s.dist[v] && t.prev[v] == s.prev[v] && t.transfers[v] == s.transfers[v]
  }

  /** v was unvisited, adjacent to u and improved by the step from u, and now records it. */
  predicate Took(g: Network, s: State, u: int, t: State, v: int)
    requires Shaped(g, s) && Sized(g, t) && 0 <= u < |g.stations| && 0 <= v < |g.stations|
  {
    && !s.visited[v]
    && Edge(g.adj, u, v)
    && Better(g, s, u, v)
    && t.dist[v] == StepDist(g, s, u, v)
    && t.prev[v] == u
    && t.transfers[v] == StepTransfers(g, s, u, v)
  }

  /** t is s after relaxing every edge out of u: each record is either kept or improved by
      the step from u, and afterwards no unvisited neighbour of u can still be improved. */
  ghost predicate RelaxedBy(g: Network, s: State, u: int, t: State)
    requires Shaped(g, s) && 0 <= u < |g.stations|
  {
    && Sized(g, t)
    && t.visited == s.visited
    && (forall v :: 0 <= v < |g.stations| ==> Kept(s, t, v) || Took(g, s, u, t, v))
    && (forall v :: 0 <= v < |g.stations| && !s.visited[v] && Edge(g.adj, u, v) ==>
          LexLe(t.dist[v], t.transfers[v], StepDist(g, s, u, v), StepTransfers(g, s, u, v)))
  }

  /** The update loop over all stations after u is settled. */
  method Relax(g: Network, s: State, u: int) returns (t: State)
    requires Shaped(g, s) && 0 <= u < |g.stations| && s.visited[u]
    ensures RelaxedBy(g, s, u, t)
    ensures forall v :: 0 <= v < |g.stations| && s.visited[v] ==> Kept(s, t, v)
  {
    var n := |g.stations|;
    t := s;
    var v := 0;
    while v < n
      invariant 0 <= v <= n
      invariant Sized(g, t) && t.visited == s.visited
      invariant forall w :: 0 <= w < n ==> Kept(s, t, w) || Took(g, s, u, t, w)
      invariant forall w :: v <= w < n ==> Kept(s, t, w)
      invariant forall w :: 0 <= w < v && !s.visited[w] && Edge(g.adj, u, w) ==>
                  LexLe(t.dist[w], t.transfers[w], StepDist(g, s, u, w), StepTransfers(g, s, u, w))
    {
      assert Kept(s, t, u);
      assert Kept(s, t, v);
      ghost var before := t;
      if !t.visited[v] && g.adj[u][v] != INF {
        var isTransfer := g.stations[u].line != g.stations[v].line;
        var newDist := t.dist[u] + g.adj[u][v];
        var newTransfers := t.transfers[u] + (if isTransfer then 1 else 0);
        if newDist < t.dist[v] || (newDist == t.dist[v] && newTransfers < t.transfers[v]) {
          t := t.(dist := t.dist[v := newDist], prev := t.prev[v := u],
                  transfers := t.transfers[v := newTransfers]);
          assert Took(g, s, u, t, v);
        }
      }
      forall w | 0 <= w < n && w != v
        ensures Kept(s, t, w) == Kept(s, before, w)
        ensures Took(g, s, u, t, w) == Took(g, s, u, before, w)
      {
      }
      v := v + 1;
    }
  }

  // ---------------------------------------------------------------------------
  // Invariants

  /** Every finite record is the end of a predecessor link: the predecessor is finite,
      adjacent, and the record is its time plus the edge weight, its changes plus the
      label change of that edge. */
  predicate Linked(g: Network, s: State, v: int)
    requires Shaped(g, s) && 0 <= v < |g.stations|
  {
    var p := s.prev[v];
    && 0 <= p < |g.stations|
    && s.dist[p] != INF
    && Edge(g.adj, p, v)
    && s.dist[v] == StepDist(g, s, p, v)
    && s.transfers[v] == StepTransfers(g, s, p, v)
  }

  /** The records can be read back as routes from start: the start is at time 0 with no
      changes and no predecessor; every other finite record is linked. */
  predicate Chained(g: Network, start: int, s: State) {
    && Shaped(g, s)
    && 0 <= start < |g.stations|
    && s.dist[start] == 0 && s.transfers[start] == 0 && s.prev[start] == -1
    && (forall v :: 0 <= v < |g.stations| ==> 0 <= s.dist[v] <= INF)
    && (forall v :: 0 <= v < |g.stations| && v != start && s.dist[v] != INF ==> Linked(g, s, v))
  }

  /** A finite time never exceeds MaxWeight per settled station, so it stays below INF. */
  ghost predicate Bounded(g: Network, s: State, count: int)
    requires Shaped(g, s)
  {
    forall v :: 0 <= v < |g.stations| && s.dist[v] != INF ==> s.dist[v] <= count * MaxWeight
  }

  ghost predicate PrevVisited(g: Network, start: int, s: State)
    requires Chained(g, start, s)
  {
    forall v :: 0 <= v < |g.stations| && v != start && s.dist[v] != INF ==> s.visited[s.prev[v]]
  }

  /** Settled stations are finite and no later than any unsettled one. */
  ghost predicate Settled(g: Network, s: State)
    requires Shaped(g, s)
  {
    && (forall v :: 0 <= v < |g.stations| && s.visited[v] ==> s.dist[v] != INF)
    && (forall x, y :: 0 <= x < |g.stations| && 0 <= y < |g.stations| && s.visited[x] && !s.visited[y] ==>
          s.dist[x] <= s.dist[y])
  }

  /** No step out of a settled station improves any record. */
  ghost predicate Relaxed(g: Network, s: State)
    requires Shaped(g, s)
  {
    forall x, v :: 0 <= x < |g.stations| && 0 <= v < |g.stations| && s.visited[x] && Edge(g.adj, x, v) ==>
      LexLe(s.dist[v], s.transfers[v], StepDist(g, s, x, v), StepTransfers(g, s, x, v))
  }

  /** The loop invariant of the search after count stations have been settled. */
  ghost predicate Inv(g: Network, start: int, s: State, count: int) {
    && Chained(g, start, s)
    && 0 <= count < |g.stations|
    && CountTrue(s.visited) == count
    && Bounded(g, s, count)
    && (forall v :: 0 <= v < |g.stations| ==> s.transfers[v] >= 0)
    && PrevVisited(g, start, s)
    && Settled(g, s)
    && Relaxed(g, s)
  }

  // ---------------------------------------------------------------------------
  // Counting settled stations

  lemma {:induction false} CountTrueMark(b: seq<bool>, u: int)
    requires 0 <= u < |b| && !b[u]
    ensures CountTrue(b[u := true]) == CountTrue(b) + 1
    decreases |b|
  {
    var c := b[u := true];
    var m := |b| - 1;
    if u == m {
      assert c[..m] == b[..m];
    } else {
      assert c[..m] == b[..m][u := true];
      CountTrueMark(b[..m], u);
    }
  }

  lemma {:induction false} CountTrueBound(b: seq<bool>)
    ensures CountTrue(b) <= |b|
    decreases |b|
  {
    if |b| > 0 {
      CountTrueBound(b[..|b| - 1]);
    }
  }

  lemma {:induction false} CountTrueOneGap(b: seq<bool>, u: int)
    requires 0 <= u < |b| && !b[u]
    ensures CountTrue(b) <= |b| - 1
    decreases |b|
  {
    var m := |b| - 1;
    if u == m {
      CountTrueBound(b[..m]);
    } else {
      CountTrueOneGap(b[..m], u);
    }
  }

  /** With all but one station settled, the unsettled station is unique. */
  lemma {:induction false} OnlyOneOpen(b: seq<bool>, u: int, w: int)
    requires 0 <= u < |b| && 0 <= w < |b| && !b[u] && !b[w]
    requires CountTrue(b) == |b| - 1
    ensures u == w
    decreases |b|
  {
    if u != w {
      TwoGaps(b, u, w);
    }
  }

  lemma {:induction false} TwoGaps(b: seq<bool>, u: int, w: int)
    requires 0 <= u < |b| && 0 <= w < |b| && u != w && !b[u] && !b[w]
    ensures CountTrue(b) <= |b| - 2
    decreases |b|
  {
    var m := |b| - 1;
    if u == m {
      CountTrueOneGap(b[..m], w);
    } else if w == m {
      CountTrueOneGap(b[..m], u);
    } else {
      TwoGaps(b[..m], u, w);
    }
  }

  lemma {:induction false} CountTrueNone(n: nat)
    ensures CountTrue(seq(n, _ => false)) == 0
    decreases n
  {
    if n > 0 {
      assert seq(n, _ => false)[..n - 1] == seq(n - 1, _ => false);
      CountTrueNone(n - 1);
    }
  }

  // ---------------------------------------------------------------------------
  // One round keeps the invariant

  /** What holds between the records before a round (s), after marking u (m) and after
      relaxing u's edges (t). */
  ghost predicate Round(g: Network, start: int, s: State, count: int, u: int, m: State, t: State) {
    && Inv(g, start, s, count)
    && count < |g.stations| - 1
    && IsNearest(s, u)
    && m == s.(visited := s.visited[u := true])
    && RelaxedBy(g, m, u, t)
  }

  /** The record of a station that is settled after the round did not change in it. */
  lemma RoundKeepsSettled(g: Network, start: int, s: State, count: int, u: int, m: State, t: State, v: int)
    requires Round(g, start, s, count, u, m, t)
    requires 0 <= v < |g.stations| && m.visited[v]
    ensures Kept(s, t, v)
  {
    assert Kept(m, t, v);
  }

  /** A record changed in the round was improved by the step from u, with u's own record as
      it was before the round. */
  lemma RoundChange(g: Network, start: int, s: State, count: int, u: int, m: State, t: State, v: int)
    requires Round(g, start, s, count, u, m, t)
    requires 0 <= v < |g.stations| && !Kept(s, t, v)
    ensures !s.visited[v] && v != u && Edge(g.adj, u, v)
    ensures t.dist[v] == StepDist(g, s, u, v) && t.transfers[v] == StepTransfers(g, s, u, v)
    ensures t.prev[v] == u
    ensures LexLe(t.dist[v], t.transfers[v], s.dist[v], s.transfers[v])
  {
    assert Kept(m, t, v) || Took(g, m, u, t, v);
    assert Took(g, m, u, t, v);
  }

  /** With positive weights every linked record is later than the start. */
  lemma OnlyStartAtZero(g: Network, start: int, s: State)
    requires Chained(g, start, s)
    ensures forall v :: 0 <= v < |g.stations| && v != start && s.dist[v] != INF ==> s.dist[v] >= 1
  {
    forall v | 0 <= v < |g.stations| && v != start && s.dist[v] != INF
      ensures s.dist[v] >= 1
    {
      assert Linked(g, s, v);
    }
  }

  /** Following prev can only run out at the start. */
  lemma NoPredecessorIsStart(g: Network, start: int, s: State)
    requires Chained(g, start, s)
    ensures forall v :: 0 <= v < |g.stations| && s.dist[v] != INF && s.prev[v] == -1 ==> v == start
  {
    forall v | 0 <= v < |g.stations| && s.dist[v] != INF && v != start
      ensures s.prev[v] != -1
    {
      assert Linked(g, s, v);
    }
  }

  lemma RoundKeepsStart(g: Network, start: int, s: State, count: int, u: int, m: State, t: State)
    requires Round(g, start, s, count, u, m, t)
    ensures Kept(s, t, start)
  {
    OnlyStartAtZero(g, start, s);
    if !s.visited[start] {
      assert s.dist[u] <= s.dist[start];
      assert u == start;
    }
    RoundKeepsSettled(g, start, s, count, u, m, t, start);
  }

  lemma RoundKeepsChained(g: Network, start: int, s: State, count: int, u: int, m: State, t: State)
    requires Round(g, start, s, count, u, m, t)
    ensures Chained(g, start, t)
    ensures Bounded(g, t, count + 1)
    ensures forall v :: 0 <= v < |g.stations| ==> t.transfers[v] >= 0
    ensures PrevVisited(g, start, t)
  {
    var n := |g.stations|;
    RoundKeepsStart(g, start, s, count, u, m, t);
    forall v | 0 <= v < n
      ensures 0 <= t.dist[v] <= INF
      ensures t.dist[v] != INF ==> t.dist[v] <= (count + 1) * MaxWeight
      ensures t.transfers[v] >= 0
    {
      RoundKeepsBounds(g, start, s, count, u, m, t, v);
    }
    forall v | 0 <= v < n && v != start && t.dist[v] != INF
      ensures Linked(g, t, v) && t.visited[t.prev[v]]
    {
      RoundKeepsLink(g, start, s, count, u, m, t, v);
    }
  }

  /** A record after the round is a time in range, within the bound for one more settled
      station, with a non-negative change count. */
  lemma RoundKeepsBounds(g: Network, start: int, s: State, count: int, u: int, m: State, t: State, v: int)
    requires Round(g, start, s, count, u, m, t)
    requires 0 <= v < |g.stations|
    ensures 0 <= t.dist[v] <= INF
    ensures t.dist[v] != INF ==> t.dist[v] <= (count + 1) * MaxWeight
    ensures t.transfers[v] >= 0
  {
    if !Kept(s, t, v) {
      RoundKeepsSettled(g, start, s, count, u, m, t, u);
      RoundChange(g, start, s, count, u, m, t, v);
    }
  }

  /** A finite record other than the start is still linked, through a settled predecessor. */
  lemma RoundKeepsLink(g: Network, start: int, s: State, count: int, u: int, m: State, t: State, v: int)
    requires Round(g, start, s, count, u, m, t)
    requires 0 <= v < |g.stations| && v != start && t.dist[v] != INF
    ensures Linked(g, t, v) && t.visited[t.prev[v]]
  {
    RoundKeepsSettled(g, start, s, count, u, m, t, u);
    if Kept(s, t, v) {
      var p := s.prev[v];
      assert Linked(g, s, v);
      RoundKeepsSettled(g, start, s, count, u, m, t, p);
    } else {
      RoundChange(g, start, s, count, u, m, t, v);
    }
  }

  lemma RoundKeepsSettledOrder(g: Network, start: int, s: State, count: int, u: int, m: State, t: State)
    requires Round(g, start, s, count, u, m, t)
    ensures Settled(g, t)
  {
    var n := |g.stations|;
    forall v | 0 <= v < n && t.visited[v]
      ensures t.dist[v] != INF
    {
      RoundKeepsSettled(g, start, s, count, u, m, t, v);
    }
    forall x, y | 0 <= x < n && 0 <= y < n && t.visited[x] && !t.visited[y]
      ensures t.dist[x] <= t.dist[y]
    {
      RoundOrderPair(g, start, s, count, u, m, t, x, y);
    }
  }

  /** A station settled after the round is no later than one still open. */
  lemma RoundOrderPair(g: Network, start: int, s: State, count: int, u: int, m: State, t: State, x: int, y: int)
    requires Round(g, start, s, count, u, m, t)
    requires 0 <= x < |g.stations| && 0 <= y < |g.stations| && t.visited[x] && !t.visited[y]
    ensures t.dist[x] <= t.dist[y]
  {
    RoundKeepsSettled(g, start, s, count, u, m, t, x);
    assert s.dist[x] <= s.dist[u];
    if !Kept(s, t, y) {
      RoundChange(g, start, s, count, u, m, t, y);
    } else {
      assert !m.visited[y];
    }
  }

  lemma RoundKeepsRelaxed(g: Network, start: int, s: State, count: int, u: int, m: State, t: State)
    requires Round(g, start, s, count, u, m, t)
    ensures Relaxed(g, t)
  {
    var n := |g.stations|;
    forall x, v | 0 <= x < n && 0 <= v < n && t.visited[x] && Edge(g.adj, x, v)
      ensures LexLe(t.dist[v], t.transfers[v], StepDist(g, t, x, v), StepTransfers(g, t, x, v))
    {
      RoundKeepsSettled(g, start, s, count, u, m, t, x);
      if t.visited[v] {
        RoundKeepsSettled(g, start, s, count, u, m, t, v);
        if x == u && v != u {
          assert s.dist[v] <= s.dist[u];
        }
      } else if x == u {
        assert LexLe(t.dist[v], t.transfers[v], StepDist(g, m, u, v), StepTransfers(g, m, u, v));
      } else {
        assert LexLe(s.dist[v], s.transfers[v], StepDist(g, s, x, v), StepTransfers(g, s, x, v));
        if !Kept(s, t, v) {
          RoundChange(g, start, s, count, u, m, t, v);
        }
      }
    }
  }

  lemma RoundKeepsInv(g: Network, start: int, s: State, count: int, u: int, m: State, t: State)
    requires Round(g, start, s, count, u, m, t)
    ensures Inv(g, start, t, count + 1)
  {
    RoundKeepsChained(g, start, s, count, u, m, t);
    RoundKeepsSettledOrder(g, start, s, count, u, m, t);
    RoundKeepsRelaxed(g, start, s, count, u, m, t);
    CountTrueMark(s.visited, u);
  }

  // ---------------------------------------------------------------------------
  // Optimality on termination

  /** p's final station is reached, no later in the (time, changes) order than p itself. */
  ghost predicate Dominated(g: Network, s: State, p: seq<int>)
    requires Shaped(g, s) && IsPath(g.adj, p)
  {
    var v := p[|p| - 1];
    && s.dist[v] != INF
    && LexLe(s.dist[v], s.transfers[v], Cost(g.adj, p), LineChanges(g.stations, p))
  }

  /** The first position before the last whose station is unsettled, or the last position. */
  ghost function FirstOpen(s: State, p: seq<int>, i: nat): (k: nat)
    requires forall j :: 0 <= j < |p| ==> 0 <= p[j] < |s.visited|
    requires i <= |p| - 1
    ensures i <= k <= |p| - 1
    ensures forall j :: i <= j < k ==> s.visited[p[j]]
    ensures k < |p| - 1 ==> !s.visited[p[k]]
    decreases |p| - 1 - i
  {
    if i == |p| - 1 || !s.visited[p[i]] then i else FirstOpen(s, p, i + 1)
  }

  /** Along a path from start whose stations before position k are all settled, the
      station at k is reached no later than the prefix up to it. */
  lemma {:induction false} PrefixReached(g: Network, start: int, s: State, count: int, p: seq<int>, k: int)
    requires Inv(g, start, s, count)
    requires IsPath(g.adj, p) && p[0] == start && 0 <= k < |p|
    requires forall i :: 0 <= i < k ==> s.visited[p[i]]
    ensures IsPath(g.adj, p[..k + 1])
    ensures Dominated(g, s, p[..k + 1])
    decreases k
  {
    PrefixIsPath(g.adj, p, k + 1);
    var q := p[..k + 1];
    if k == 0 {
      assert q == [start];
    } else {
      PrefixReached(g, start, s, count, p, k - 1);
      var x, v := p[k - 1], p[k];
      assert q[..k] == p[..k];
      assert Edge(g.adj, x, v);
      ExtendPath(g, p[..k], v);
      assert p[..k] + [v] == q;
      assert LexLe(s.dist[v], s.transfers[v], StepDist(g, s, x, v), StepTransfers(g, s, x, v));
    }
  }

  lemma PathDominated(g: Network, start: int, s: State, count: int, p: seq<int>)
    requires Inv(g, start, s, count)
    requires count == |g.stations| - 1 || NoneLeft(s)
    requires IsPath(g.adj, p) && p[0] == start
    ensures Dominated(g, s, p)
  {
    var k := FirstOpen(s, p, 0);
    PrefixReached(g, start, s, count, p, k);
    PrefixCheaper(g, p, k + 1);
    if k == |p| - 1 {
      assert p[..k + 1] == p;
    } else {
      var w, v := p[k], p[|p| - 1];
      assert !s.visited[w] && s.dist[w] < INF;
      assert !NoneLeft(s);
      if !s.visited[v] {
        OnlyOneOpen(s.visited, v, w);
      }
    }
  }

  lemma AllDominated(g: Network, start: int, s: State, count: int)
    requires Inv(g, start, s, count)
    requires count == |g.stations| - 1 || NoneLeft(s)
    ensures forall p :: IsPath(g.adj, p) && p[0] == start ==> Dominated(g, s, p)
  {
    forall p | IsPath(g.adj, p) && p[0] == start
      ensures Dominated(g, s, p)
    {
      PathDominated(g, start, s, count, p);
    }
  }

  // ---------------------------------------------------------------------------
  // The search

  /** Runs the search from start. Afterwards the records read back as routes (Chained), and
      every route from start is no earlier in the (time, changes) order than the record of
      its final station, which is therefore finite. */
  method Dijkstra(g: Network, start: int) returns (s: State)
    requires WellFormed(g) && 0 <= start < |g.stations|
    ensures Chained(g, start, s)
    ensures forall p :: IsPath(g.adj, p) && p[0] == start ==> Dominated(g, s, p)
  {
    var n := |g.stations|;
    s := State(seq(n, _ => INF), seq(n, _ => -1), seq(n, _ => 0), seq(n, _ => false));
    CountTrueNone(n);
    s := s.(dist := s.dist[start := 0]);
    var count := 0;
    while count < n - 1
      invariant Inv(g, start, s, count)
      decreases n - 1 - count
    {
      var u := SelectNearest(s);
      if u == -1 {
        break;
      }
      var m := s.(visited := s.visited[u := true]);
      var t := Relax(g, m, u);
      RoundKeepsInv(g, start, s, count, u, m, t);
      s := t;
      count := count + 1;
    }
    assert Inv(g, start, s, count);
    assert count == n - 1 || NoneLeft(s);
    AllDominated(g, start, s, count);
  }
}
