/** The stack dependency graph: the recursive reachability query behind
    `AddDownstream`, and why guarding inserts with it keeps the graph acyclic. */
module DependencyGraph {

  type StackId = nat
  type Edge = (StackId, StackId)  // (upstream, downstream)
  type Graph = set<Edge>

  /** A directed walk with at least one edge. */
  ghost predicate IsPath(g: Graph, p: seq<StackId>) {
    |p| >= 2 && forall i | 0 <= i < |p| - 1 :: (p[i], p[i + 1]) in g
  }

  ghost predicate IsPathFromTo(g: Graph, p: seq<StackId>, x: StackId, y: StackId) {
    IsPath(g, p) && p[0] == x && p[|p| - 1] == y
  }

  /** Transitive closure of the edge relation. */
  ghost predicate Reaches(g: Graph, x: StackId, y: StackId) {
    exists p :: IsPathFromTo(g, p, x, y)
  }

  ghost predicate Acyclic(g: Graph) {
    forall x: StackId :: !Reaches(g, x, x)
  }

  function Successors(g: Graph, xs: set<StackId>): set<StackId> {
    set e | e in g && e.0 in xs :: e.1
  }

  function Downstreams(g: Graph, x: StackId): set<StackId> {
    set e | e in g && e.0 == x :: e.1
  }

  function Targets(g: Graph): set<StackId> {
    set e | e in g :: e.1
  }

  // ---- paths -------------------------------------------------------------

  lemma {:induction false} EdgeReaches(g: Graph, x: StackId, y: StackId)
    requires (x, y) in g
    ensures Reaches(g, x, y)
  {
    assert IsPathFromTo(g, [x, y], x, y);
  }

  lemma {:induction false} ReachesTransitive(g: Graph, x: StackId, y: StackId, z: StackId)
    requires Reaches(g, x, y) && Reaches(g, y, z)
    ensures Reaches(g, x, z)
  {
    var p :| IsPathFromTo(g, p, x, y);
    var q :| IsPathFromTo(g, q, y, z);
    var pq := p + q[1..];
    forall i | 0 <= i < |pq| - 1
      ensures (pq[i], pq[i + 1]) in g
    {
      if i >= |p| - 1 {
        assert pq[i] == q[i - (|p| - 1)] && pq[i + 1] == q[i + 1 - (|p| - 1)];
      }
    }
    assert IsPathFromTo(g, pq, x, z);
  }

  /** Every walk starts with an edge, after which either it stops or a shorter walk remains. */
  lemma {:induction false} ReachesFirstStep(g: Graph, x: StackId, z: StackId) returns (y: StackId)
    requires Reaches(g, x, z)
    ensures (x, y) in g && (y == z || Reaches(g, y, z))
  {
    var p :| IsPathFromTo(g, p, x, z);
    y := p[1];
    assert (p[0], p[1]) in g;
    if |p| > 2 {
      forall i | 0 <= i < |p[1..]| - 1
        ensures (p[1..][i], p[1..][i + 1]) in g
      {
        assert p[1..][i] == p[i + 1] && p[1..][i + 1] == p[i + 2];
      }
      assert IsPathFromTo(g, p[1..], y, z);
    }
  }

  lemma {:induction false} ReachesMonotone(g: Graph, h: Graph, x: StackId, y: StackId)
    requires g <= h && Reaches(g, x, y)
    ensures Reaches(h, x, y)
  {
    var p :| IsPathFromTo(g, p, x, y);
    assert IsPathFromTo(h, p, x, y);
  }

  // ---- the recursive query -------------------------------------------------

  /** A set that holds the first successors and is closed under edges holds everything reachable. */
  lemma {:induction false} ClosedSetHoldsReachable(g: Graph, x: StackId, s: set<StackId>, p: seq<StackId>)
    requires Downstreams(g, x) <= s && Successors(g, s) <= s
    requires IsPath(g, p) && p[0] == x
    ensures p[|p| - 1] in s
    decreases |p|
  {
    var q := p[..|p| - 1];
    assert (p[|p| - 2], p[|p| - 1]) in g;
    if |p| == 2 {
      assert p[1] in Downstreams(g, x);
    } else {
      forall i | 0 <= i < |q| - 1
        ensures (q[i], q[i + 1]) in g
      {
        assert q[i] == p[i] && q[i + 1] == p[i + 1];
      }
      ClosedSetHoldsReachable(g, x, s, q);
      assert p[|p| - 1] in Successors(g, s);
    }
  }

  /** `WITH RECURSIVE reachable … UNION …`: the working table starts with the
      direct downstreams of `start`; each round joins it with the edge table
      and keeps only rows not seen before, until a round adds nothing. */
  method ReachableFrom(g: Graph, start: StackId) returns (reachable: set<StackId>)
    ensures forall y: StackId :: y in reachable <==> Reaches(g, start, y)
  {
    reachable := Downstreams(g, start);
    var working := reachable;
    forall y | y in reachable
      ensures Reaches(g, start, y)
    {
      EdgeReaches(g, start, y);
    }
    while working != {}
      invariant working <= reachable <= Targets(g)
      invariant Downstreams(g, start) <= reachable
      invariant Successors(g, reachable - working) <= reachable
      invariant forall y | y in reachable :: Reaches(g, start, y)
      decreases Targets(g) - reachable, working
    {
      var next := Successors(g, working) - reachable;
      forall y | y in next
        ensures Reaches(g, start, y)
      {
        var e :| e in g && e.0 in working && e.1 == y;
        EdgeReaches(g, e.0, y);
        ReachesTransitive(g, start, e.0, y);
      }
      ghost var before := reachable;
      reachable := reachable + next;
      assert next != {} ==> Targets(g) - reachable < Targets(g) - before by {
        if next != {} {
          var y :| y in next;
          assert y in Targets(g) - before && y !in Targets(g) - reachable;
        }
      }
      assert next == {} ==> reachable == before;
      working := next;
    }
    assert reachable - working == reachable;
    forall y | Reaches(g, start, y)
      ensures y in reachable
    {
      var p :| IsPathFromTo(g, p, start, y);
      ClosedSetHoldsReachable(g, start, reachable, p);
    }
  }

  // ---- acyclicity ------------------------------------------------------------

  lemma {:induction false} RemovalKeepsAcyclic(g: Graph, h: Graph)
    requires Acyclic(g) && h <= g
    ensures Acyclic(h)
  {
    forall x: StackId | Reaches(h, x, x)
      ensures false
    {
      ReachesMonotone(h, g, x, x);
    }
  }

  /** A walk in g + {(u, d)} either stays inside g, or its endpoints are linked
      to u and from d by (possibly empty) walks of g. */
  lemma {:induction false} WalkThroughNewEdge(g: Graph, u: StackId, d: StackId, p: seq<StackId>)
    requires IsPath(g + {(u, d)}, p)
    ensures
      var x, y := p[0], p[|p| - 1];
      || Reaches(g, x, y)
      || ((x == u || Reaches(g, x, u)) && (y == d || Reaches(g, d, y)))
      || Reaches(g, d, u) || d == u
    decreases |p|
  {
    var x, y := p[0], p[|p| - 1];
    assert (p[0], p[1]) in g + {(u, d)};
    if (p[0], p[1]) in g {
      EdgeReaches(g, x, p[1]);
    }
    if |p| > 2 {
      var q := p[1..];
      forall i | 0 <= i < |q| - 1
        ensures (q[i], q[i + 1]) in g + {(u, d)}
      {
        assert q[i] == p[i + 1] && q[i + 1] == p[i + 2];
      }
      WalkThroughNewEdge(g, u, d, q);
      if (p[0], p[1]) in g {
        if Reaches(g, p[1], y) {
          ReachesTransitive(g, x, p[1], y);
        } else if Reaches(g, p[1], u) {
          ReachesTransitive(g, x, p[1], u);
        }
      }
    }
  }

  /** The guard of `AddDownstream` is exact: the new edge is turned away if and
      only if it would make the graph cyclic. */
  lemma {:induction false} InsertGuardIsExact(g: Graph, u: StackId, d: StackId)
    requires Acyclic(g)
    ensures Acyclic(g + {(u, d)}) <==> !(u == d || Reaches(g, d, u))
  {
    var h := g + {(u, d)};
    EdgeReaches(h, u, d);
    if u == d || Reaches(g, d, u) {
      if u != d {
        ReachesMonotone(g, h, d, u);
        ReachesTransitive(h, u, d, u);
      }
      assert Reaches(h, u, u);
    } else {
      forall x: StackId | Reaches(h, x, x)
        ensures false
      {
        var p :| IsPathFromTo(h, p, x, x);
        WalkThroughNewEdge(g, u, d, p);
        if Reaches(g, x, u) && Reaches(g, d, x) {
          ReachesTransitive(g, d, x, u);
        }
      }
    }
  }
}
