/** Directed graphs of lock ids ("held, then acquired"), their walks and cycles. */
module LockGraph {

  type Graph = map<nat, set<nat>>

  predicate Edge(g: Graph, u: nat, v: nat) {
    u in g && v in g[u]
  }

  /** Every id of the graph is below n and no id has an edge to itself. */
  ghost predicate WellFormed(g: Graph, n: nat) {
    && (forall u | u in g :: u < n)
    && (forall u: nat, v: nat | Edge(g, u, v) :: v < n && v != u)
  }

  ghost predicate Walk(g: Graph, p: seq<nat>) {
    forall i, j | 0 <= i && j == i + 1 < |p| :: Edge(g, p[i], p[j])
  }

  ghost predicate WalkBetween(g: Graph, p: seq<nat>, u: nat, v: nat) {
    && |p| >= 2
    && p[0] == u && p[|p| - 1] == v
    && Walk(g, p)
  }

  /** v can be reached from u along one or more edges. */
  ghost predicate Reaches(g: Graph, u: nat, v: nat) {
    exists p :: WalkBetween(g, p, u, v)
  }

  ghost predicate HasCycle(g: Graph) {
    exists u :: Reaches(g, u, u)
  }

  lemma EdgeReaches(g: Graph, u: nat, v: nat)
    requires Edge(g, u, v)
    ensures Reaches(g, u, v)
  {
    assert WalkBetween(g, [u, v], u, v);
  }

  lemma ReachesTransitive(g: Graph, u: nat, v: nat, w: nat)
    requires Reaches(g, u, v) && Reaches(g, v, w)
    ensures Reaches(g, u, w)
  {
    var p :| WalkBetween(g, p, u, v);
    var q :| WalkBetween(g, q, v, w);
    var r := p + q[1..];
    forall i, j | 0 <= i && j == i + 1 < |r| ensures Edge(g, r[i], r[j]) {
      if j < |p| {
        assert Edge(g, p[i], p[j]);
      } else {
        assert r[i] == q[i - |p| + 1] && r[j] == q[j - |p| + 1];
      }
    }
    assert WalkBetween(g, r, u, w);
  }

  /** Every edge leaving an entry of the order leads to an earlier entry. */
  ghost predicate TopologicalOrder(g: Graph, order: seq<nat>) {
    forall i, v | 0 <= i < |order| && Edge(g, order[i], v) :: v in order[..i]
  }

  lemma {:induction false} WalkGoesBack(g: Graph, order: seq<nat>, p: seq<nat>, i: nat)
    requires TopologicalOrder(g, order)
    requires i < |order| && |p| >= 2 && p[0] == order[i] && Walk(g, p)
    ensures p[|p| - 1] in order[..i]
    decreases |p|
  {
    assert Edge(g, p[0], p[1]);
    if |p| > 2 {
      var j :| 0 <= j < i && order[j] == p[1];
      WalkGoesBack(g, order, p[1..], j);
    }
  }

  lemma {:induction false} NoReturn(g: Graph, order: seq<nat>, i: nat)
    requires TopologicalOrder(g, order)
    requires i < |order|
    ensures !Reaches(g, order[i], order[i])
  {
    if Reaches(g, order[i], order[i]) {
      var p :| WalkBetween(g, p, order[i], order[i]);
      WalkGoesBack(g, order, p, i);
      var j :| 0 <= j < i && order[j] == order[i];
      NoReturn(g, order, j);
    }
  }

  /** A topological order that covers every id with outgoing edges excludes cycles. */
  lemma TopologicalOrderExcludesCycles(g: Graph, order: seq<nat>)
    requires TopologicalOrder(g, order)
    requires forall u | u in g :: u in order
    ensures !HasCycle(g)
  {
    forall u | Reaches(g, u, u) ensures false {
      var p :| WalkBetween(g, p, u, u);
      assert Edge(g, p[0], p[1]);
      var i :| 0 <= i < |order| && order[i] == u;
      NoReturn(g, order, i);
    }
  }

  /**
   * What the detector logs: edges listed backwards along a closed walk that
   * visits no lock twice.  The first entry closes the cycle.
   */
  ghost predicate CycleReport(g: Graph, r: seq<(nat, nat)>) {
    && |r| >= 2
    && (forall i | 0 <= i < |r| :: Edge(g, r[i].0, r[i].1))
    && (forall i, j | 0 <= i && j == i + 1 < |r| :: r[j].1 == r[i].0)
    && r[0].1 == r[|r| - 1].0
    && (forall i, j | 0 <= i < j < |r| :: r[i].0 != r[j].0)
  }

  lemma ReportIsCycle(g: Graph, r: seq<(nat, nat)>)
    requires CycleReport(g, r)
    ensures HasCycle(g)
  {
    var m := |r|;
    var p := seq(m + 1, i requires 0 <= i <= m => if i < m then r[m - 1 - i].0 else r[0].1);
    forall i, j | 0 <= i && j == i + 1 < |p| ensures Edge(g, p[i], p[j]) {
      assert p[i] == r[m - 1 - i].0;
      assert p[j] == r[m - 1 - i].1 by {
        if j < m {
          var a, b := m - 1 - j, m - 1 - i;
          assert b == a + 1 < |r| && r[b].1 == r[a].0;
        }
      }
    }
    assert WalkBetween(g, p, r[m - 1].0, r[m - 1].0);
    assert Reaches(g, r[m - 1].0, r[m - 1].0);
  }
}
