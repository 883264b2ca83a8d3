/** Finite directed graphs over instance references, with reachability by explicit paths. */
module Graph {
  import opened Types

  /** A graph maps every vertex to the set of its successors. */
  type Graph = map<InstanceRef, set<InstanceRef>>

  ghost predicate Closed(g: Graph) {
    forall u <- g, v <- g[u] :: v in g
  }

  ghost predicate Edge(g: Graph, u: InstanceRef, v: InstanceRef) {
    u in g && v in g[u]
  }

  ghost predicate Hop(g: Graph, p: seq<InstanceRef>, i: int) {
    0 <= i < |p| - 1 ==> Edge(g, p[i], p[i + 1])
  }

  ghost predicate Path(g: Graph, p: seq<InstanceRef>) {
    |p| > 0 && forall i :: Hop(g, p, i)
  }

  ghost predicate PathBetween(g: Graph, p: seq<InstanceRef>, u: InstanceRef, v: InstanceRef) {
    Path(g, p) && p[0] == u && p[|p| - 1] == v
  }

  ghost predicate Reach(g: Graph, u: InstanceRef, v: InstanceRef) {
    exists p :: PathBetween(g, p, u, v)
  }

  function Members(s: seq<InstanceRef>): set<InstanceRef> {
    set x | x in s
  }

  lemma MembersConcat(s: seq<InstanceRef>, t: seq<InstanceRef>)
    ensures Members(s + t) == Members(s) + Members(t)
  {
  }

  ghost predicate NoDuplicates(s: seq<InstanceRef>) {
    forall i, j | 0 <= i < j < |s| :: s[i] != s[j]
  }

  /** Every member reaches every other one. */
  ghost predicate StronglyConnected(g: Graph, members: set<InstanceRef>) {
    forall u, v | u in members && v in members :: Reach(g, u, v)
  }

  ghost predicate Subgraph(g: Graph, h: Graph) {
    forall u <- g :: u in h && g[u] <= h[u]
  }

  lemma ReachRefl(g: Graph, u: InstanceRef)
    ensures Reach(g, u, u)
  {
    assert PathBetween(g, [u], u, u);
  }

  lemma ReachEdge(g: Graph, u: InstanceRef, v: InstanceRef)
    requires Edge(g, u, v)
    ensures Reach(g, u, v)
  {
    assert PathBetween(g, [u, v], u, v);
  }

  lemma ReachTrans(g: Graph, u: InstanceRef, v: InstanceRef, w: InstanceRef)
    requires Reach(g, u, v) && Reach(g, v, w)
    ensures Reach(g, u, w)
  {
    var p :| PathBetween(g, p, u, v);
    var q :| PathBetween(g, q, v, w);
    var r := p + q[1..];
    forall i
      ensures Hop(g, r, i)
    {
      if i < |p| - 1 {
        assert Hop(g, p, i);
      } else {
        assert Hop(g, q, i - (|p| - 1));
      }
    }
    assert PathBetween(g, r, u, w);
  }

  lemma ReachMonotone(g: Graph, h: Graph, u: InstanceRef, v: InstanceRef)
    requires Subgraph(g, h) && Reach(g, u, v)
    ensures Reach(h, u, v)
  {
    var p :| PathBetween(g, p, u, v);
    forall i
      ensures Hop(h, p, i)
    {
      assert Hop(g, p, i);
    }
    assert PathBetween(h, p, u, v);
  }
}
