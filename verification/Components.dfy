/** What a link-only forest means for the graph: its trees are the components that the linked edges
    make. */
module Components {
  import opened Connectivity
  import opened Graphs
  import opened UnionFind

  ghost predicate Matches(E: Edges, n: nat, f: Forest, T: set<nat>) {
    && Valid(f) && |f.parent| == n && EdgesOn(E, n)
    && forall a, b :: 0 <= a < n && 0 <= b < n ==> (f.root[a] == f.root[b] <==> Connected(E, T, a, b))
  }

  lemma SingletonsMatch(E: Edges, n: nat)
    requires EdgesOn(E, n)
    ensures Matches(E, n, Singletons(n), {})
  {
    forall a, b | 0 <= a < n && 0 <= b < n ensures a == b <==> Connected(E, {}, a, b) {
      ConnectedRefl(E, {}, a);
      if Connected(E, {}, a, b) {
        ConnectedStays(E, {}, x => x == a, a, b);
      }
    }
  }

  /** u and v stand for the two ends of the edge: one is in the tree of each. */
  ghost predicate EndsOf(f: Forest, e: (nat, nat), u: nat, v: nat) {
    u < |f.root| && v < |f.root| && e.0 < |f.root| && e.1 < |f.root| &&
    ((f.root[u] == f.root[e.0] && f.root[v] == f.root[e.1]) || (f.root[u] == f.root[e.1] && f.root[v] == f.root[e.0]))
  }

  /** Linking the trees of an edge's ends makes the components that adding the edge makes. */
  lemma LinkMatches(E: Edges, n: nat, f: Forest, T: set<nat>, i: nat, u: nat, v: nat)
    requires Matches(E, n, f, T) && i < |E|
    requires EndsOf(f, E[i], u, v) && IsRoot(f, u) && f.root[v] != u
    ensures Matches(E, n, LinkTo(f, u, v), T + {i})
    ensures !Connected(E, T, E[i].0, E[i].1)
  {
    LinkKeepsForest(f, u, v);
    var g := LinkTo(f, u, v);
    var (p, q) := E[i];
    forall a, b | 0 <= a < n && 0 <= b < n ensures g.root[a] == g.root[b] <==> Connected(E, T + {i}, a, b) {
      ConnectedWithEdge(E, T, i, a, b);
      assert Connected(E, T, a, p) <==> f.root[a] == f.root[p];
      assert Connected(E, T, a, q) <==> f.root[a] == f.root[q];
      assert Connected(E, T, p, b) <==> f.root[p] == f.root[b];
      assert Connected(E, T, q, b) <==> f.root[q] == f.root[b];
    }
  }
}
