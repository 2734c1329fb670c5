/** Graphs as adjacency sequences and as lists of edges, shared by the graph algorithms. */
module Graphs {
  type Graph = seq<seq<nat>>

  ghost predicate Closed(G: Graph) {
    forall u, k :: 0 <= u < |G| && 0 <= k < |G[u]| ==> G[u][k] < |G|
  }

  ghost predicate Symmetric(G: Graph) {
    forall u, v :: 0 <= u < |G| && 0 <= v < |G| && v in G[u] ==> u in G[v]
  }

  type Edges = seq<(nat, nat)>

  ghost predicate EdgesOn(E: Edges, n: nat) {
    forall i :: 0 <= i < |E| ==> E[i].0 < n && E[i].1 < n
  }
}
