/** Paths, connectivity and forests over a list of edges: the reference notions that the two
    union-find algorithms are proved against. */
module Connectivity {
  import opened Graphs

  ghost predicate Adjacent(E: Edges, S: set<nat>, a: nat, b: nat) {
    exists k :: k in S && k < |E| && (E[k] == (a, b) || E[k] == (b, a))
  }

  ghost predicate IsPath(E: Edges, S: set<nat>, p: seq<nat>) {
    p != [] && forall i :: 0 <= i < |p| - 1 ==> Adjacent(E, S, p[i], p[i + 1])
  }

  ghost predicate PathBetween(E: Edges, S: set<nat>, p: seq<nat>, a: nat, b: nat) {
    IsPath(E, S, p) && p[0] == a && p[|p| - 1] == b
  }

  /** Some path from a to b uses only the edges in S. */
  ghost predicate Connected(E: Edges, S: set<nat>, a: nat, b: nat) {
    exists p :: PathBetween(E, S, p, a, b)
  }

  lemma ConnectedRefl(E: Edges, S: set<nat>, a: nat)
    ensures Connected(E, S, a, a)
  {
    assert PathBetween(E, S, [a], a, a);
  }

  lemma ConnectedTrans(E: Edges, S: set<nat>, a: nat, b: nat, c: nat)
    requires Connected(E, S, a, b) && Connected(E, S, b, c)
    ensures Connected(E, S, a, c)
  {
    var p :| PathBetween(E, S, p, a, b);
    var q :| PathBetween(E, S, q, b, c);
    var r := p + q[1..];
    forall i | 0 <= i < |r| - 1 ensures Adjacent(E, S, r[i], r[i + 1]) {
      if i >= |p| - 1 {
        var j := i - (|p| - 1);
        assert Adjacent(E, S, q[j], q[j + 1]);
      }
    }
    assert PathBetween(E, S, r, a, c);
  }

  lemma ConnectedSym(E: Edges, S: set<nat>, a: nat, b: nat)
    requires Connected(E, S, a, b)
    ensures Connected(E, S, b, a)
  {
    var p :| PathBetween(E, S, p, a, b);
    var r := seq(|p|, i requires 0 <= i < |p| => p[|p| - 1 - i]);
    forall i | 0 <= i < |r| - 1 ensures Adjacent(E, S, r[i], r[i + 1]) {
      var j := |p| - 2 - i;
      assert Adjacent(E, S, p[j], p[j + 1]);
    }
    assert PathBetween(E, S, r, b, a);
  }

  lemma ConnectedMono(E: Edges, S: set<nat>, S': set<nat>, a: nat, b: nat)
    requires Connected(E, S, a, b) && S <= S'
    ensures Connected(E, S', a, b)
  {
    var p :| PathBetween(E, S, p, a, b);
    forall i | 0 <= i < |p| - 1 ensures Adjacent(E, S', p[i], p[i + 1]) {
      assert Adjacent(E, S, p[i], p[i + 1]);
    }
    assert PathBetween(E, S', p, a, b);
  }

  lemma EdgeConnects(E: Edges, S: set<nat>, k: nat)
    requires k in S && k < |E|
    ensures Connected(E, S, E[k].0, E[k].1)
  {
    var p := [E[k].0, E[k].1];
    assert Adjacent(E, S, p[0], p[1]);
    assert PathBetween(E, S, p, E[k].0, E[k].1);
  }

  /** A set of vertices that no edge of S leaves cannot be left along S. */
  lemma {:induction false} PathStays(E: Edges, S: set<nat>, inside: nat -> bool, p: seq<nat>, i: nat)
    requires forall k :: k in S && k < |E| ==> inside(E[k].0) == inside(E[k].1)
    requires IsPath(E, S, p) && i < |p|
    ensures inside(p[i]) == inside(p[0])
  {
    if i > 0 {
      PathStays(E, S, inside, p, i - 1);
      assert Adjacent(E, S, p[i - 1], p[i - 1 + 1]);
    }
  }

  lemma ConnectedStays(E: Edges, S: set<nat>, inside: nat -> bool, a: nat, b: nat)
    requires forall k :: k in S && k < |E| ==> inside(E[k].0) == inside(E[k].1)
    requires Connected(E, S, a, b)
    ensures inside(a) == inside(b)
  {
    var p :| PathBetween(E, S, p, a, b);
    PathStays(E, S, inside, p, |p| - 1);
  }

  /** A path that may use one more edge either avoids it or can be cut at its ends. */
  lemma {:induction false} PathWithEdge(E: Edges, S: set<nat>, k: nat, p: seq<nat>, i: nat)
    requires k < |E| && IsPath(E, S + {k}, p) && i < |p|
    ensures
      var (u, v) := E[k];
      || Connected(E, S, p[0], p[i])
      || (Connected(E, S, p[0], u) && Connected(E, S, v, p[i]))
      || (Connected(E, S, p[0], v) && Connected(E, S, u, p[i]))
  {
    var (u, v) := E[k];
    if i == 0 {
      ConnectedRefl(E, S, p[0]);
    } else {
      PathWithEdge(E, S, k, p, i - 1);
      var x, y := p[i - 1], p[i - 1 + 1];
      assert Adjacent(E, S + {k}, x, y);
      ConnectedRefl(E, S, u);
      ConnectedRefl(E, S, v);
      if Adjacent(E, S, x, y) {
        assert PathBetween(E, S, [x, y], x, y);
        StepOn(E, S, p[0], x, y);
        StepOn(E, S, u, x, y);
        StepOn(E, S, v, x, y);
      } else {
        assert (x, y) == (u, v) || (x, y) == (v, u);
      }
    }
  }

  lemma StepOn(E: Edges, S: set<nat>, a: nat, x: nat, y: nat)
    requires Connected(E, S, x, y)
    ensures Connected(E, S, a, x) ==> Connected(E, S, a, y)
  {
    if Connected(E, S, a, x) {
      ConnectedTrans(E, S, a, x, y);
    }
  }

  lemma ConnectedWithEdge(E: Edges, S: set<nat>, k: nat, a: nat, b: nat)
    requires k < |E|
    ensures
      var (u, v) := E[k];
      Connected(E, S + {k}, a, b) <==>
      || Connected(E, S, a, b)
      || (Connected(E, S, a, u) && Connected(E, S, v, b))
      || (Connected(E, S, a, v) && Connected(E, S, u, b))
  {
    var (u, v) := E[k];
    if Connected(E, S + {k}, a, b) {
      var p :| PathBetween(E, S + {k}, p, a, b);
      PathWithEdge(E, S, k, p, |p| - 1);
    }
    EdgeConnects(E, S + {k}, k);
    ConnectedSym(E, S + {k}, u, v);
    if Connected(E, S, a, b) {
      ConnectedMono(E, S, S + {k}, a, b);
    } else if Connected(E, S, a, u) && Connected(E, S, v, b) {
      Bridge(E, S, S + {k}, a, u, v, b);
    } else if Connected(E, S, a, v) && Connected(E, S, u, b) {
      Bridge(E, S, S + {k}, a, v, u, b);
    }
  }

  lemma Bridge(E: Edges, S: set<nat>, S': set<nat>, a: nat, u: nat, v: nat, b: nat)
    requires S <= S' && Connected(E, S, a, u) && Connected(E, S', u, v) && Connected(E, S, v, b)
    ensures Connected(E, S', a, b)
  {
    ConnectedMono(E, S, S', a, u);
    ConnectedMono(E, S, S', v, b);
    ConnectedTrans(E, S', a, u, v);
    ConnectedTrans(E, S', a, v, b);
  }

  /** No edge of S closes a cycle with the others. */
  ghost predicate IsForest(E: Edges, S: set<nat>) {
    forall k :: k in S && k < |E| ==> !Connected(E, S - {k}, E[k].0, E[k].1)
  }

  /** Adding an edge between two components keeps a forest a forest. */
  lemma ForestExtends(E: Edges, S: set<nat>, k: nat)
    requires IsForest(E, S) && k < |E| && k !in S && !Connected(E, S, E[k].0, E[k].1)
    ensures IsForest(E, S + {k})
  {
    var (u, v) := E[k];
    forall j | j in S + {k} && j < |E| ensures !Connected(E, S + {k} - {j}, E[j].0, E[j].1) {
      if j == k {
        assert S + {k} - {k} == S;
      } else {
        var rest := S - {j};
        assert S + {k} - {j} == rest + {k};
        assert rest + {j} == S;
        ConnectedWithEdge(E, rest, k, E[j].0, E[j].1);
        ConnectedWithEdge(E, rest, j, u, v);
        if Connected(E, rest, E[j].0, u) { ConnectedSym(E, rest, E[j].0, u); }
        if Connected(E, rest, E[j].0, v) { ConnectedSym(E, rest, E[j].0, v); }
        if Connected(E, rest, v, E[j].1) { ConnectedSym(E, rest, v, E[j].1); }
        if Connected(E, rest, u, E[j].1) { ConnectedSym(E, rest, u, E[j].1); }
      }
    }
  }

  /** A subset of a forest does not connect the ends of a further edge of the forest. */
  lemma ForestApart(E: Edges, S: set<nat>, T: set<nat>, k: nat)
    requires IsForest(E, S) && T <= S && k in S && k !in T && k < |E|
    ensures !Connected(E, T, E[k].0, E[k].1)
  {
    if Connected(E, T, E[k].0, E[k].1) {
      ConnectedMono(E, T, S - {k}, E[k].0, E[k].1);
    }
  }

  /** S is a forest that joins whatever the edges below m join. */
  ghost predicate Spans(E: Edges, S: set<nat>, m: nat) {
    && IsForest(E, S)
    && forall k :: 0 <= k < m && k < |E| ==> Connected(E, S, E[k].0, E[k].1)
  }

  /** A spanning forest has the components of the whole graph. */
  lemma SpansAll(E: Edges, S: set<nat>, all: set<nat>, a: nat, b: nat)
    requires Spans(E, S, |E|) && S <= all
    ensures Connected(E, all, a, b) <==> Connected(E, S, a, b)
  {
    if Connected(E, all, a, b) {
      var p :| PathBetween(E, all, p, a, b);
      SpansPath(E, S, all, p, |p| - 1);
    }
    if Connected(E, S, a, b) {
      ConnectedMono(E, S, all, a, b);
    }
  }

  lemma {:induction false} SpansPath(E: Edges, S: set<nat>, all: set<nat>, p: seq<nat>, i: nat)
    requires Spans(E, S, |E|) && IsPath(E, all, p) && i < |p|
    ensures Connected(E, S, p[0], p[i])
  {
    if i == 0 {
      ConnectedRefl(E, S, p[0]);
    } else {
      SpansPath(E, S, all, p, i - 1);
      assert Adjacent(E, all, p[i - 1], p[i - 1 + 1]);
      var k :| k in all && k < |E| && (E[k] == (p[i - 1], p[i]) || E[k] == (p[i], p[i - 1]));
      ConnectedSym(E, S, E[k].0, E[k].1);
      ConnectedTrans(E, S, p[0], p[i - 1], p[i]);
    }
  }
}
