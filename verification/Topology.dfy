/** Triangles with pointers to their neighbours, and the operations that change them in place: the
    split of a triangle at a new vertex and the flip of the edge between two triangles. */
module Topology {

  const NULL: int := -1

  /** A triangle by its three corners and the triangles across its edges.  Edge i joins corners i and
      Two(i); the corner opposite is One(i). */
  datatype Tri = Tri(vtx: seq<nat>, ngh: seq<int>)

  function Mod3(i: nat): nat {
    if i > 2 then i - 3 else i
  }

  function One(o: nat): nat {
    Mod3(o + 1)
  }

  function Two(o: nat): nat {
    Mod3(o + 2)
  }

  predicate Shape(M: seq<Tri>) {
    forall t :: 0 <= t < |M| ==> |M[t].vtx| == |M[t].ngh| == 3
  }

  /** The first edge across which u lies: 3 if it is not a neighbour, when the source aborts. */
  function Locate(tri: Tri, u: int): (i: nat)
    requires |tri.ngh| == 3
    ensures i <= 3 && (i < 3 ==> tri.ngh[i] == u)
  {
    if tri.ngh[0] == u then 0 else if tri.ngh[1] == u then 1 else if tri.ngh[2] == u then 2 else 3
  }

  /** The triangle across edge i of t, if there is one, has t across the same edge. */
  ghost predicate Mutual(M: seq<Tri>, t: nat, i: nat)
    requires Shape(M) && t < |M| && i < 3
  {
    var u := M[t].ngh[i];
    u == NULL || (0 <= u < |M| && u != t &&
      var j := Locate(M[u], t);
      j < 3 && M[u].vtx[j] == M[t].vtx[Two(i)] && M[u].vtx[Two(j)] == M[t].vtx[i])
  }

  /** No neighbour twice. */
  ghost predicate Simple(tri: Tri)
    requires |tri.ngh| == 3
  {
    forall i, j :: 0 <= i < j < 3 && tri.ngh[i] == tri.ngh[j] ==> tri.ngh[i] == NULL
  }

  /** Neighbour pointers are mutual and edge-consistent, and no two triangles share two edges. */
  ghost predicate Mesh(M: seq<Tri>) {
    && Shape(M)
    && (forall t, i :: 0 <= t < |M| && 0 <= i < 3 ==> Mutual(M, t, i))
    && forall t :: 0 <= t < |M| ==> Simple(M[t])
  }

  lemma BackPointer(M: seq<Tri>, t: nat, i: nat)
    requires Mesh(M) && t < |M| && i < 3 && M[t].ngh[i] != NULL
    ensures
      var u := M[t].ngh[i];
      && 0 <= u < |M| && u != t && Locate(M[t], u) == i
      && var j := Locate(M[u], t);
      j < 3 && M[u].ngh[j] == t && M[u].vtx[j] == M[t].vtx[Two(i)] && M[u].vtx[Two(j)] == M[t].vtx[i]
  {
    assert Mutual(M, t, i);
  }

  // ---------- pointer updates ----------

  /** In triangle x, if there is one, the pointer to `from` becomes one to `to`. */
  function Redirect(M: seq<Tri>, x: int, from: int, to: int): (M': seq<Tri>)
    requires Shape(M) && (x != NULL ==> 0 <= x < |M| && Locate(M[x], from) < 3)
    ensures Shape(M') && |M'| == |M|
  {
    if x == NULL then M else M[x := M[x].(ngh := M[x].ngh[Locate(M[x], from) := to])]
  }

  function SetEdge(M: seq<Tri>, t: nat, i: nat, u: int): (M': seq<Tri>)
    requires Shape(M) && t < |M| && i < 3
    ensures Shape(M') && |M'| == |M|
  {
    M[t := M[t].(ngh := M[t].ngh[i := u])]
  }

  function SetCorner(M: seq<Tri>, t: nat, i: nat, v: nat): (M': seq<Tri>)
    requires Shape(M) && t < |M| && i < 3
    ensures Shape(M') && |M'| == |M|
  {
    M[t := M[t].(vtx := M[t].vtx[i := v])]
  }

  // ---------- flip ----------

  /** The edge o of t can be flipped: there is a triangle across it, and the four triangles around the
      two are such that no two would share two edges afterwards. */
  ghost predicate CanFlip(M: seq<Tri>, t: nat, o: nat)
    requires Shape(M)
  {
    && t < |M| && o < 3 && 0 <= M[t].ngh[o] < |M|
    && var u := M[t].ngh[o];
    var so := Locate(M[u], t);
    && so < 3
    && var t1, t2 := M[t].ngh[One(o)], M[u].ngh[One(so)];
    && (t1 == NULL || (t1 != t2 && t1 != M[u].ngh[Two(so)]))
    && (t2 == NULL || t2 != M[t].ngh[Two(o)])
  }

  /** The two triangles after the flip, as they should be: the shared edge now joins the two corners
      that were opposite it. */
  function FlippedNear(M: seq<Tri>, t: nat, o: nat, u: nat, so: nat): Tri
    requires Shape(M) && t < |M| && u < |M| && o < 3 && so < 3
  {
    Tri(M[t].vtx[o := M[u].vtx[One(so)]], M[t].ngh[o := M[u].ngh[One(so)]][One(o) := u])
  }

  /** The writes of the source, in its order. */
  function Flip(M: seq<Tri>, t: nat, o: nat): (M': seq<Tri>)
    requires Mesh(M) && CanFlip(M, t, o)
    ensures Shape(M') && |M'| == |M|
  {
    BackPointer(M, t, o);
    var u := M[t].ngh[o];
    var so := Locate(M[u], t);
    var (t1, t2) := (M[t].ngh[One(o)], M[u].ngh[One(so)]);
    var (v1, v2) := (M[t].vtx[One(o)], M[u].vtx[One(so)]);
    assert (t1 != NULL ==> Mutual(M, t, One(o))) && (t2 != NULL ==> Mutual(M, u, One(so)));
    var M1 := SetEdge(SetCorner(M, t, o, v2), t, o, t2);
    var M2 := SetEdge(Redirect(M1, t2, u, t), t, One(o), u);
    var M3 := SetEdge(SetCorner(M2, u, so, v1), u, so, t1);
    SetEdge(Redirect(M3, t1, t, u), u, One(so), t)
  }

  /** In triangle x, if there is one, only the pointer to `from` has changed, to `to`. */
  ghost predicate Redirected(M: seq<Tri>, M': seq<Tri>, x: int, from: int, to: int)
    requires Shape(M) && |M'| == |M|
  {
    x == NULL || (0 <= x < |M| && Locate(M[x], from) < 3
      && M'[x] == M[x].(ngh := M[x].ngh[Locate(M[x], from) := to]))
  }

  /** Which triangles a flip changes, and to what. */
  lemma FlipIs(M: seq<Tri>, t: nat, o: nat)
    requires Mesh(M) && CanFlip(M, t, o)
    ensures
      var u := M[t].ngh[o];
      var so := Locate(M[u], t);
      var (t1, t2) := (M[t].ngh[One(o)], M[u].ngh[One(so)]);
      var M' := Flip(M, t, o);
      && u != t && t1 != t && t1 != u && t2 != t && t2 != u && Locate(M[t], u) == o
      && M'[t] == FlippedNear(M, t, o, u, so) && M'[u] == FlippedNear(M, u, so, t, o)
      && Redirected(M, M', t1, t, u) && Redirected(M, M', t2, u, t)
      && forall x :: 0 <= x < |M| && x != t && x != u && x != t1 && x != t2 ==> M'[x] == M[x]
  {
    BackPointer(M, t, o);
    var u := M[t].ngh[o];
    var so := Locate(M[u], t);
    assert Mutual(M, t, One(o)) && Mutual(M, u, One(so));
    assert Simple(M[t]) && Simple(M[u]);
  }

  /** M' is M with the edge between t and u flipped; t1 and t2 are the neighbours that change hands. */
  ghost predicate IsFlip(M: seq<Tri>, M': seq<Tri>, t: nat, o: nat, u: nat, so: nat) {
    && Mesh(M) && Shape(M') && |M'| == |M| && t < |M| && u < |M| && t != u && o < 3 && so < 3
    && M[t].ngh[o] == u && M[u].ngh[so] == t
    && M[u].vtx[so] == M[t].vtx[Two(o)] && M[u].vtx[Two(so)] == M[t].vtx[o]
    && var t1, t2 := M[t].ngh[One(o)], M[u].ngh[One(so)];
    && t1 != t && t1 != u && t2 != t && t2 != u
    && (t1 == NULL || (t1 != t2 && t1 != M[u].ngh[Two(so)])) && (t2 == NULL || t2 != M[t].ngh[Two(o)])
    && M'[t] == FlippedNear(M, t, o, u, so) && M'[u] == FlippedNear(M, u, so, t, o)
    && Redirected(M, M', t1, t, u) && Redirected(M, M', t2, u, t)
    && forall x :: 0 <= x < |M| && x != t && x != u && x != t1 && x != t2 ==> M'[x] == M[x]
  }

  /** Neither of t1 and t2 was a neighbour of the triangle it becomes a neighbour of. */
  lemma NewNeighbours(M: seq<Tri>, M': seq<Tri>, t: nat, o: nat, u: nat, so: nat)
    requires IsFlip(M, M', t, o, u, so)
    ensures
      var t1, t2 := M[t].ngh[One(o)], M[u].ngh[One(so)];
      && (t1 != NULL ==> 0 <= t1 < |M| && u !in M[t1].ngh)
      && (t2 != NULL ==> 0 <= t2 < |M| && t !in M[t2].ngh)
  {
    var t1, t2 := M[t].ngh[One(o)], M[u].ngh[One(so)];
    if t1 != NULL {
      forall i | 0 <= i < 3 ensures M[t1].ngh[i] != u {
        assert Mutual(M, t1, i);
      }
    }
    if t2 != NULL {
      forall i | 0 <= i < 3 ensures M[t2].ngh[i] != t {
        assert Mutual(M, t2, i);
      }
    }
  }

  lemma FlipKeepsSimple(M: seq<Tri>, M': seq<Tri>, t: nat, o: nat, u: nat, so: nat, x: nat)
    requires IsFlip(M, M', t, o, u, so) && x < |M|
    ensures Simple(M'[x])
  {
    NewNeighbours(M, M', t, o, u, so);
    assert Simple(M[x]);
  }

  /** Edges seen from both sides. */
  ghost predicate Pair(M: seq<Tri>, x: nat, i: nat, y: nat, j: nat)
    requires Shape(M) && x < |M| && i < 3
  {
    && y < |M| && j < 3 && x != y && M[x].ngh[i] == y && M[y].ngh[j] == x
    && M[y].vtx[j] == M[x].vtx[Two(i)] && M[y].vtx[Two(j)] == M[x].vtx[i]
  }

  lemma PairIsMutual(M: seq<Tri>, x: nat, i: nat, y: nat, j: nat)
    requires Shape(M) && x < |M| && i < 3 && y < |M| && Simple(M[y]) && Pair(M, x, i, y, j)
    ensures Mutual(M, x, i)
  {
  }

  /** Around the flipped triangles... */
  lemma FlipPairsNear(M: seq<Tri>, M': seq<Tri>, t: nat, o: nat, u: nat, so: nat)
    requires IsFlip(M, M', t, o, u, so)
    ensures
      var t2, t3 := M[u].ngh[One(so)], M[t].ngh[Two(o)];
      && Pair(M', t, One(o), u, One(so))
      && (t2 != NULL ==> 0 <= t2 < |M| && Pair(M', t, o, t2, Locate(M[t2], u)) && Pair(M', t2, Locate(M[t2], u), t, o))
      && (t3 != NULL ==> 0 <= t3 < |M| && Pair(M', t, Two(o), t3, Locate(M[t3], t)))
  {
    assert Mutual(M, u, One(so)) && Mutual(M, t, Two(o)) && Simple(M[t]);
  }

  /** ... and away from them. */
  lemma FlipPairsFar(M: seq<Tri>, M': seq<Tri>, t: nat, o: nat, u: nat, so: nat, x: nat, i: nat)
    requires IsFlip(M, M', t, o, u, so) && x < |M| && i < 3 && x != t && x != u
    requires M'[x].ngh[i] == M[x].ngh[i] != NULL
    ensures 0 <= M[x].ngh[i] < |M| && Pair(M', x, i, M[x].ngh[i], Locate(M[M[x].ngh[i]], x))
  {
    BackPointer(M, x, i);
    var y := M[x].ngh[i];
    if y == t {
      FlipPairBeside(M, M', t, o, u, so, x, i);
    } else if y == u {
      FlipMirrored(M, M', t, o, u, so);
      FlipPairBeside(M, M', u, so, t, o, x, i);
    } else {
      hide Mesh, FlippedNear;
      OutsideFlip(M, M', t, o, u, so, x);
      OutsideFlip(M, M', t, o, u, so, y);
    }
  }

  lemma FlipMirrored(M: seq<Tri>, M': seq<Tri>, t: nat, o: nat, u: nat, so: nat)
    requires IsFlip(M, M', t, o, u, so)
    ensures IsFlip(M, M', u, so, t, o)
  {
    hide Mutual, Simple;
  }

  /** Triangles other than the two keep their corners, and their pointers but for those to the two. */
  lemma OutsideFlip(M: seq<Tri>, M': seq<Tri>, t: nat, o: nat, u: nat, so: nat, x: nat)
    requires IsFlip(M, M', t, o, u, so) && x < |M| && x != t && x != u
    ensures |M[x].ngh| == |M'[x].ngh| == 3 && M'[x].vtx == M[x].vtx
    ensures forall i :: 0 <= i < 3 && M[x].ngh[i] != t && M[x].ngh[i] != u ==> M'[x].ngh[i] == M[x].ngh[i]
  {
    hide Mutual, Simple;
  }

  /** A triangle that keeps its pointer to t is across the edge that t keeps. */
  lemma FlipPairBeside(M: seq<Tri>, M': seq<Tri>, t: nat, o: nat, u: nat, so: nat, x: nat, i: nat)
    requires IsFlip(M, M', t, o, u, so) && x < |M| && i < 3 && x != t && x != u
    requires M'[x].ngh[i] == M[x].ngh[i] == t
    ensures Pair(M', x, i, t, Locate(M[t], x))
  {
    BackPointer(M, x, i);
    OutsideFlip(M, M', t, o, u, so, x);
    var j := Locate(M[t], x);
    assert j != One(o) by {
      assert Simple(M[x]);
    }
    hide Mesh;
    assert j == Two(o);
  }

  lemma FlipKeepsMutual(M: seq<Tri>, M': seq<Tri>, t: nat, o: nat, u: nat, so: nat, x: nat, i: nat)
    requires IsFlip(M, M', t, o, u, so) && (forall y :: 0 <= y < |M| ==> Simple(M'[y])) && x < |M| && i < 3
    ensures Mutual(M', x, i)
  {
    if M'[x].ngh[i] != NULL {
      var y: nat, j: nat;
      if x == t {
        y, j := EdgesNear(M, M', t, o, u, so, i);
      } else if x == u {
        FlipMirrored(M, M', t, o, u, so);
        y, j := EdgesNear(M, M', u, so, t, o, i);
      } else if M'[x].ngh[i] == M[x].ngh[i] {
        FlipPairsFar(M, M', t, o, u, so, x, i);
        y, j := M[x].ngh[i], Locate(M[M[x].ngh[i]], x);
      } else {
        y, j := EdgesRedirected(M, M', t, o, u, so, x, i);
      }
      PairIsMutual(M', x, i, y, j);
    }
  }

  /** The other side of an edge of a flipped triangle... */
  lemma EdgesNear(M: seq<Tri>, M': seq<Tri>, t: nat, o: nat, u: nat, so: nat, i: nat) returns (y: nat, j: nat)
    requires IsFlip(M, M', t, o, u, so) && i < 3 && M'[t].ngh[i] != NULL
    ensures Pair(M', t, i, y, j)
  {
    FlipPairsNear(M, M', t, o, u, so);
    var t2 := M[u].ngh[One(so)];
    hide Pair, Mesh, Mutual, Simple, Redirected;
    if i == o {
      y, j := t2, Locate(M[t2], u);
    } else if i == One(o) {
      y, j := u, One(so);
    } else {
      y := M[t].ngh[Two(o)];
      j := Locate(M[y], t);
    }
  }

  /** ... and of an edge whose pointer the flip redirected. */
  lemma EdgesRedirected(M: seq<Tri>, M': seq<Tri>, t: nat, o: nat, u: nat, so: nat, x: nat, i: nat)
    returns (y: nat, j: nat)
    requires IsFlip(M, M', t, o, u, so) && x < |M| && i < 3 && x != t && x != u
    requires M'[x].ngh[i] != M[x].ngh[i] && M'[x].ngh[i] != NULL
    ensures Pair(M', x, i, y, j)
  {
    FlipPairsNear(M, M', t, o, u, so);
    FlipMirrored(M, M', t, o, u, so);
    FlipPairsNear(M, M', u, so, t, o);
    hide Pair, Mesh, Mutual, Simple, FlippedNear;
    if x == M[t].ngh[One(o)] {
      y, j := u, so;
    } else {
      y, j := t, o;
    }
  }

  /** A flip keeps the mesh. */
  lemma FlipKeepsMesh(M: seq<Tri>, t: nat, o: nat)
    requires Mesh(M) && CanFlip(M, t, o)
    ensures Mesh(Flip(M, t, o))
    ensures IsFlip(M, Flip(M, t, o), t, o, M[t].ngh[o], Locate(M[M[t].ngh[o]], t))
  {
    FlipIs(M, t, o);
    BackPointer(M, t, o);
    var M', u := Flip(M, t, o), M[t].ngh[o];
    var so := Locate(M[u], t);
    assert IsFlip(M, M', t, o, u, so);
    hide Flip, CanFlip, IsFlip, Mutual;
    forall x | 0 <= x < |M| ensures Simple(M'[x]) {
      FlipKeepsSimple(M, M', t, o, u, so, x);
    }
    forall x, i | 0 <= x < |M| && 0 <= i < 3 ensures Mutual(M', x, i) {
      FlipKeepsMutual(M, M', t, o, u, so, x, i);
    }
  }

  // ---------- split ----------

  /** Triangles a and b are memory for new ones: nothing points to them yet. */
  ghost predicate CanSplit(M: seq<Tri>, t: nat, a: nat, b: nat) {
    && Mesh(M) && t < |M| && a < |M| && b < |M| && t != a && t != b && a != b
    && (forall i :: 0 <= i < 3 ==> M[a].ngh[i] == NULL && M[b].ngh[i] == NULL)
  }

  lemma UnusedHasNoNeighbours(M: seq<Tri>, a: nat, x: nat)
    requires Mesh(M) && a < |M| && x < |M| && forall i :: 0 <= i < 3 ==> M[a].ngh[i] == NULL
    ensures a !in M[x].ngh
  {
    forall i | 0 <= i < 3 ensures M[x].ngh[i] != a {
      assert Mutual(M, x, i);
    }
  }

  /** The writes of the source, in its order. */
  function Split(M: seq<Tri>, v: nat, t: nat, a: nat, b: nat): (M': seq<Tri>)
    requires CanSplit(M, t, a, b)
    ensures Shape(M') && |M'| == |M|
  {
    var (n, c) := (M[t].ngh, M[t].vtx);
    assert Mutual(M, t, 1) && Mutual(M, t, 2) && Simple(M[t]);
    UnusedHasNoNeighbours(M, a, t);
    UnusedHasNoNeighbours(M, b, t);
    var M1 := SetCorner(SetEdge(SetEdge(M, t, 1, a), t, 2, b), t, 1, v);
    var M2 := M1[a := Tri([c[1], v, c[0]], [n[1], b, t])];
    var M3 := M2[b := Tri([c[2], v, c[1]], [n[2], t, a])];
    Redirect(Redirect(M3, n[1], t, a), n[2], t, b)
  }

  ghost predicate IsSplit(M: seq<Tri>, M': seq<Tri>, v: nat, t: nat, a: nat, b: nat) {
    && CanSplit(M, t, a, b) && Shape(M') && |M'| == |M|
    && var n, c := M[t].ngh, M[t].vtx;
    && M'[t] == Tri([c[0], v, c[2]], [n[0], a, b])
    && M'[a] == Tri([c[1], v, c[0]], [n[1], b, t]) && M'[b] == Tri([c[2], v, c[1]], [n[2], t, a])
    && a !in n && b !in n && t !in n
    && Redirected(M, M', n[1], t, a) && Redirected(M, M', n[2], t, b)
    && forall x :: 0 <= x < |M| && x != t && x != a && x != b && x != n[1] && x != n[2] ==> M'[x] == M[x]
  }

  lemma SplitIs(M: seq<Tri>, v: nat, t: nat, a: nat, b: nat)
    requires CanSplit(M, t, a, b)
    ensures IsSplit(M, Split(M, v, t, a, b), v, t, a, b)
  {
    hide Mutual, Simple;
    SplitSides(M, t, a, b);
  }

  lemma SplitSides(M: seq<Tri>, t: nat, a: nat, b: nat)
    requires CanSplit(M, t, a, b)
    ensures
      var n := M[t].ngh;
      && |n| == 3 && a !in n && b !in n && t !in n && (n[1] == NULL || n[1] != n[2])
      && forall i :: 0 <= i < 3 && n[i] != NULL ==> 0 <= n[i] < |M| && |M[n[i]].ngh| == 3 && Locate(M[n[i]], t) < 3
  {
    UnusedHasNoNeighbours(M, a, t);
    UnusedHasNoNeighbours(M, b, t);
    assert Mutual(M, t, 0) && Mutual(M, t, 1) && Mutual(M, t, 2) && Simple(M[t]);
  }

  lemma SplitKeepsSimple(M: seq<Tri>, M': seq<Tri>, v: nat, t: nat, a: nat, b: nat, x: nat)
    requires IsSplit(M, M', v, t, a, b) && x < |M|
    ensures Simple(M'[x])
  {
    UnusedHasNoNeighbours(M, a, x);
    UnusedHasNoNeighbours(M, b, x);
    assert Simple(M[x]) && Simple(M[t]);
  }

  /** The three new triangles, their neighbours... */
  lemma SplitPairsNear(M: seq<Tri>, M': seq<Tri>, v: nat, t: nat, a: nat, b: nat)
    requires IsSplit(M, M', v, t, a, b)
    ensures Pair(M', t, 1, a, 2) && Pair(M', a, 2, t, 1) && Pair(M', a, 1, b, 2) && Pair(M', b, 2, a, 1)
    ensures Pair(M', b, 1, t, 2) && Pair(M', t, 2, b, 1)
    ensures
      var n := M[t].ngh;
      && (n[0] != NULL ==> 0 <= n[0] < |M| && Pair(M', t, 0, n[0], Locate(M[n[0]], t)))
      && (n[1] != NULL ==>
        0 <= n[1] < |M| && Pair(M', a, 0, n[1], Locate(M[n[1]], t)) && Pair(M', n[1], Locate(M[n[1]], t), a, 0))
      && (n[2] != NULL ==>
        0 <= n[2] < |M| && Pair(M', b, 0, n[2], Locate(M[n[2]], t)) && Pair(M', n[2], Locate(M[n[2]], t), b, 0))
  {
    assert Mutual(M, t, 0) && Mutual(M, t, 1) && Mutual(M, t, 2) && Simple(M[t]);
  }

  /** ... and the edges whose pointers stay. */
  lemma SplitPairsFar(M: seq<Tri>, M': seq<Tri>, v: nat, t: nat, a: nat, b: nat, x: nat, i: nat)
    requires IsSplit(M, M', v, t, a, b) && x < |M| && i < 3 && x != t && x != a && x != b
    requires M'[x].ngh[i] == M[x].ngh[i] != NULL
    ensures 0 <= M[x].ngh[i] < |M| && Pair(M', x, i, M[x].ngh[i], Locate(M[M[x].ngh[i]], x))
  {
    UnusedHasNoNeighbours(M, a, x);
    UnusedHasNoNeighbours(M, b, x);
    assert Mutual(M, x, i) && Mutual(M, t, 0) && Mutual(M, t, 1) && Mutual(M, t, 2);
    assert Simple(M[x]) && Simple(M[t]);
  }

  lemma SplitEdgesChanged(M: seq<Tri>, M': seq<Tri>, v: nat, t: nat, a: nat, b: nat, x: nat, i: nat)
    returns (y: nat, j: nat)
    requires IsSplit(M, M', v, t, a, b) && x < |M| && i < 3 && M'[x].ngh[i] != NULL
    requires x == t || x == a || x == b || M'[x].ngh[i] != M[x].ngh[i]
    ensures Pair(M', x, i, y, j)
  {
    SplitPairsNear(M, M', v, t, a, b);
    var n := M[t].ngh;
    hide Pair, Mesh, Mutual, Simple, CanSplit;
    if x == t || x == a || x == b {
      var outer := if x == t then n[0] else if x == a then n[1] else n[2];
      var next, last := if x == t then a else if x == a then b else t, if x == t then b else if x == a then t else a;
      y := if i == 0 then outer else if i == 1 then next else last;
      j := if i == 0 then Locate(M[outer], t) else if i == 1 then 2 else 1;
    } else {
      y, j := if x == n[1] then a else b, 0;
    }
  }

  /** A split keeps the mesh. */
  lemma SplitKeepsMesh(M: seq<Tri>, v: nat, t: nat, a: nat, b: nat)
    requires CanSplit(M, t, a, b)
    ensures Mesh(Split(M, v, t, a, b)) && IsSplit(M, Split(M, v, t, a, b), v, t, a, b)
  {
    SplitIs(M, v, t, a, b);
    var M' := Split(M, v, t, a, b);
    hide Split, IsSplit, Mutual;
    forall x | 0 <= x < |M| ensures Simple(M'[x]) {
      SplitKeepsSimple(M, M', v, t, a, b, x);
    }
    forall x, i | 0 <= x < |M| && 0 <= i < 3 ensures Mutual(M', x, i) {
      SplitKeepsMutual(M, M', v, t, a, b, x, i);
    }
  }

  lemma SplitKeepsMutual(M: seq<Tri>, M': seq<Tri>, v: nat, t: nat, a: nat, b: nat, x: nat, i: nat)
    requires IsSplit(M, M', v, t, a, b) && (forall y :: 0 <= y < |M| ==> Simple(M'[y])) && x < |M| && i < 3
    ensures Mutual(M', x, i)
  {
    if M'[x].ngh[i] != NULL {
      if x != t && x != a && x != b && M'[x].ngh[i] == M[x].ngh[i] {
        SplitPairsFar(M, M', v, t, a, b, x, i);
        PairIsMutual(M', x, i, M[x].ngh[i], Locate(M[M[x].ngh[i]], x));
      } else {
        var y, j := SplitEdgesChanged(M, M', v, t, a, b, x, i);
        PairIsMutual(M', x, i, y, j);
      }
    }
  }

  // ---------- from vertices to triangles ----------

  /** Every vertex of the mesh points to one of its own triangles. */
  ghost predicate Anchored(M: seq<Tri>, at: seq<int>, placed: set<nat>) {
    forall x :: x in placed ==> x < |at| && 0 <= at[x] < |M| && x in M[at[x]].vtx
  }

  ghost predicate CornersIn(M: seq<Tri>, n: nat) {
    forall t, i :: 0 <= t < |M| && 0 <= i < |M[t].vtx| ==> M[t].vtx[i] < n
  }

  lemma FlipKeepsAnchors(M: seq<Tri>, at: seq<int>, placed: set<nat>, t: nat, o: nat)
    requires Mesh(M) && CanFlip(M, t, o) && Anchored(M, at, placed) && CornersIn(M, |at|)
    ensures
      var u := M[t].ngh[o];
      Anchored(Flip(M, t, o), at[M[t].vtx[o] := u][M[u].vtx[Locate(M[u], t)] := t], placed)
        && CornersIn(Flip(M, t, o), |at|)
  {
    FlipKeepsMesh(M, t, o);
    var M', u := Flip(M, t, o), M[t].ngh[o];
    var so := Locate(M[u], t);
    hide Flip, CanFlip, Mesh, Simple, Redirected;
    FlippedCorners(M, M', t, o, u, so, |at|);
    hide IsFlip, FlippedNear, CornersIn;
    var at' := at[M[t].vtx[o] := u][M[u].vtx[so] := t];
    forall x | x in placed ensures x < |at| && 0 <= at'[x] < |M| && x in M'[at'[x]].vtx {
      if x != M[t].vtx[o] && x != M[u].vtx[so] {
        CornersKept(M, M', t, o, u, so, at[x], x);
      }
    }
  }

  /** Where the corners that leave a triangle are afterwards; no corner is new. */
  lemma FlippedCorners(M: seq<Tri>, M': seq<Tri>, t: nat, o: nat, u: nat, so: nat, n: nat)
    requires IsFlip(M, M', t, o, u, so) && CornersIn(M, n)
    ensures |M'| == |M| && t < |M| && u < |M| && o < 3 && so < 3 && Shape(M) && Shape(M') && CornersIn(M', n)
    ensures M[t].vtx[o] in M'[u].vtx && M[u].vtx[so] in M'[t].vtx
    ensures M[t].vtx[o] < n && M[u].vtx[so] < n
  {
    assert M'[u].vtx[Two(so)] == M[t].vtx[o] && M'[t].vtx[Two(o)] == M[u].vtx[so];
  }

  lemma CornersKept(M: seq<Tri>, M': seq<Tri>, t: nat, o: nat, u: nat, so: nat, y: nat, x: nat)
    requires IsFlip(M, M', t, o, u, so) && y < |M| && x in M[y].vtx && x != M[t].vtx[o] && x != M[u].vtx[so]
    ensures x in M'[y].vtx
  {
    var i :| 0 <= i < 3 && M[y].vtx[i] == x;
    assert M'[y].vtx[i] == x;
  }

  // ---------- in place ----------

  class Triangulation {
    var tri: array<Tri>
    /** The triangle a vertex points to. */
    var at: array<int>
    /** The vertices of the mesh. */
    ghost var placed: set<nat>

    ghost predicate Valid()
      reads this, tri, at
    {
      Mesh(tri[..]) && Anchored(tri[..], at[..], placed) && CornersIn(tri[..], at.Length)
    }

    constructor (tri: array<Tri>, at: array<int>, ghost placed: set<nat>)
      ensures this.tri == tri && this.at == at && this.placed == placed
    {
      this.tri, this.at, this.placed := tri, at, placed;
    }

    method SetNgh(t: nat, i: nat, u: int)
      requires Shape(tri[..]) && t < tri.Length && i < 3
      modifies tri
      ensures tri[..] == SetEdge(old(tri[..]), t, i, u)
    {
      tri[t] := tri[t].(ngh := tri[t].ngh[i := u]);
    }

    method SetVtx(t: nat, i: nat, v: nat)
      requires Shape(tri[..]) && t < tri.Length && i < 3
      modifies tri
      ensures tri[..] == SetCorner(old(tri[..]), t, i, v)
    {
      tri[t] := tri[t].(vtx := tri[t].vtx[i := v]);
    }

    /** update; the source aborts where the pointer is not found. */
    method Update(x: nat, from: int, to: int)
      requires Shape(tri[..]) && x < tri.Length && Locate(tri[x], from) < 3
      modifies tri
      ensures tri[..] == Redirect(old(tri[..]), x, from, to)
    {
      for i := 0 to 3
        invariant tri[..] == old(tri[..]) && Locate(tri[x], from) >= i
      {
        if tri[x].ngh[i] == from {
          SetNgh(x, i, to);
          return;
        }
      }
    }

    /** locate, by its loop. */
    method Find(x: nat, u: int) returns (i: nat)
      requires Shape(tri[..]) && x < tri.Length
      ensures i == Locate(tri[x], u)
    {
      i := 0;
      while i < 3 && tri[x].ngh[i] != u
        invariant i <= 3 && Locate(tri[x], u) >= i
      {
        i := i + 1;
      }
    }

    /** Flips the edge o of triangle t, in place. */
    method FlipEdge(t: nat, o: nat)
      requires Valid() && CanFlip(tri[..], t, o) && tri as object != at
      modifies tri, at
      ensures Valid() && tri[..] == Flip(old(tri[..]), t, o)
      ensures forall x :: 0 <= x < at.Length && at[x] != old(at[x]) ==> at[x] == t || at[x] == old(tri[t].ngh[o])
    {
      ghost var M := tri[..];
      FlipKeepsMesh(M, t, o);
      FlipKeepsAnchors(M, at[..], placed, t, o);
      FlipIs(M, t, o);
      hide Mesh, Anchored, FlippedNear, IsFlip;
      var u := tri[t].ngh[o];
      var so := Find(u, t);
      var t1, t2 := tri[t].ngh[One(o)], tri[u].ngh[One(so)];
      var v1, v2 := tri[t].vtx[One(o)], tri[u].vtx[One(so)];
      at[tri[t].vtx[o]] := u;
      SetVtx(t, o, v2);
      SetNgh(t, o, t2);
      if t2 != NULL {
        Update(t2, u, t);
      }
      SetNgh(t, One(o), u);
      at[tri[u].vtx[so]] := t;
      SetVtx(u, so, v1);
      SetNgh(u, so, t1);
      if t1 != NULL {
        Update(t1, t, u);
      }
      SetNgh(u, One(so), t);
    }

    /** Splits triangle t at the new vertex v, in place; a and b are memory for two triangles. */
    method SplitTriangle(v: nat, t: nat, a: nat, b: nat)
      requires Valid() && CanSplit(tri[..], t, a, b) && tri as object != at && v < at.Length
      requires forall x :: x in placed ==> at[x] != a && at[x] != b
      modifies tri, at, `placed
      ensures placed == old(placed) + {v}
      ensures Valid() && tri[..] == Split(old(tri[..]), v, t, a, b)
      ensures forall x :: 0 <= x < at.Length && at[x] != old(at[x]) ==> at[x] == t || at[x] == a
    {
      SplitKeepsMesh(tri[..], v, t, a, b);
      SplitKeepsAnchors(tri[..], at[..], placed, v, t, a, b);
      hide Mesh, Anchored, IsSplit, CornersIn, CanSplit, Split;
      WriteSplit(v, t, a, b);
      placed := placed + {v};
    }

    method WriteSplit(v: nat, t: nat, a: nat, b: nat)
      requires CanSplit(tri[..], t, a, b) && tri as object != at && v < at.Length && tri[t].vtx[1] < at.Length
      modifies tri, at
      ensures tri[..] == Split(old(tri[..]), v, t, a, b) && at[..] == old(at[..])[v := t][old(tri[t].vtx[1]) := a]
    {
      SplitIs(tri[..], v, t, a, b);
      var n, c := tri[t].ngh, tri[t].vtx;
      hide Mesh, IsSplit;
      at[v] := t;
      SetNgh(t, 1, a);
      SetNgh(t, 2, b);
      SetVtx(t, 1, v);
      tri[a] := Tri([c[1], v, c[0]], [n[1], b, t]);
      tri[b] := Tri([c[2], v, c[1]], [n[2], t, a]);
      if n[1] != NULL {
        Update(n[1], t, a);
      }
      if n[2] != NULL {
        Update(n[2], t, b);
      }
      at[c[1]] := a;
    }
  }

  lemma CornerStays(M: seq<Tri>, M': seq<Tri>, v: nat, t: nat, a: nat, b: nat, y: nat, x: nat)
    requires IsSplit(M, M', v, t, a, b) && y < |M| && y != a && y != b && x in M[y].vtx && x != M[t].vtx[1]
    ensures x in M'[y].vtx
  {
  }

  lemma SplitKeepsAnchors(M: seq<Tri>, at: seq<int>, placed: set<nat>, v: nat, t: nat, a: nat, b: nat)
    requires CanSplit(M, t, a, b) && Anchored(M, at, placed) && CornersIn(M, |at|) && v < |at|
    requires forall x :: x in placed ==> at[x] != a && at[x] != b
    ensures
      var M' := Split(M, v, t, a, b);
      Anchored(M', at[v := t][M[t].vtx[1] := a], placed + {v}) && CornersIn(M', |at|)
  {
    SplitIs(M, v, t, a, b);
    var M' := Split(M, v, t, a, b);
    SplitKeepsCorners(M, M', |at|, v, t, a, b);
    hide CornersIn;
    assert M[t].vtx[1] < |at| by { CornerIn(M, |at|, t); }
    var at' := at[v := t][M[t].vtx[1] := a];
    hide Split, Mesh, Mutual, Simple;
    assert M'[t].vtx[1] == v && M'[a].vtx[0] == M[t].vtx[1];
    forall x | x in placed + {v} ensures 0 <= at'[x] < |M| && x in M'[at'[x]].vtx {
      if x != v && x != M[t].vtx[1] {
        CornerStays(M, M', v, t, a, b, at[x], x);
      }
    }
  }

  lemma CornerIn(M: seq<Tri>, n: nat, t: nat)
    requires Shape(M) && CornersIn(M, n) && t < |M|
    ensures M[t].vtx[1] < n
  {
  }

  lemma SplitKeepsCorners(M: seq<Tri>, M': seq<Tri>, n: nat, v: nat, t: nat, a: nat, b: nat)
    requires IsSplit(M, M', v, t, a, b) && CornersIn(M, n) && v < n
    ensures CornersIn(M', n)
  {
  }
}
