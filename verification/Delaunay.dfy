/** Inserting a point into a mesh: explore the cavity of triangles whose circumcircle holds the point,
    reserve its boundary, and, if every boundary vertex was won, split the triangle around the point
    and flip the cavity's triangles in the order in which they were found. */
module Delaunay {
  import opened Topology

  // ---------- the cavity ----------

  /** What the recursive search finds across an edge: nothing, or a triangle entered by its edge o, and
      then what is across its two other edges, in the order of the search. */
  datatype Cavity = Out | In(t: nat, o: nat, first: Cavity, second: Cavity)

  function Preorder(c: Cavity): seq<(nat, nat)> {
    if c.Out? then [] else [(c.t, c.o)] + Preorder(c.first) + Preorder(c.second)
  }

  /** The vertices the search pushes: the corner opposite each entry edge. */
  function Apexes(M: seq<Tri>, c: Cavity): seq<nat>
    requires Shape(M) && Sane(M, c)
  {
    if c.Out? then [] else Apexes(M, c.first) + [M[c.t].vtx[One(c.o)]] + Apexes(M, c.second)
  }

  ghost function Nodes(c: Cavity): set<nat> {
    if c.Out? then {} else {c.t} + Nodes(c.first) + Nodes(c.second)
  }

  predicate Sane(M: seq<Tri>, c: Cavity) {
    c.In? ==> c.t < |M| && c.o < 3 && Sane(M, c.first) && Sane(M, c.second)
  }

  /** No triangle is found twice. */
  ghost predicate Tree(c: Cavity) {
    c.In? ==>
      && Tree(c.first) && Tree(c.second) && Nodes(c.first) !! Nodes(c.second)
      && c.t !in Nodes(c.first) && c.t !in Nodes(c.second)
  }

  /** c is what the search finds at triangle n, coming from triangle `from`; inC are the triangles whose
      circumcircle holds the point. */
  ghost predicate Explores(M: seq<Tri>, inC: set<nat>, n: int, from: nat, c: Cavity)
    requires Shape(M)
    decreases c
  {
    match c
    case Out => n == NULL || (n >= 0 && n !in inC)
    case In(t, o, first, second) =>
      && n == t && t in inC && t < |M| && o < 3 && o == Locate(M[t], from)
      && Explores(M, inC, M[t].ngh[One(o)], t, first) && Explores(M, inC, M[t].ngh[Two(o)], t, second)
  }

  /** The corners opposite the entry edges are in B. */
  ghost predicate Apart(M: seq<Tri>, c: Cavity, B: set<nat>)
    requires Shape(M)
  {
    c.In? ==> c.t < |M| && c.o < 3 && M[c.t].vtx[One(c.o)] in B && Apart(M, c.first, B) && Apart(M, c.second, B)
  }

  lemma {:induction false} NodesInC(M: seq<Tri>, inC: set<nat>, n: int, from: nat, c: Cavity)
    requires Shape(M) && Explores(M, inC, n, from, c)
    ensures Nodes(c) <= inC && Sane(M, c)
    decreases c
  {
    if c.In? {
      NodesInC(M, inC, M[c.t].ngh[One(c.o)], c.t, c.first);
      NodesInC(M, inC, M[c.t].ngh[Two(c.o)], c.t, c.second);
    }
  }

  /** What is found stays the same while its triangles do. */
  lemma {:induction false} ExploresStays(M: seq<Tri>, M': seq<Tri>, inC: set<nat>, n: int, from: nat, c: Cavity,
      B: set<nat>)
    requires Shape(M) && Shape(M') && |M'| == |M| && Explores(M, inC, n, from, c) && Apart(M, c, B)
    requires forall x :: x in Nodes(c) && x < |M| ==> M'[x] == M[x]
    ensures Explores(M', inC, n, from, c) && Apart(M', c, B)
    decreases c
  {
    if c.In? {
      ExploresStays(M, M', inC, M[c.t].ngh[One(c.o)], c.t, c.first, B);
      ExploresStays(M, M', inC, M[c.t].ngh[Two(c.o)], c.t, c.second, B);
    }
  }

  lemma {:induction false} ApexesInB(M: seq<Tri>, c: Cavity, B: set<nat>)
    requires Shape(M) && Sane(M, c) && forall k :: 0 <= k < |Apexes(M, c)| ==> Apexes(M, c)[k] in B
    ensures Apart(M, c, B)
  {
    if c.In? {
      var left, mid, right := Apexes(M, c.first), M[c.t].vtx[One(c.o)], Apexes(M, c.second);
      var all := Apexes(M, c);
      assert all == left + [mid] + right;
      forall k | 0 <= k < |left| ensures left[k] in B {
        assert all[k] == left[k];
      }
      assert all[|left|] == mid;
      forall k | 0 <= k < |right| ensures right[k] in B {
        assert all[|left| + 1 + k] == right[k];
      }
      ApexesInB(M, c.first, B);
      ApexesInB(M, c.second, B);
    }
  }

  // ---------- the search ----------

  datatype Simplex = Simplex(t: nat, o: nat, boundary: bool)

  function Across(M: seq<Tri>, s: Simplex): (r: Simplex)
    requires Mesh(M) && s.t < |M| && s.o < 3
    ensures r.boundary <==> M[s.t].ngh[s.o] == NULL
    ensures !r.boundary ==> r.t == M[s.t].ngh[s.o] < |M| && r.o == Locate(M[r.t], s.t) < 3
  {
    var to := M[s.t].ngh[s.o];
    if to != NULL then
      BackPointer(M, s.t, s.o);
      Simplex(to, Locate(M[to], s.t), false)
    else Simplex(s.t, s.o, true)
  }

  /** The first step of the search. */
  lemma SearchUnfolds(M: seq<Tri>, inC: set<nat>, s: Simplex, from: Simplex, c: Cavity)
    requires Mesh(M) && from.t < |M| && from.o < 3 && s == Across(M, from)
    requires Explores(M, inC, M[from.t].ngh[from.o], from.t, c)
    ensures c.In? <==> !s.boundary && s.t in inC
    ensures Sane(M, c)
    ensures c.Out? ==> Preorder(c) == [] && Apexes(M, c) == []
    ensures c.In? ==>
      && s.t == c.t < |M| && s.o == c.o < 3 && Sane(M, c.first) && Sane(M, c.second)
      && Explores(M, inC, M[s.t].ngh[One(s.o)], s.t, c.first) && Explores(M, inC, M[s.t].ngh[Two(s.o)], s.t, c.second)
      && Preorder(c) == [(s.t, s.o)] + Preorder(c.first) + Preorder(c.second)
      && Apexes(M, c) == Apexes(M, c.first) + [M[s.t].vtx[One(s.o)]] + Apexes(M, c.second)
  {
    NodesInC(M, inC, M[from.t].ngh[from.o], from.t, c);
  }

  lemma Regroup<T>(a: seq<T>, b: seq<T>, c: seq<T>, d: seq<T>)
    ensures a + b + c + d == a + (b + c + d)
  {
  }

  /** The recursive search.  That it ends is the assumption that what it finds is some c. */
  method FindCavity(M: seq<Tri>, inC: set<nat>, s: Simplex, simplices: seq<(nat, nat)>, vertices: seq<nat>,
      ghost from: Simplex, ghost c: Cavity)
    returns (simplices': seq<(nat, nat)>, vertices': seq<nat>)
    requires Mesh(M) && from.t < |M| && from.o < 3 && s == Across(M, from)
    requires Explores(M, inC, M[from.t].ngh[from.o], from.t, c)
    ensures Sane(M, c) && simplices' == simplices + Preorder(c) && vertices' == vertices + Apexes(M, c)
    decreases c
  {
    SearchUnfolds(M, inC, s, from, c);
    hide Mutual, Simple, Locate, Across, Explores, Preorder, Apexes, Sane;
    simplices', vertices' := simplices, vertices;
    if !s.boundary && s.t in inC {
      simplices' := simplices' + [(s.t, s.o)];
      var r := Simplex(s.t, One(s.o), false);
      simplices', vertices' := FindCavity(M, inC, Across(M, r), simplices', vertices', r, c.first);
      vertices' := vertices' + [M[r.t].vtx[r.o]];
      r := Simplex(s.t, Two(s.o), false);
      simplices', vertices' := FindCavity(M, inC, Across(M, r), simplices', vertices', r, c.second);
      Regroup(simplices, [(s.t, s.o)], Preorder(c.first), Preorder(c.second));
      Regroup(vertices, Apexes(M, c.first), [M[s.t].vtx[One(s.o)]], Apexes(M, c.second));
    }
  }

  /** What the search finds from the three edges of t, starting with edge o. */
  ghost predicate IsCavity(M: seq<Tri>, inC: set<nat>, t: nat, o: nat, cs: seq<Cavity>)
    requires Mesh(M)
  {
    && t < |M| && o < 3 && t in inC && |cs| == 3
    && (forall i :: 0 <= i < 3 ==> var e := Mod3(o + i);
      Explores(M, inC, M[t].ngh[e], t, cs[i]) && Tree(cs[i]) && t !in Nodes(cs[i]))
    && Nodes(cs[0]) !! Nodes(cs[1]) && Nodes(cs[0]) !! Nodes(cs[2]) && Nodes(cs[1]) !! Nodes(cs[2])
  }

  ghost predicate AllSane(M: seq<Tri>, cs: seq<Cavity>) {
    Shape(M) && forall i :: 0 <= i < |cs| ==> Sane(M, cs[i])
  }

  /** The simplices found from the first i edges... */
  ghost function Found(cs: seq<Cavity>, i: nat): seq<(nat, nat)>
    requires i <= |cs|
  {
    if i == 0 then [] else Found(cs, i - 1) + Preorder(cs[i - 1])
  }

  /** ... and the vertices pushed. */
  ghost function Pushed(M: seq<Tri>, t: nat, o: nat, cs: seq<Cavity>, i: nat): seq<nat>
    requires t < |M| && o < 3 && i <= |cs| <= 3 && AllSane(M, cs)
  {
    if i == 0 then []
    else Pushed(M, t, o, cs, i - 1) + [M[t].vtx[Mod3(o + i - 1)]] + Apexes(M, cs[i - 1])
  }

  lemma PartsIn(front: seq<nat>, x: nat, back: seq<nat>, B: set<nat>)
    requires forall y :: y in front + [x] + back ==> y in B
    ensures (forall y :: y in front ==> y in B) && x in B && forall k :: 0 <= k < |back| ==> back[k] in B
  {
    var all := front + [x] + back;
    assert all[|front|] == x;
    forall k | 0 <= k < |back| ensures back[k] in B {
      assert all[|front| + 1 + k] == back[k];
    }
  }

  lemma {:induction false} PushedCovers(M: seq<Tri>, t: nat, o: nat, cs: seq<Cavity>, i: nat, B: set<nat>)
    requires t < |M| && o < 3 && i <= |cs| <= 3 && AllSane(M, cs)
    requires forall x :: x in Pushed(M, t, o, cs, i) ==> x in B
    ensures forall k :: 0 <= k < i ==> Apart(M, cs[k], B) && var e := Mod3(o + k); M[t].vtx[e] in B
  {
    if i > 0 {
      hide Apexes, Apart;
      PartsIn(Pushed(M, t, o, cs, i - 1), M[t].vtx[Mod3(o + i - 1)], Apexes(M, cs[i - 1]), B);
      hide Pushed;
      PushedCovers(M, t, o, cs, i - 1, B);
      ApexesInB(M, cs[i - 1], B);
    }
  }

  /** As many vertices as there will be triangles around the point. */
  lemma {:induction false} PushedLength(M: seq<Tri>, t: nat, o: nat, cs: seq<Cavity>, i: nat)
    requires t < |M| && o < 3 && i <= |cs| <= 3 && AllSane(M, cs)
    ensures |Pushed(M, t, o, cs, i)| == |Found(cs, i)| + i
  {
    if i > 0 {
      PushedLength(M, t, o, cs, i - 1);
      SameLength(M, cs[i - 1]);
    }
  }

  /** The triangles of a cavity. */
  ghost function CavityOf(t: nat, cs: seq<Cavity>): set<nat>
    requires |cs| == 3
  {
    {t} + Nodes(cs[0]) + Nodes(cs[1]) + Nodes(cs[2])
  }

  /** The neighbours of X whose circumcircle holds the point are in S. */
  ghost predicate Closed(M: seq<Tri>, inC: set<nat>, X: set<nat>, S: set<nat>)
    requires Shape(M)
  {
    forall x, i :: x in X && x < |M| && 0 <= i < 3 && M[x].ngh[i] in inC ==> M[x].ngh[i] in S
  }

  /** S holds t and, with a triangle, its neighbours whose circumcircle holds the point; and no more than that. */
  ghost predicate LeastClosed(M: seq<Tri>, inC: set<nat>, t: nat, S: set<nat>)
    requires Shape(M)
  {
    && t in S && Closed(M, inC, S, S)
    && forall X: set<nat> :: t in X && Closed(M, inC, X, X) ==> S <= X
  }

  lemma {:induction false} SearchIsClosed(M: seq<Tri>, inC: set<nat>, from: nat, e: nat, c: Cavity, S: set<nat>)
    requires Mesh(M) && from < |M| && e < 3 && Explores(M, inC, M[from].ngh[e], from, c)
    requires from in S && Nodes(c) <= S
    ensures Closed(M, inC, Nodes(c), S)
    decreases c
  {
    if c.In? {
      BackPointer(M, from, e);
      SearchIsClosed(M, inC, c.t, One(c.o), c.first, S);
      SearchIsClosed(M, inC, c.t, Two(c.o), c.second, S);
      forall i | 0 <= i < 3 && M[c.t].ngh[i] in inC ensures M[c.t].ngh[i] in S {
        assert i == c.o || i == One(c.o) || i == Two(c.o);
      }
    }
  }

  lemma {:induction false} SearchIsLeast(M: seq<Tri>, inC: set<nat>, from: nat, e: nat, c: Cavity, X: set<nat>)
    requires Mesh(M) && from < |M| && e < 3 && Explores(M, inC, M[from].ngh[e], from, c)
    requires from in X && Closed(M, inC, X, X)
    ensures Nodes(c) <= X
    decreases c
  {
    if c.In? {
      SearchIsLeast(M, inC, c.t, One(c.o), c.first, X);
      SearchIsLeast(M, inC, c.t, Two(c.o), c.second, X);
    }
  }

  /** The list names each triangle of S once. */
  ghost predicate Lists(list: seq<(nat, nat)>, S: set<nat>) {
    && |list| == |S| && (forall k :: 0 <= k < |list| ==> list[k].0 in S)
    && forall x :: x in S ==> exists k :: 0 <= k < |list| && list[k].0 == x
  }

  lemma ListsBoth(a: seq<(nat, nat)>, b: seq<(nat, nat)>, S: set<nat>, T: set<nat>)
    requires Lists(a, S) && Lists(b, T) && S !! T
    ensures Lists(a + b, S + T)
  {
    forall x | x in S + T ensures exists k :: 0 <= k < |a + b| && (a + b)[k].0 == x {
      if x in S {
        var k :| 0 <= k < |a| && a[k].0 == x;
        assert (a + b)[k].0 == x;
      } else {
        var k :| 0 <= k < |b| && b[k].0 == x;
        assert (a + b)[|a| + k].0 == x;
      }
    }
  }

  lemma {:induction false} PreorderLists(c: Cavity)
    requires Tree(c)
    ensures Lists(Preorder(c), Nodes(c))
  {
    if c.In? {
      PreorderLists(c.first);
      PreorderLists(c.second);
      assert Lists([(c.t, c.o)], {c.t}) by {
        assert [(c.t, c.o)][0].0 == c.t;
      }
      ListsBoth([(c.t, c.o)], Preorder(c.first), {c.t}, Nodes(c.first));
      ListsBoth([(c.t, c.o)] + Preorder(c.first), Preorder(c.second), {c.t} + Nodes(c.first), Nodes(c.second));
    }
  }

  lemma NeighboursFound(M: seq<Tri>, inC: set<nat>, t: nat, o: nat, cs: seq<Cavity>)
    requires Mesh(M) && IsCavity(M, inC, t, o, cs)
    ensures Closed(M, inC, {t}, CavityOf(t, cs))
  {
    forall i | 0 <= i < 3 && M[t].ngh[i] in inC ensures M[t].ngh[i] in CavityOf(t, cs) {
      var k := if Mod3(o) == i then 0 else if Mod3(o + 1) == i then 1 else 2;
      assert Mod3(o + k) == i;
      assert cs[k].In? ==> cs[k].t in Nodes(cs[k]);
    }
  }

  lemma FoundLists(cs: seq<Cavity>)
    requires |cs| == 3 && forall i :: 0 <= i < 3 ==> Lists(Preorder(cs[i]), Nodes(cs[i]))
    requires Nodes(cs[0]) !! Nodes(cs[1]) && Nodes(cs[0]) !! Nodes(cs[2]) && Nodes(cs[1]) !! Nodes(cs[2])
    ensures Lists(Found(cs, 3), Nodes(cs[0]) + Nodes(cs[1]) + Nodes(cs[2]))
  {
    hide Lists, Nodes, Preorder;
    ListsBoth(Preorder(cs[0]), Preorder(cs[1]), Nodes(cs[0]), Nodes(cs[1]));
    ListsBoth(Preorder(cs[0]) + Preorder(cs[1]), Preorder(cs[2]), Nodes(cs[0]) + Nodes(cs[1]), Nodes(cs[2]));
    assert Found(cs, 3) == Found(cs, 2) + Preorder(cs[2]);
    assert Found(cs, 2) == Found(cs, 1) + Preorder(cs[1]);
    assert Found(cs, 1) == [] + Preorder(cs[0]) == Preorder(cs[0]);
  }

  lemma CavityIsClosed(M: seq<Tri>, inC: set<nat>, t: nat, o: nat, cs: seq<Cavity>)
    requires Mesh(M) && IsCavity(M, inC, t, o, cs)
    ensures var S := CavityOf(t, cs); Closed(M, inC, S, S)
  {
    var S := CavityOf(t, cs);
    NeighboursFound(M, inC, t, o, cs);
    PartClosed(M, inC, t, o, cs, 0);
    PartClosed(M, inC, t, o, cs, 1);
    PartClosed(M, inC, t, o, cs, 2);
    hide Mesh, IsCavity;
  }

  lemma PartClosed(M: seq<Tri>, inC: set<nat>, t: nat, o: nat, cs: seq<Cavity>, i: nat)
    requires Mesh(M) && IsCavity(M, inC, t, o, cs) && i < 3
    ensures Closed(M, inC, Nodes(cs[i]), CavityOf(t, cs))
  {
    hide Mesh, Closed;
    SearchIsClosed(M, inC, t, Mod3(o + i), cs[i], CavityOf(t, cs));
  }

  lemma CavityIsLeast(M: seq<Tri>, inC: set<nat>, t: nat, o: nat, cs: seq<Cavity>, X: set<nat>)
    requires Mesh(M) && IsCavity(M, inC, t, o, cs) && t in X && Closed(M, inC, X, X)
    ensures CavityOf(t, cs) <= X
  {
    hide Mesh, Closed;
    SearchIsLeast(M, inC, t, Mod3(o), cs[0], X);
    SearchIsLeast(M, inC, t, Mod3(o + 1), cs[1], X);
    SearchIsLeast(M, inC, t, Mod3(o + 2), cs[2], X);
  }

  lemma CavityIsListed(M: seq<Tri>, inC: set<nat>, t: nat, o: nat, cs: seq<Cavity>)
    requires Mesh(M) && IsCavity(M, inC, t, o, cs)
    ensures Lists(Found(cs, 3), CavityOf(t, cs) - {t})
  {
    hide Mesh, Lists, Found, Preorder, Nodes, Explores;
    forall i | 0 <= i < 3 ensures Lists(Preorder(cs[i]), Nodes(cs[i])) {
      PreorderLists(cs[i]);
    }
    FoundLists(cs);
    assert CavityOf(t, cs) - {t} == Nodes(cs[0]) + Nodes(cs[1]) + Nodes(cs[2]);
  }

  /** What is found is, with t, the cavity: all triangles whose circumcircle holds the point that can be reached
      through such triangles; and each is listed once. */
  lemma FoundIsCavity(M: seq<Tri>, inC: set<nat>, t: nat, o: nat, cs: seq<Cavity>)
    requires Mesh(M) && IsCavity(M, inC, t, o, cs)
    ensures LeastClosed(M, inC, t, CavityOf(t, cs)) && Lists(Found(cs, 3), CavityOf(t, cs) - {t})
  {
    assert |cs| == 3;
    hide Mutual, Simple, IsCavity, Closed, Lists, Nodes, Found;
    CavityIsClosed(M, inC, t, o, cs);
    CavityIsListed(M, inC, t, o, cs);
    forall X: set<nat> | t in X && Closed(M, inC, X, X) ensures CavityOf(t, cs) <= X {
      CavityIsLeast(M, inC, t, o, cs, X);
    }
  }

  /** The first half of reserve_for_insert: the simplices to flip and the vertices to reserve. */
  method Collect(M: seq<Tri>, inC: set<nat>, t: nat, o: nat, ghost cs: seq<Cavity>)
    returns (simplices: seq<(nat, nat)>, vertices: seq<nat>)
    requires Mesh(M) && IsCavity(M, inC, t, o, cs)
    ensures AllSane(M, cs) && simplices == Found(cs, 3) && vertices == Pushed(M, t, o, cs, 3)
    ensures LeastClosed(M, inC, t, CavityOf(t, cs)) && Lists(simplices, CavityOf(t, cs) - {t})
  {
    FoundIsCavity(M, inC, t, o, cs);
    hide LeastClosed, Lists, CavityOf;
    forall i | 0 <= i < 3 ensures Sane(M, cs[i]) {
      NodesInC(M, inC, M[t].ngh[Mod3(o + i)], t, cs[i]);
    }
    hide Mesh, Nodes, Tree;
    simplices, vertices := [], [];
    var s := Simplex(t, o, false);
    for i := 0 to 3
      invariant s.t == t && !s.boundary && s.o < 3 && (i < 3 ==> s.o == Mod3(o + i))
      invariant simplices == Found(cs, i) && vertices == Pushed(M, t, o, cs, i)
    {
      vertices := vertices + [M[s.t].vtx[s.o]];
      simplices, vertices := FindCavity(M, inC, Across(M, s), simplices, vertices, s, cs[i]);
      s := Simplex(t, One(s.o), false);
    }
  }

  lemma {:induction false} SameLength(M: seq<Tri>, c: Cavity)
    requires Shape(M) && Sane(M, c)
    ensures |Apexes(M, c)| == |Preorder(c)|
  {
    if c.In? {
      SameLength(M, c.first);
      SameLength(M, c.second);
    }
  }

  // ---------- the ring around the new vertex ----------

  /** A triangle of the ring: its outer edge, and the part of the cavity beyond that edge. */
  datatype Fan = Fan(o: nat, c: Cavity)

  type Ring = map<int, Fan>

  /** Triangle f of the ring has v opposite its outer edge, and its other neighbours in the ring. */
  ghost predicate FanHere(M: seq<Tri>, v: nat, inC: set<nat>, B: set<nat>, R: Ring, f: int)
    requires Shape(M) && f in R
  {
    var o := R[f].o;
    && 0 <= f < |M| && o < 3 && f in inC
    && M[f].vtx[One(o)] == v && M[f].vtx[o] in B && M[f].vtx[Two(o)] in B
    && M[f].ngh[One(o)] in R && M[f].ngh[Two(o)] in R
  }

  /** Beyond its outer edge is the unflipped rest of the cavity. */
  ghost predicate FanBeyond(M: seq<Tri>, inC: set<nat>, B: set<nat>, R: Ring, f: int)
    requires Shape(M) && f in R
  {
    0 <= f < |M| && R[f].o < 3 && Explores(M, inC, M[f].ngh[R[f].o], f, R[f].c) && Apart(M, R[f].c, B)
  }

  /** No triangle is twice in the unflipped rest, and none of the ring is there. */
  ghost predicate Forest(R: Ring) {
    && (forall f :: f in R ==> Tree(R[f].c))
    && (forall f, x :: f in R && x in Nodes(R[f].c) ==> x !in R)
    && forall f, g, x :: f in R && g in R && x in Nodes(R[f].c) && x in Nodes(R[g].c) ==> f == g
  }

  ghost predicate Fans(M: seq<Tri>, v: nat, inC: set<nat>, B: set<nat>, R: Ring)
    requires Shape(M)
  {
    forall f :: f in R ==> FanHere(M, v, inC, B, R, f) && FanBeyond(M, inC, B, R, f)
  }

  /** No other triangle has the new vertex. */
  ghost predicate Elsewhere(M: seq<Tri>, v: nat, R: Ring) {
    forall x :: 0 <= x < |M| && x !in R ==> v !in M[x].vtx
  }

  ghost predicate RingInv(M: seq<Tri>, v: nat, inC: set<nat>, B: set<nat>, R: Ring) {
    Mesh(M) && Forest(R) && Fans(M, v, inC, B, R) && Elsewhere(M, v, R)
  }

  /** The ring after the flip of the first triangle beyond f. */
  ghost function Next(R: Ring, f: int): Ring
    requires f in R && R[f].c.In?
  {
    var c := R[f].c;
    R[f := Fan(R[f].o, c.first)][c.t := Fan(Two(c.o), c.second)]
  }

  lemma NodesOf(c: Cavity)
    requires c.In?
    ensures Nodes(c) == {c.t} + Nodes(c.first) + Nodes(c.second)
  {
  }

  lemma NextForest(R: Ring, f: int)
    requires Forest(R) && f in R && R[f].c.In?
    ensures Forest(Next(R, f)) && R[f].c.t !in R && |Next(R, f)| == |R| + 1
  {
    var c, R' := R[f].c, Next(R, f);
    NodesOf(c);
    assert Tree(c) && c.t in Nodes(c);
    assert R'.Keys == R.Keys + {c.t};
    hide Nodes;
  }

  lemma NotInRing(M: seq<Tri>, v: nat, inC: set<nat>, B: set<nat>, R: Ring, n: int, from: nat, c: Cavity)
    requires RingInv(M, v, inC, B, R) && Explores(M, inC, n, from, c)
    requires forall x :: x in Nodes(c) ==> x !in R
    ensures n !in R
  {
    RingInC(M, v, inC, B, R);
    hide RingInv;
    assert c.In? ==> c.t in Nodes(c);
  }

  lemma RingInC(M: seq<Tri>, v: nat, inC: set<nat>, B: set<nat>, R: Ring)
    requires RingInv(M, v, inC, B, R)
    ensures Shape(M) && forall f :: f in R ==> 0 <= f < |M| && R[f].o < 3 && f in inC
  {
    hide Forest, FanBeyond, Mutual, Simple;
    forall f | f in R ensures 0 <= f < |M| && R[f].o < 3 && f in inC {
      assert FanHere(M, v, inC, B, R, f);
    }
  }

  /** What the invariant says of one triangle of the ring. */
  lemma FanOf(M: seq<Tri>, v: nat, inC: set<nat>, B: set<nat>, R: Ring, f: int)
    requires RingInv(M, v, inC, B, R) && f in R
    ensures Mesh(M) && FanHere(M, v, inC, B, R, f) && FanBeyond(M, inC, B, R, f) && Tree(R[f].c)
    ensures forall x :: x in Nodes(R[f].c) ==> x !in R
    ensures forall g, x :: g in R && x in Nodes(R[f].c) && x in Nodes(R[g].c) ==> f == g
  {
  }

  /** Across the entry edge of the next triangle lies f, with the new vertex opposite; its other
      neighbours are not in the ring, so the flip is possible. */
  lemma EntryCanFlip(M: seq<Tri>, v: nat, inC: set<nat>, B: set<nat>, R: Ring, f: int)
    requires RingInv(M, v, inC, B, R) && f in R && R[f].c.In?
    ensures
      var T, j, o := R[f].c.t, R[f].c.o, R[f].o;
      && 0 <= f < |M| && T < |M| && j < 3 && o < 3 && T !in R
      && M[T].ngh[j] == f && Locate(M[f], T) == o && M[f].vtx[One(o)] == v
      && M[T].ngh[One(j)] !in R && M[T].ngh[Two(j)] !in R
      && CanFlip(M, T, j)
  {
    hide RingInv, Nodes, Mutual, Simple, Tree, Forest, Fans, Elsewhere;
    var c := R[f].c;
    var T, j, o := c.t, c.o, R[f].o;
    FanOf(M, v, inC, B, R, f);
    NodesOf(c);
    BackPointer(M, f, o);
    NotInRing(M, v, inC, B, R, M[T].ngh[One(j)], T, c.first);
    NotInRing(M, v, inC, B, R, M[T].ngh[Two(j)], T, c.second);
  }

  // ---------- a flip, seen from the ring ----------

  /** A part of the cavity that meets none of the four triangles around the flipped edge. */
  lemma AwayStays(M: seq<Tri>, M': seq<Tri>, inC: set<nat>, B: set<nat>, T: nat, j: nat, f: nat, o: nat, n: int,
      from: nat, c: Cavity)
    requires IsFlip(M, M', T, j, f, o) && Explores(M, inC, n, from, c) && Apart(M, c, B)
    requires T !in Nodes(c) && f !in Nodes(c) && M[T].ngh[One(j)] !in Nodes(c) && M[f].ngh[One(o)] !in Nodes(c)
    ensures Explores(M', inC, n, from, c) && Apart(M', c, B)
  {
    hide Mutual, Simple, Nodes, Explores, Apart;
    ExploresStays(M, M', inC, n, from, c, B);
  }

  /** The part beyond the flipped triangle's first edge is beyond f afterwards. */
  lemma FirstMoves(M: seq<Tri>, M': seq<Tri>, inC: set<nat>, B: set<nat>, T: nat, j: nat, f: nat, o: nat, d: Cavity)
    requires IsFlip(M, M', T, j, f, o) && Explores(M, inC, M[T].ngh[One(j)], T, d) && Apart(M, d, B) && Tree(d)
    requires T !in Nodes(d) && f !in Nodes(d) && M[f].ngh[One(o)] !in Nodes(d)
    ensures Explores(M', inC, M[T].ngh[One(j)], f, d) && Apart(M', d, B)
  {
    if d.In? {
      var t1 := M[T].ngh[One(j)];
      assert t1 == d.t && d.o == Locate(M[t1], T);
      NodesOf(d);
      AwayStays(M, M', inC, B, T, j, f, o, M[t1].ngh[One(d.o)], t1, d.first);
      AwayStays(M, M', inC, B, T, j, f, o, M[t1].ngh[Two(d.o)], t1, d.second);
      RedirectedHere(M, M', T, j, f, o);
      hide Nodes, Tree, IsFlip;
    }
  }

  lemma RedirectedHere(M: seq<Tri>, M': seq<Tri>, T: nat, j: nat, f: nat, o: nat)
    requires IsFlip(M, M', T, j, f, o) && M[T].ngh[One(j)] != NULL
    ensures
      var t1 := M[T].ngh[One(j)];
      && 0 <= t1 < |M| && Locate(M'[t1], f) == Locate(M[t1], T) && M'[t1].vtx == M[t1].vtx
      && forall i :: 0 <= i < 3 && i != Locate(M[t1], T) ==> M'[t1].ngh[i] == M[t1].ngh[i]
  {
    NewNeighbours(M, M', T, j, f, o);
  }

  /** A flip of the next triangle beyond f. */
  ghost predicate RingFlip(M: seq<Tri>, M': seq<Tri>, R: Ring, f: int) {
    && f in R && R[f].c.In? && 0 <= f < |M| && R[f].o < 3
    && var T, j, o := R[f].c.t, R[f].c.o, R[f].o;
    && T < |M| && j < 3 && IsFlip(M, M', T, j, f, o) && T !in R
  }

  lemma NextIs(R: Ring, f: int)
    requires f in R && R[f].c.In? && R[f].c.t !in R
    ensures
      var c, R' := R[f].c, Next(R, f);
      && R'.Keys == R.Keys + {c.t} && R'[f] == Fan(R[f].o, c.first) && R'[c.t] == Fan(Two(c.o), c.second)
      && forall g :: g in R && g != f ==> R'[g] == R[g]
  {
  }

  /** The two flipped triangles, field by field. */
  lemma FlippedFields(M: seq<Tri>, M': seq<Tri>, T: nat, j: nat, f: nat, o: nat)
    requires IsFlip(M, M', T, j, f, o)
    ensures M'[f].vtx[o] == M[T].vtx[One(j)] && M'[f].vtx[One(o)] == M[f].vtx[One(o)]
      && M'[f].vtx[Two(o)] == M[f].vtx[Two(o)]
    ensures M'[f].ngh[o] == M[T].ngh[One(j)] && M'[f].ngh[One(o)] == T && M'[f].ngh[Two(o)] == M[f].ngh[Two(o)]
    ensures M'[T].vtx[j] == M[f].vtx[One(o)] && M'[T].vtx[One(j)] == M[T].vtx[One(j)]
      && M'[T].vtx[Two(j)] == M[f].vtx[o]
    ensures M'[T].ngh[j] == M[f].ngh[One(o)] && M'[T].ngh[One(j)] == f && M'[T].ngh[Two(j)] == M[T].ngh[Two(j)]
    ensures One(Two(j)) == j && Two(Two(j)) == One(j)
    ensures T < |M'| == |M| && Shape(M') && f < |M|
  {
  }

  /** A triangle of the ring other than the flipped one changes at most in one pointer. */
  lemma OtherFields(M: seq<Tri>, M': seq<Tri>, T: nat, j: nat, f: nat, o: nat, g: nat)
    requires IsFlip(M, M', T, j, f, o) && g < |M| && g != T && g != f && g != M[T].ngh[One(j)]
    ensures M'[g].vtx == M[g].vtx
    ensures forall i :: 0 <= i < 3 && M'[g].ngh[i] != M[g].ngh[i] ==> M'[g].ngh[i] == T && M[g].ngh[i] == f
  {
  }

  /** The first triangle beyond is not in other parts of the cavity. */
  lemma FirstNotIn(M: seq<Tri>, inC: set<nat>, n: int, from: nat, d: Cavity, t: int, from': nat, first: Cavity)
    requires Shape(M) && Explores(M, inC, n, from, d) && Explores(M, inC, t, from', first)
    requires Nodes(d) !! Nodes(first)
    ensures t !in Nodes(d)
  {
    NodesInC(M, inC, n, from, d);
    if first.In? {
      NodesOf(first);
    }
  }

  lemma FirstFan(M: seq<Tri>, M': seq<Tri>, v: nat, inC: set<nat>, B: set<nat>, R: Ring, f: int)
    requires RingInv(M, v, inC, B, R) && RingFlip(M, M', R, f)
    ensures |M'| == |M| && Shape(M') && FanBeyond(M', inC, B, Next(R, f), f)
  {
    var c := R[f].c;
    FanOf(M, v, inC, B, R, f);
    NodesOf(c);
    NextIs(R, f);
    FlippedFields(M, M', c.t, c.o, f, R[f].o);
    hide RingInv, Nodes, Mesh, Next;
    FirstMoves(M, M', inC, B, c.t, c.o, f, R[f].o, c.first);
  }

  lemma SecondFan(M: seq<Tri>, M': seq<Tri>, v: nat, inC: set<nat>, B: set<nat>, R: Ring, f: int)
    requires RingInv(M, v, inC, B, R) && RingFlip(M, M', R, f)
    ensures |M'| == |M| && Shape(M') && FanBeyond(M', inC, B, Next(R, f), R[f].c.t)
  {
    var c := R[f].c;
    FanOf(M, v, inC, B, R, f);
    NodesOf(c);
    NextIs(R, f);
    FlippedFields(M, M', c.t, c.o, f, R[f].o);
    hide RingInv, Nodes, Mesh, Next;
    FirstNotIn(M, inC, M[c.t].ngh[Two(c.o)], c.t, c.second, M[c.t].ngh[One(c.o)], c.t, c.first);
    AwayStays(M, M', inC, B, c.t, c.o, f, R[f].o, M[c.t].ngh[Two(c.o)], c.t, c.second);
  }

  lemma OtherFan(M: seq<Tri>, M': seq<Tri>, v: nat, inC: set<nat>, B: set<nat>, R: Ring, f: int, g: int)
    requires RingInv(M, v, inC, B, R) && RingFlip(M, M', R, f) && g in R && g != f
    ensures |M'| == |M| && Shape(M') && FanBeyond(M', inC, B, Next(R, f), g) && FanHere(M', v, inC, B, Next(R, f), g)
  {
    var c := R[f].c;
    FanOf(M, v, inC, B, R, f);
    FanOf(M, v, inC, B, R, g);
    NodesOf(c);
    OuterStays(M, M', v, inC, B, R, f, g);
    NextIs(R, f);
    FlippedFields(M, M', c.t, c.o, f, R[f].o);
    hide RingInv, Nodes, Mesh, Next;
    FirstNotIn(M, inC, M[g].ngh[R[g].o], g, R[g].c, M[c.t].ngh[One(c.o)], c.t, c.first);
    AwayStays(M, M', inC, B, c.t, c.o, f, R[f].o, M[g].ngh[R[g].o], g, R[g].c);
    hide Explores, Apart, Tree, IsFlip;
  }

  /** The outer edge of another triangle of the ring is not touched. */
  lemma OuterStays(M: seq<Tri>, M': seq<Tri>, v: nat, inC: set<nat>, B: set<nat>, R: Ring, f: int, g: int)
    requires RingInv(M, v, inC, B, R) && RingFlip(M, M', R, f) && g in R && g != f
    ensures 0 <= g < |M| == |M'| && R[g].o < 3 && |M'[g].ngh| == 3
    ensures M'[g].ngh[R[g].o] == M[g].ngh[R[g].o] && M'[g].vtx == M[g].vtx
    ensures forall i :: 0 <= i < 3 && M'[g].ngh[i] != M[g].ngh[i] ==> M'[g].ngh[i] == R[f].c.t
  {
    FanOf(M, v, inC, B, R, f);
    FanOf(M, v, inC, B, R, g);
    var c := R[f].c;
    NodesOf(c);
    NotInRing(M, v, inC, B, R, M[g].ngh[R[g].o], g, R[g].c);
    NotInRing(M, v, inC, B, R, M[c.t].ngh[One(c.o)], c.t, c.first);
    FlippedFields(M, M', c.t, c.o, f, R[f].o);
    OtherFields(M, M', c.t, c.o, f, R[f].o, g);
    hide RingInv, Explores, Apart, Nodes, Mesh, Tree, IsFlip;
  }

  lemma FlippedHere(M: seq<Tri>, M': seq<Tri>, v: nat, inC: set<nat>, B: set<nat>, R: Ring, f: int)
    requires RingInv(M, v, inC, B, R) && RingFlip(M, M', R, f)
    ensures |M'| == |M| && Shape(M') && FanHere(M', v, inC, B, Next(R, f), f)
      && FanHere(M', v, inC, B, Next(R, f), R[f].c.t)
  {
    FanOf(M, v, inC, B, R, f);
    NextIs(R, f);
    var c := R[f].c;
    FlippedFields(M, M', c.t, c.o, f, R[f].o);
    hide RingInv, Mesh, Nodes, Tree, IsFlip, Next;
  }

  /** The ring survives a flip. */
  lemma FlipKeepsRing(M: seq<Tri>, v: nat, inC: set<nat>, B: set<nat>, R: Ring, f: int)
    requires RingInv(M, v, inC, B, R) && f in R && R[f].c.In? && CanFlip(M, R[f].c.t, R[f].c.o)
    ensures RingInv(Flip(M, R[f].c.t, R[f].c.o), v, inC, B, Next(R, f)) && |Next(R, f)| == |R| + 1
  {
    var c := R[f].c;
    EntryCanFlip(M, v, inC, B, R, f);
    FlipKeepsMesh(M, c.t, c.o);
    var M', R' := Flip(M, c.t, c.o), Next(R, f);
    NextForest(R, f);
    RingFlipKeeps(M, M', v, inC, B, R, f);
  }

  lemma RingFlipKeeps(M: seq<Tri>, M': seq<Tri>, v: nat, inC: set<nat>, B: set<nat>, R: Ring, f: int)
    requires RingInv(M, v, inC, B, R) && RingFlip(M, M', R, f) && Forest(Next(R, f)) && Mesh(M')
    ensures RingInv(M', v, inC, B, Next(R, f))
  {
    FansStay(M, M', v, inC, B, R, f);
    ElsewhereStays(M, M', v, inC, B, R, f);
    hide Fans, Elsewhere, Forest, Mesh, Next, IsFlip;
  }

  lemma OtherFans(M: seq<Tri>, M': seq<Tri>, v: nat, inC: set<nat>, B: set<nat>, R: Ring, f: int)
    requires RingInv(M, v, inC, B, R) && RingFlip(M, M', R, f) && Shape(M')
    ensures forall g :: g in R && g != f ==>
      FanHere(M', v, inC, B, Next(R, f), g) && FanBeyond(M', inC, B, Next(R, f), g)
  {
    hide RingInv, FanHere, FanBeyond, IsFlip;
    forall g | g in R && g != f ensures FanHere(M', v, inC, B, Next(R, f), g) && FanBeyond(M', inC, B, Next(R, f), g) {
      OtherFan(M, M', v, inC, B, R, f, g);
    }
  }

  lemma FansStay(M: seq<Tri>, M': seq<Tri>, v: nat, inC: set<nat>, B: set<nat>, R: Ring, f: int)
    requires RingInv(M, v, inC, B, R) && RingFlip(M, M', R, f) && Shape(M')
    ensures Fans(M', v, inC, B, Next(R, f))
  {
    hide RingInv, FanHere, FanBeyond, IsFlip, Shape;
    NextIs(R, f);
    OtherFans(M, M', v, inC, B, R, f);
    FirstFan(M, M', v, inC, B, R, f);
    SecondFan(M, M', v, inC, B, R, f);
    FlippedHere(M, M', v, inC, B, R, f);
    hide RingFlip, Next;
  }

  lemma ElsewhereStays(M: seq<Tri>, M': seq<Tri>, v: nat, inC: set<nat>, B: set<nat>, R: Ring, f: int)
    requires RingInv(M, v, inC, B, R) && RingFlip(M, M', R, f)
    ensures Elsewhere(M', v, Next(R, f))
  {
    hide Mutual, Simple, Nodes, Fans, Forest;
  }

  // ---------- the ring after the split ----------

  /** The unused triangles count as inside: the search never gets there. */
  lemma {:induction false} ExploresWider(M: seq<Tri>, inC: set<nat>, n: int, from: nat, c: Cavity, a: nat)
    requires Mesh(M) && Explores(M, inC, n, from, c) && n != a
    requires a < |M| && forall i :: 0 <= i < 3 ==> M[a].ngh[i] == NULL
    ensures Explores(M, inC + {a}, n, from, c) && a !in Nodes(c)
    decreases c
  {
    if c.In? {
      UnusedHasNoNeighbours(M, a, c.t);
      ExploresWider(M, inC, M[c.t].ngh[One(c.o)], c.t, c.first, a);
      ExploresWider(M, inC, M[c.t].ngh[Two(c.o)], c.t, c.second, a);
    }
  }

  /** What lies beyond edge e of the triangle to split. */
  ghost predicate Beyond(M: seq<Tri>, inC: set<nat>, B: set<nat>, t: nat, c: Cavity, e: nat)
    requires Shape(M) && t < |M| && e < 3
  {
    Explores(M, inC, M[t].ngh[e], t, c) && Apart(M, c, B) && Tree(c)
  }

  /** Three parts, beyond edges 0, 1 and 2, with no triangle in common. */
  ghost predicate Three(M: seq<Tri>, inC: set<nat>, B: set<nat>, t: nat, a: nat, b: nat, ds: seq<Cavity>)
    requires Shape(M)
  {
    && t < |M| && |ds| == 3
    && Beyond(M, inC, B, t, ds[0], 0) && Beyond(M, inC, B, t, ds[1], 1) && Beyond(M, inC, B, t, ds[2], 2)
    && Nodes(ds[0]) !! Nodes(ds[1]) && Nodes(ds[0]) !! Nodes(ds[2]) && Nodes(ds[1]) !! Nodes(ds[2])
    && {t, a, b} !! Nodes(ds[0]) && {t, a, b} !! Nodes(ds[1]) && {t, a, b} !! Nodes(ds[2])
  }

  ghost function FirstRing(t: nat, a: nat, b: nat, ds: seq<Cavity>): Ring
    requires |ds| == 3
  {
    map[t := Fan(0, ds[0]), a := Fan(0, ds[1]), b := Fan(0, ds[2])]
  }

  /** A part whose root may be redirected from t to the new triangle x. */
  lemma PartAfterSplit(M: seq<Tri>, M': seq<Tri>, inC: set<nat>, B: set<nat>, v: nat, t: nat, a: nat, b: nat, e: nat,
      x: nat, c: Cavity)
    requires IsSplit(M, M', v, t, a, b) && e < 3 && x == (if e == 0 then t else if e == 1 then a else b)
    requires Beyond(M, inC, B, t, c, e) && {t, a, b} !! Nodes(c)
    requires (e != 1 ==> M[t].ngh[1] !in Nodes(c)) && (e != 2 ==> M[t].ngh[2] !in Nodes(c))
    ensures Explores(M', inC, M[t].ngh[e], x, c) && Apart(M', c, B)
  {
    if c.In? {
      NodesOf(c);
      var n := M[t].ngh[e];
      assert n == c.t;
      hide Nodes, Mutual;
      ExploresStays(M, M', inC, M[n].ngh[One(c.o)], n, c.first, B);
      ExploresStays(M, M', inC, M[n].ngh[Two(c.o)], n, c.second, B);
      RootAfterSplit(M, M', v, t, a, b, e, x);
      hide IsSplit;
    }
  }

  lemma RootAfterSplit(M: seq<Tri>, M': seq<Tri>, v: nat, t: nat, a: nat, b: nat, e: nat, x: nat)
    requires IsSplit(M, M', v, t, a, b) && e < 3 && x == (if e == 0 then t else if e == 1 then a else b)
    requires 0 <= M[t].ngh[e] < |M|
    ensures
      var n := M[t].ngh[e];
      && Locate(M'[n], x) == Locate(M[n], t) && M'[n].vtx == M[n].vtx
      && forall i :: 0 <= i < 3 && i != Locate(M[n], t) ==> M'[n].ngh[i] == M[n].ngh[i]
  {
    var n := M[t].ngh[e];
    UnusedHasNoNeighbours(M, a, n);
    UnusedHasNoNeighbours(M, b, n);
    assert Simple(M[t]);
  }

  /** Where the edges of t lead, no other part goes. */
  lemma RootsApart(M: seq<Tri>, inC: set<nat>, B: set<nat>, t: nat, a: nat, b: nat, ds: seq<Cavity>)
    requires Shape(M) && Three(M, inC, B, t, a, b, ds)
    ensures forall e, k :: 0 <= e < 3 && 0 <= k < 3 && e != k ==> M[t].ngh[e] !in Nodes(ds[k])
  {
    hide Explores, Apart, Nodes;
    forall e, k | 0 <= e < 3 && 0 <= k < 3 && e != k ensures M[t].ngh[e] !in Nodes(ds[k]) {
      FirstNotIn(M, inC, M[t].ngh[k], t, ds[k], M[t].ngh[e], t, ds[e]);
    }
  }

  lemma FirstForest(t: nat, a: nat, b: nat, ds: seq<Cavity>)
    requires |ds| == 3 && t != a && t != b && a != b && Tree(ds[0]) && Tree(ds[1]) && Tree(ds[2])
    requires Nodes(ds[0]) !! Nodes(ds[1]) && Nodes(ds[0]) !! Nodes(ds[2]) && Nodes(ds[1]) !! Nodes(ds[2])
    requires {t, a, b} !! Nodes(ds[0]) && {t, a, b} !! Nodes(ds[1]) && {t, a, b} !! Nodes(ds[2])
    ensures Forest(FirstRing(t, a, b, ds)) && FirstRing(t, a, b, ds).Keys == {t, a, b} && |FirstRing(t, a, b, ds)| == 3
  {
    hide Nodes, Tree;
    assert FirstRing(t, a, b, ds).Keys == {t, a, b};
  }

  lemma FirstFans(M: seq<Tri>, M': seq<Tri>, inC: set<nat>, B: set<nat>, v: nat, t: nat, a: nat, b: nat, R: Ring)
    requires IsSplit(M, M', v, t, a, b) && R.Keys == {t, a, b} && R[t].o == R[a].o == R[b].o == 0
    requires {t, a, b} <= inC && (forall i :: 0 <= i < 3 ==> M[t].vtx[i] in B)
    ensures forall f :: f in R ==> FanHere(M', v, inC, B, R, f)
  {
    hide Mutual, Simple, Redirected;
    assert t in R && a in R && b in R;
    assert FanHere(M', v, inC, B, R, t) && FanHere(M', v, inC, B, R, a) && FanHere(M', v, inC, B, R, b);
  }

  lemma SplitElsewhere(M: seq<Tri>, M': seq<Tri>, v: nat, t: nat, a: nat, b: nat)
    requires IsSplit(M, M', v, t, a, b)
    requires forall x :: 0 <= x < |M| && x != a && x != b ==> v !in M[x].vtx
    ensures forall x :: 0 <= x < |M'| && x != t && x != a && x != b ==> v !in M'[x].vtx
  {
    hide Mutual, Simple;
  }

  lemma SplitRoots(M: seq<Tri>, M': seq<Tri>, v: nat, t: nat, a: nat, b: nat)
    requires IsSplit(M, M', v, t, a, b)
    ensures t < |M| == |M'| && a < |M| && b < |M| && t != a && t != b && a != b && Shape(M) && Shape(M')
    ensures M'[t].ngh[0] == M[t].ngh[0] && M'[a].ngh[0] == M[t].ngh[1] && M'[b].ngh[0] == M[t].ngh[2]
  {
  }

  lemma FirstBeyond(M: seq<Tri>, M': seq<Tri>, inC: set<nat>, B: set<nat>, v: nat, t: nat, a: nat, b: nat,
      ds: seq<Cavity>)
    requires IsSplit(M, M', v, t, a, b) && Shape(M) && Shape(M') && Three(M, inC, B, t, a, b, ds)
    ensures forall f :: f in FirstRing(t, a, b, ds) ==> FanBeyond(M', inC, B, FirstRing(t, a, b, ds), f)
  {
    hide Explores, Apart, Nodes, Mesh, IsSplit, Beyond;
    SplitRoots(M, M', v, t, a, b);
    RootsApart(M, inC, B, t, a, b, ds);
    PartAfterSplit(M, M', inC, B, v, t, a, b, 0, t, ds[0]);
    PartAfterSplit(M, M', inC, B, v, t, a, b, 1, a, ds[1]);
    PartAfterSplit(M, M', inC, B, v, t, a, b, 2, b, ds[2]);
  }

  /** The split starts the ring: three triangles around the new vertex. */
  lemma SplitMakesRing(M: seq<Tri>, M': seq<Tri>, inC: set<nat>, B: set<nat>, v: nat, t: nat, a: nat, b: nat,
      ds: seq<Cavity>)
    requires IsSplit(M, M', v, t, a, b) && Mesh(M) && Mesh(M') && Three(M, inC, B, t, a, b, ds)
    requires {t, a, b} <= inC && (forall i :: 0 <= i < 3 ==> M[t].vtx[i] in B)
    requires forall x :: 0 <= x < |M| && x != a && x != b ==> v !in M[x].vtx
    ensures RingInv(M', v, inC, B, FirstRing(t, a, b, ds)) && |FirstRing(t, a, b, ds)| == 3
  {
    hide Explores, Apart, Nodes, Mutual, Simple, IsSplit, FanBeyond, FanHere, Forest;
    SplitRoots(M, M', v, t, a, b);
    FirstBeyond(M, M', inC, B, v, t, a, b, ds);
    FirstForest(t, a, b, ds);
    FirstFans(M, M', inC, B, v, t, a, b, FirstRing(t, a, b, ds));
    SplitElsewhere(M, M', v, t, a, b);
  }

  // ---------- what an insertion leaves alone ----------

  /** Outside X triangles keep their corners, and change no pointers but such into X. */
  ghost predicate Outside(M: seq<Tri>, M': seq<Tri>, X: set<int>) {
    && Shape(M) && Shape(M') && |M'| == |M|
    && forall x :: 0 <= x < |M| && x !in X ==> M'[x].vtx == M[x].vtx && SameBut(M[x].ngh, M'[x].ngh, X)
  }

  ghost predicate SameBut(n: seq<int>, n': seq<int>, X: set<int>) {
    |n'| == |n| && forall i :: 0 <= i < |n| ==> n'[i] == n[i] || (n[i] in X && n'[i] in X)
  }

  /** The pointers of the vertices change to triangles of X only. */
  ghost predicate AnchorsInto(at: seq<int>, at': seq<int>, X: set<int>) {
    |at'| == |at| && forall x :: 0 <= x < |at| && at'[x] != at[x] ==> at'[x] in X
  }

  /** All corners of the triangles of X are in B. */
  ghost predicate CornersHeld(M: seq<Tri>, X: set<int>, B: set<nat>)
    requires Shape(M)
  {
    forall x :: x in X ==> 0 <= x < |M| && M[x].vtx[0] in B && M[x].vtx[1] in B && M[x].vtx[2] in B
  }

  /** The search reserves every corner of every triangle it finds. */
  lemma {:induction false} CavityHeld(M: seq<Tri>, inC: set<nat>, n: int, from: nat, c: Cavity, B: set<nat>)
    requires Mesh(M) && Explores(M, inC, n, from, c) && Apart(M, c, B) && from < |M|
    requires c.In? ==> M[from].vtx[0] in B && M[from].vtx[1] in B && M[from].vtx[2] in B
    ensures CornersHeld(M, Nodes(c), B)
    decreases c
  {
    if c.In? {
      BackPointer(M, c.t, c.o);
      var j := Locate(M[from], c.t);
      assert M[c.t].vtx[c.o] == M[from].vtx[Two(j)] && M[c.t].vtx[Two(c.o)] == M[from].vtx[j];
      assert M[c.t].vtx[c.o] in B && M[c.t].vtx[One(c.o)] in B && M[c.t].vtx[Two(c.o)] in B;
      BeyondLocates(M, inC, M[c.t].ngh[One(c.o)], c.t, c.first);
      BeyondLocates(M, inC, M[c.t].ngh[Two(c.o)], c.t, c.second);
      CavityHeld(M, inC, M[c.t].ngh[One(c.o)], c.t, c.first, B);
      CavityHeld(M, inC, M[c.t].ngh[Two(c.o)], c.t, c.second, B);
      CornersUnion(M, c.t, Nodes(c.first), Nodes(c.second), B);
      assert Nodes(c) == {c.t} + Nodes(c.first) + Nodes(c.second);
    }
  }

  lemma CornersUnion(M: seq<Tri>, t: nat, X: set<nat>, Y: set<nat>, B: set<nat>)
    requires Shape(M) && CornersHeld(M, X, B) && CornersHeld(M, Y, B)
    requires t < |M| && M[t].vtx[0] in B && M[t].vtx[1] in B && M[t].vtx[2] in B
    ensures CornersHeld(M, {t} + X + Y, B)
  {
  }

  lemma BeyondLocates(M: seq<Tri>, inC: set<nat>, n: int, from: nat, c: Cavity)
    requires Mesh(M) && Explores(M, inC, n, from, c)
    ensures c.In? ==> Locate(M[c.t], from) < 3
  {
  }

  lemma OutsideTwice(M: seq<Tri>, M': seq<Tri>, M'': seq<Tri>, X: set<int>)
    requires Outside(M, M', X) && Outside(M', M'', X)
    ensures Outside(M, M'', X)
  {
  }

  lemma FlipOutside(M: seq<Tri>, M': seq<Tri>, X: set<int>, t: nat, o: nat, u: nat, so: nat)
    requires IsFlip(M, M', t, o, u, so) && t in X && u in X
    ensures Outside(M, M', X)
  {
    hide Mutual, Simple;
  }

  lemma FlipHolds(M: seq<Tri>, M': seq<Tri>, X: set<int>, B: set<nat>, t: nat, o: nat, u: nat, so: nat)
    requires IsFlip(M, M', t, o, u, so) && t in X && u in X && CornersHeld(M, X, B)
    ensures CornersHeld(M', X, B)
  {
  }

  lemma SplitOutside(M: seq<Tri>, M': seq<Tri>, X: set<int>, v: nat, t: nat, a: nat, b: nat)
    requires IsSplit(M, M', v, t, a, b) && t in X && a in X && b in X
    ensures Outside(M, M', X)
  {
  }

  /** Before the split the memory for new triangles may hold anything. */
  lemma SplitHolds(M: seq<Tri>, M': seq<Tri>, X: set<int>, B: set<nat>, v: nat, t: nat, a: nat, b: nat)
    requires IsSplit(M, M', v, t, a, b) && t in X && CornersHeld(M, X - {a} - {b}, B)
    ensures CornersHeld(M', X, B + {v})
  {
    hide Mutual, Simple;
    assert t in X - {a} - {b};
    forall x | x in X ensures 0 <= x < |M'| && forall i :: 0 <= i < 3 ==> M'[x].vtx[i] in B + {v} {
      if x != t && x != a && x != b {
        assert x in X - {a} - {b} && M'[x].vtx == M[x].vtx;
      }
    }
  }

  /** The ring and what is still to flip are in X. */
  ghost predicate RingWithin(R: Ring, X: set<int>) {
    forall f :: f in R ==> f in X && forall x :: x in Nodes(R[f].c) ==> x in X
  }

  lemma NextWithin(R: Ring, f: int, X: set<int>)
    requires RingWithin(R, X) && f in R && R[f].c.In?
    ensures RingWithin(Next(R, f), X) && R[f].c.t in X
  {
    NodesOf(R[f].c);
  }

  // ---------- the insertion ----------

  /** The simplices still to flip, when the rest of the cavity is explored from the listed triangles of
      the ring in turn. */
  ghost function Queue(R: Ring, stack: seq<int>): seq<(nat, nat)>
    requires forall k :: 0 <= k < |stack| ==> stack[k] in R
  {
    if stack == [] then [] else Preorder(R[stack[0]].c) + Queue(R, stack[1..])
  }

  ghost predicate StackOk(R: Ring, stack: seq<int>) {
    && (forall k :: 0 <= k < |stack| ==> stack[k] in R)
    && forall k, l :: 0 <= k < l < |stack| ==> stack[k] != stack[l]
  }

  lemma {:induction false} QueueStays(R: Ring, R': Ring, stack: seq<int>)
    requires forall k :: 0 <= k < |stack| ==> stack[k] in R && stack[k] in R' && R'[stack[k]] == R[stack[k]]
    ensures Queue(R', stack) == Queue(R, stack)
  {
    if stack != [] {
      QueueStays(R, R', stack[1..]);
    }
  }

  /** Triangles of the ring with nothing beyond them are skipped; the first of the others has the next
      simplex to flip beyond it. */
  lemma {:induction false} NextInQueue(R: Ring, stack: seq<int>) returns (f: int, rest: seq<int>)
    requires StackOk(R, stack) && Queue(R, stack) != []
    ensures f in R && R[f].c.In? && StackOk(R, rest) && f !in rest
    ensures Queue(R, stack) == Preorder(R[f].c) + Queue(R, rest)
    decreases |stack|
  {
    f, rest := stack[0], stack[1..];
    if R[f].c.Out? {
      f, rest := NextInQueue(R, rest);
    }
  }

  lemma PushStack(R: Ring, x: int, stack: seq<int>)
    requires StackOk(R, stack) && x in R && x !in stack
    ensures StackOk(R, [x] + stack) && Queue(R, [x] + stack) == Preorder(R[x].c) + Queue(R, stack)
  {
    assert ([x] + stack)[1..] == stack;
    hide Queue;
    assert forall k :: 0 <= k < |stack| ==> stack[k] in stack;
  }

  /** After its flip, what was beyond it follows, first edge first. */
  lemma QueueAfterFlip(R: Ring, f: int, rest: seq<int>)
    requires f in R && R[f].c.In? && StackOk(R, rest) && f !in rest && R[f].c.t !in R
    ensures StackOk(Next(R, f), [f] + ([R[f].c.t] + rest))
    ensures Preorder(R[f].c) + Queue(R, rest) == [(R[f].c.t, R[f].c.o)] + Queue(Next(R, f), [f] + ([R[f].c.t] + rest))
  {
    var c, R' := R[f].c, Next(R, f);
    NextIs(R, f);
    forall k | 0 <= k < |rest| ensures rest[k] in R && rest[k] in R' && R'[rest[k]] == R[rest[k]] {
      assert rest[k] in rest;
    }
    QueueStays(R, R', rest);
    assert c.t !in rest;
    PushStack(R', c.t, rest);
    PushStack(R', f, [c.t] + rest);
  }

  /** The triangles around v are the n of the ring, and their other corners are in B. */
  ghost predicate Star(M: seq<Tri>, v: nat, B: set<nat>, star: set<int>, n: nat)
    requires Shape(M)
  {
    && |star| == n && (forall x :: x in star <==> 0 <= x < |M| && v in M[x].vtx)
    && forall x, i :: x in star && 0 <= i < 3 ==> M[x].vtx[i] == v || M[x].vtx[i] in B
  }

  lemma RingIsStar(M: seq<Tri>, v: nat, inC: set<nat>, B: set<nat>, R: Ring)
    requires RingInv(M, v, inC, B, R)
    ensures Shape(M) && Star(M, v, B, R.Keys, |R|)
  {
    hide Forest, FanBeyond, Mutual, Simple;
    assert |R.Keys| == |R|;
    forall x | x in R ensures 0 <= x < |M| && v in M[x].vtx {
      assert FanHere(M, v, inC, B, R, x);
    }
    forall x, i | x in R && 0 <= i < 3 ensures M[x].vtx[i] == v || M[x].vtx[i] in B {
      assert FanHere(M, v, inC, B, R, x);
    }
  }

  lemma StackIn(R: Ring, stack: seq<int>)
    requires StackOk(R, stack)
    ensures forall k :: 0 <= k < |stack| ==> stack[k] in R
  {
  }

  lemma NothingChanged(M: seq<Tri>, at: seq<int>, X: set<int>)
    requires Shape(M)
    ensures Outside(M, M, X) && AnchorsInto(at, at, X)
  {
  }

  lemma FlipStaysWithin(M0: seq<Tri>, M: seq<Tri>, v: nat, inC: set<nat>, B: set<nat>, R: Ring, f: int, X: set<int>)
    requires RingInv(M, v, inC, B, R) && f in R && R[f].c.In? && RingWithin(R, X) && Outside(M0, M, X)
    requires CanFlip(M, R[f].c.t, R[f].c.o) && Shape(M) && CornersHeld(M, X, B + {v})
    ensures
      var c := R[f].c;
      && Mesh(M) && c.t in X && f in X && M[c.t].ngh[c.o] == f && RingWithin(Next(R, f), X)
      && Outside(M0, Flip(M, c.t, c.o), X) && CornersHeld(Flip(M, c.t, c.o), X, B + {v})
  {
    var c := R[f].c;
    EntryCanFlip(M, v, inC, B, R, f);
    assert Mesh(M) by { FanOf(M, v, inC, B, R, f); }
    FlipIs(M, c.t, c.o);
    NextWithin(R, f, X);
    var M' := Flip(M, c.t, c.o);
    assert f in X && IsFlip(M, M', c.t, c.o, f, R[f].o) by {
      hide RingInv;
      BackPointer(M, c.t, c.o);
    }
    hide RingInv, Mesh, IsFlip, Outside, CornersHeld, CanFlip, Flip;
    FlipOutside(M, M', X, c.t, c.o, f, R[f].o);
    FlipHolds(M, M', X, B + {v}, c.t, c.o, f, R[f].o);
    OutsideTwice(M0, M, M', X);
  }

  /** Flips the simplices in turn: every flip is possible and adds one triangle to the ring. */
  method FlipAll(m: Triangulation, simplices: seq<(nat, nat)>, ghost v: nat, ghost inC: set<nat>, ghost B: set<nat>,
      ghost R0: Ring, ghost stack0: seq<int>, ghost X: set<int>)
    returns (ghost star: set<int>)
    requires m.Valid() && m.tri as object != m.at && RingInv(m.tri[..], v, inC, B, R0)
    requires StackOk(R0, stack0) && simplices == Queue(R0, stack0)
    requires RingWithin(R0, X) && Shape(m.tri[..]) && CornersHeld(m.tri[..], X, B + {v})
    modifies m.tri, m.at
    ensures m.Valid() && Shape(m.tri[..]) && Star(m.tri[..], v, B, star, |R0| + |simplices|)
    ensures Outside(old(m.tri[..]), m.tri[..], X) && CornersHeld(m.tri[..], X, B + {v})
    ensures AnchorsInto(old(m.at[..]), m.at[..], X)
  {
    hide *;
    ghost var M0, at0 := m.tri[..], m.at[..];
    StackIn(R0, stack0);
    NothingChanged(M0, at0, X);
    ghost var R := R0;
    ghost var stack := stack0;
    for i := 0 to |simplices|
      invariant m.Valid() && RingInv(m.tri[..], v, inC, B, R) && |R| == |R0| + i
      invariant RingWithin(R, X) && Outside(M0, m.tri[..], X) && AnchorsInto(at0, m.at[..], X)
      invariant Shape(m.tri[..]) && CornersHeld(m.tri[..], X, B + {v})
      invariant StackOk(R, stack) && (forall k :: 0 <= k < |stack| ==> stack[k] in R)
        && simplices[i..] == Queue(R, stack)
    {
      ghost var f, rest := NextInQueue(R, stack);
      EntryCanFlip(m.tri[..], v, inC, B, R, f);
      FlipKeepsRing(m.tri[..], v, inC, B, R, f);
      QueueAfterFlip(R, f, rest);
      assert simplices[i] == (R[f].c.t, R[f].c.o);
      ghost var M, at := m.tri[..], m.at[..];
      FlipStaysWithin(M0, M, v, inC, B, R, f, X);
      m.FlipEdge(simplices[i].0, simplices[i].1);
      IntoX(at, m.at[..], X, R[f].c.t, f);
      IntoTwice(at0, at, m.at[..], X);
      stack := [f] + ([R[f].c.t] + rest);
      R := Next(R, f);
    }
    RingIsStar(m.tri[..], v, inC, B, R);
    star := R.Keys;
  }

  /** The parts by the edge they lie beyond, rather than by the order of the search. */
  ghost function ByEdge(cs: seq<Cavity>, o: nat): (ds: seq<Cavity>)
    requires |cs| == 3 && o < 3
    ensures |ds| == 3 && forall i :: 0 <= i < 3 ==> var e := Mod3(o + i); ds[e] == cs[i]
  {
    if o == 0 then cs else if o == 1 then [cs[2], cs[0], cs[1]] else [cs[1], cs[2], cs[0]]
  }

  /** The triangle that has edge e of the split one. */
  ghost function FanAt(t: nat, a: nat, b: nat, e: nat): nat {
    if e == 0 then t else if e == 1 then a else b
  }

  lemma PartIsWide(M: seq<Tri>, inC: set<nat>, t: nat, a: nat, b: nat, e: nat, c: Cavity)
    requires CanSplit(M, t, a, b) && e < 3 && Explores(M, inC, M[t].ngh[e], t, c)
    ensures Explores(M, inC + {a} + {b}, M[t].ngh[e], t, c) && a !in Nodes(c) && b !in Nodes(c)
  {
    UnusedHasNoNeighbours(M, a, t);
    UnusedHasNoNeighbours(M, b, t);
    ExploresWider(M, inC, M[t].ngh[e], t, c, a);
    ExploresWider(M, inC + {a}, M[t].ngh[e], t, c, b);
  }

  lemma CavityIsThree(M: seq<Tri>, inC: set<nat>, B: set<nat>, t: nat, a: nat, b: nat, o: nat, cs: seq<Cavity>)
    requires CanSplit(M, t, a, b) && IsCavity(M, inC, t, o, cs) && forall i :: 0 <= i < 3 ==> Apart(M, cs[i], B)
    ensures Three(M, inC + {a} + {b}, B, t, a, b, ByEdge(cs, o))
  {
    hide Explores, Apart, Nodes, Tree, Mutual, Simple, ByEdge;
    var ds := ByEdge(cs, o);
    forall i | 0 <= i < 3
      ensures Explores(M, inC + {a} + {b}, M[t].ngh[Mod3(o + i)], t, cs[i]) && a !in Nodes(cs[i]) && b !in Nodes(cs[i])
    {
      PartIsWide(M, inC, t, a, b, Mod3(o + i), cs[i]);
    }
    forall e | 0 <= e < 3 ensures Beyond(M, inC + {a} + {b}, B, t, ds[e], e) && {t, a, b} !! Nodes(ds[e]) {
      var i := Mod3(e + 3 - o);
      assert Mod3(o + i) == e && ds[e] == cs[i];
    }
  }

  lemma FirstParts(t: nat, a: nat, b: nat, o: nat, cs: seq<Cavity>)
    requires |cs| == 3 && o < 3 && t != a && t != b && a != b
    ensures
      var R := FirstRing(t, a, b, ByEdge(cs, o));
      var x, y, z := FanAt(t, a, b, o), FanAt(t, a, b, One(o)), FanAt(t, a, b, Two(o));
      && x in R && y in R && z in R && x != y && x != z && y != z
      && R[x].c == cs[0] && R[y].c == cs[1] && R[z].c == cs[2]
  {
  }

  lemma FoundIs(cs: seq<Cavity>)
    requires |cs| == 3
    ensures Found(cs, 3) == Preorder(cs[0]) + (Preorder(cs[1]) + (Preorder(cs[2]) + []))
  {
    hide Preorder;
    assert Found(cs, 3) == Found(cs, 2) + Preorder(cs[2]) && Found(cs, 2) == Found(cs, 1) + Preorder(cs[1]);
    assert Found(cs, 1) == [] + Preorder(cs[0]);
  }

  lemma EmptyStack(R: Ring)
    ensures StackOk(R, []) && Queue(R, []) == []
  {
  }

  /** The queue at the start is what the search pushed. */
  lemma FirstQueue(t: nat, a: nat, b: nat, o: nat, cs: seq<Cavity>) returns (stack: seq<int>)
    requires |cs| == 3 && o < 3 && t != a && t != b && a != b
    ensures StackOk(FirstRing(t, a, b, ByEdge(cs, o)), stack)
    ensures Queue(FirstRing(t, a, b, ByEdge(cs, o)), stack) == Found(cs, 3)
  {
    hide *;
    var R := FirstRing(t, a, b, ByEdge(cs, o));
    var x, y, z := FanAt(t, a, b, o), FanAt(t, a, b, One(o)), FanAt(t, a, b, Two(o));
    FirstParts(t, a, b, o, cs);
    FoundIs(cs);
    EmptyStack(R);
    PushStack(R, z, []);
    PushStack(R, y, [z] + []);
    PushStack(R, x, [y] + ([z] + []));
    stack := [x] + ([y] + ([z] + []));
  }

  /** The check of insert: a vertex the point holds is released; any other one means failure. */
  function Check(reserve: seq<int>, vertices: seq<nat>, id: nat): (r: (seq<int>, bool))
    requires forall k :: 0 <= k < |vertices| ==> vertices[k] < |reserve|
    ensures |r.0| == |reserve|
  {
    if vertices == [] then (reserve, false)
    else
      var (now, flag) := Check(reserve, vertices[..|vertices| - 1], id);
      var u := vertices[|vertices| - 1];
      if now[u] == id then (now[u := -1], flag) else (now, true)
  }

  ghost predicate NoneTwice(vertices: seq<nat>) {
    forall k, l :: 0 <= k < l < |vertices| ==> vertices[k] != vertices[l]
  }

  /** The check succeeds just if the point holds every vertex, and lists none twice; it frees what it holds. */
  lemma {:induction false} CheckMeans(reserve: seq<int>, vertices: seq<nat>, id: nat)
    requires forall k :: 0 <= k < |vertices| ==> vertices[k] < |reserve|
    ensures !Check(reserve, vertices, id).1 <==>
      NoneTwice(vertices) && forall k :: 0 <= k < |vertices| ==> reserve[vertices[k]] == id
    ensures forall u :: 0 <= u < |reserve| ==>
      Check(reserve, vertices, id).0[u] == if u in vertices && reserve[u] == id then -1 else reserve[u]
  {
    if vertices != [] {
      var front, u := vertices[..|vertices| - 1], vertices[|vertices| - 1];
      CheckMeans(reserve, front, id);
      assert vertices == front + [u];
      NoneTwiceGrows(front, u);
      assert !Check(reserve, front, id).1 ==>
        (Check(reserve, front, id).0[u] == id <==> u !in front && reserve[u] == id);
    }
  }

  lemma NoneTwiceGrows(front: seq<nat>, u: nat)
    ensures NoneTwice(front + [u]) <==> NoneTwice(front) && u !in front
  {
    var all := front + [u];
    assert NoneTwice(all) ==> NoneTwice(front) by {
      assert forall k :: 0 <= k < |front| ==> all[k] == front[k];
    }
    assert all[|front|] == u;
    if u in front {
      var k :| 0 <= k < |front| && front[k] == u;
      assert all[k] == all[|front|];
    }
  }

  method Release(reserve: array<int>, vertices: seq<nat>, id: nat) returns (flag: bool)
    requires forall k :: 0 <= k < |vertices| ==> vertices[k] < reserve.Length
    modifies reserve
    ensures (reserve[..], flag) == Check(old(reserve[..]), vertices, id)
  {
    flag := false;
    for i := 0 to |vertices|
      invariant (reserve[..], flag) == Check(old(reserve[..]), vertices[..i], id)
    {
      assert vertices[..i + 1][..i] == vertices[..i];
      var u := vertices[i];
      if reserve[u] == id {
        reserve[u] := -1;
      } else {
        flag := true;
      }
    }
    assert vertices[..|vertices|] == vertices;
  }

  /** The triangles an insertion may change: the cavity and the memory for two new ones. */
  ghost function Footprint(t: nat, a: nat, b: nat, cs: seq<Cavity>): (X: set<int>)
    requires |cs| == 3
  {
    {t, a, b} + Nodes(cs[0]) + Nodes(cs[1]) + Nodes(cs[2])
  }

  /** Inserts v in triangle t if it holds all its vertices; a and b are memory for two triangles.
      Then the triangles around v are as many as were flipped, and three more. */
  method Insert(m: Triangulation, reserve: array<int>, v: nat, t: nat, a: nat, b: nat,
      simplices: seq<(nat, nat)>, vertices: seq<nat>, ghost inC: set<nat>, ghost o: nat, ghost cs: seq<Cavity>)
    returns (flag: bool, ghost star: set<int>)
    requires m.Valid() && m.tri as object != m.at && m.tri as object != reserve && m.at != reserve
    requires CanSplit(m.tri[..], t, a, b) && IsCavity(m.tri[..], inC, t, o, cs) && AllSane(m.tri[..], cs)
    requires simplices == Found(cs, 3) && vertices == Pushed(m.tri[..], t, o, cs, 3)
    requires forall k :: 0 <= k < |vertices| ==> vertices[k] < reserve.Length
    requires v < m.at.Length && (forall x :: x in m.placed ==> m.at[x] != a && m.at[x] != b)
    requires forall x :: 0 <= x < m.tri.Length && x != a && x != b ==> v !in m.tri[x].vtx
    modifies m.tri, m.at, m`placed, reserve
    ensures m.Valid() && (!flag <==>
      NoneTwice(vertices) && forall k :: 0 <= k < |vertices| ==> old(reserve[..])[vertices[k]] == v)
    ensures forall u :: 0 <= u < reserve.Length ==>
      reserve[u] == if u in vertices && old(reserve[u]) == v then -1 else old(reserve[u])
    ensures flag ==> m.tri[..] == old(m.tri[..]) && m.at[..] == old(m.at[..]) && m.placed == old(m.placed)
    ensures !flag ==> m.placed == old(m.placed) + {v}
    ensures !flag ==> Inserted(old(m.tri[..]), m.tri[..], v, (set x | x in vertices), star, |simplices| + 3,
      Footprint(t, a, b, cs))
    ensures !flag ==> AnchorsInto(old(m.at[..]), m.at[..], Footprint(t, a, b, cs))
  {
    hide *;
    star := {};
    CheckMeans(reserve[..], vertices, v);
    ghost var held := reserve[..];
    flag := Release(reserve, vertices, v);
    assert forall u :: 0 <= u < reserve.Length ==> reserve[u] == reserve[..][u];
    if !flag {
      star := InsertHere(m, v, t, a, b, simplices, vertices, inC, o, cs);
    }
  }

  /** v has its star, whose other corners are in B; its triangles were chosen from X, and nothing else has
      changed but pointers into X. */
  ghost predicate Inserted(M: seq<Tri>, M': seq<Tri>, v: nat, B: set<nat>, star: set<int>, n: nat, X: set<int>) {
    Outside(M, M', X) && Star(M', v, B, star, n) && CornersHeld(M', X, B + {v})
  }

  /** The insertion of a point that holds all its vertices. */
  method InsertHere(m: Triangulation, v: nat, t: nat, a: nat, b: nat,
      simplices: seq<(nat, nat)>, ghost vertices: seq<nat>, ghost inC: set<nat>, ghost o: nat, ghost cs: seq<Cavity>)
    returns (ghost star: set<int>)
    requires m.Valid() && m.tri as object != m.at
    requires CanSplit(m.tri[..], t, a, b) && IsCavity(m.tri[..], inC, t, o, cs) && AllSane(m.tri[..], cs)
    requires simplices == Found(cs, 3) && vertices == Pushed(m.tri[..], t, o, cs, 3)
    requires v < m.at.Length && (forall x :: x in m.placed ==> m.at[x] != a && m.at[x] != b)
    requires forall x :: 0 <= x < m.tri.Length && x != a && x != b ==> v !in m.tri[x].vtx
    modifies m.tri, m.at, m`placed
    ensures m.Valid() && m.placed == old(m.placed) + {v}
    ensures Inserted(old(m.tri[..]), m.tri[..], v, (set x | x in vertices), star, |simplices| + 3,
      Footprint(t, a, b, cs))
    ensures AnchorsInto(old(m.at[..]), m.at[..], Footprint(t, a, b, cs))
  {
    ghost var M := m.tri[..];
    hide *;
    ghost var stack := SplitStarts(M, v, t, a, b, vertices, inC, o, cs);
    ghost var R := FirstRing(t, a, b, ByEdge(cs, o));
    FirstWithin(M, t, a, b, inC, o, cs, vertices);
    star := SplitAndFlip(m, v, t, a, b, simplices, inC + {a} + {b}, (set x | x in vertices), R, stack,
      Footprint(t, a, b, cs));
  }

  lemma SplitStarts(M: seq<Tri>, v: nat, t: nat, a: nat, b: nat, vertices: seq<nat>, inC: set<nat>, o: nat,
      cs: seq<Cavity>)
    returns (stack: seq<int>)
    requires CanSplit(M, t, a, b) && IsCavity(M, inC, t, o, cs) && AllSane(M, cs) && vertices == Pushed(M, t, o, cs, 3)
    requires forall x :: 0 <= x < |M| && x != a && x != b ==> v !in M[x].vtx
    ensures
      var B, R := (set x | x in vertices), FirstRing(t, a, b, ByEdge(cs, o));
      && RingInv(Split(M, v, t, a, b), v, inC + {a} + {b}, B, R) && |R| == 3
      && StackOk(R, stack) && Queue(R, stack) == Found(cs, 3)
  {
    var B := set x | x in vertices;
    hide Apart, Explores, Nodes, Tree, Mutual, Simple, Pushed, Split, FirstRing;
    PushedCovers(M, t, o, cs, 3, B);
    assert forall i :: 0 <= i < 3 ==> M[t].vtx[i] in B by {
      assert {Mod3(o), Mod3(o + 1), Mod3(o + 2)} == {0, 1, 2};
    }
    CavityIsThree(M, inC, B, t, a, b, o, cs);
    SplitKeepsMesh(M, v, t, a, b);
    SplitMakesRing(M, Split(M, v, t, a, b), inC + {a} + {b}, B, v, t, a, b, ByEdge(cs, o));
    stack := FirstQueue(t, a, b, o, cs);
  }

  method SplitAndFlip(m: Triangulation, v: nat, t: nat, a: nat, b: nat, simplices: seq<(nat, nat)>,
      ghost inC: set<nat>, ghost B: set<nat>, ghost R: Ring, ghost stack: seq<int>, ghost X: set<int>)
    returns (ghost star: set<int>)
    requires m.Valid() && m.tri as object != m.at && CanSplit(m.tri[..], t, a, b)
    requires RingWithin(R, X) && t in X && a in X && b in X && CornersHeld(m.tri[..], X - {a} - {b}, B)
    requires RingInv(Split(m.tri[..], v, t, a, b), v, inC, B, R)
    requires StackOk(R, stack) && simplices == Queue(R, stack)
    requires v < m.at.Length && (forall x :: x in m.placed ==> m.at[x] != a && m.at[x] != b)
    modifies m.tri, m.at, m`placed
    ensures m.Valid() && m.placed == old(m.placed) + {v}
    ensures Inserted(old(m.tri[..]), m.tri[..], v, B, star, |simplices| + |R|, X)
    ensures AnchorsInto(old(m.at[..]), m.at[..], X)
  {
    hide *;
    ghost var M, at := m.tri[..], m.at[..];
    SplitWithin(M, X, B, v, t, a, b);
    m.SplitTriangle(v, t, a, b);
    IntoX(at, m.at[..], X, t, a);
    ghost var M1, at1 := m.tri[..], m.at[..];
    star := FlipAll(m, simplices, v, inC, B, R, stack, X);
    OutsideTwice(M, M1, m.tri[..], X);
    IntoTwice(at, at1, m.at[..], X);
    InsertedIs(M, m.tri[..], v, B, star, |simplices| + |R|, X);
  }

  lemma SplitWithin(M: seq<Tri>, X: set<int>, B: set<nat>, v: nat, t: nat, a: nat, b: nat)
    requires CanSplit(M, t, a, b) && t in X && a in X && b in X && CornersHeld(M, X - {a} - {b}, B)
    ensures Outside(M, Split(M, v, t, a, b), X) && CornersHeld(Split(M, v, t, a, b), X, B + {v})
  {
    SplitIs(M, v, t, a, b);
    SplitOutside(M, Split(M, v, t, a, b), X, v, t, a, b);
    SplitHolds(M, Split(M, v, t, a, b), X, B, v, t, a, b);
  }

  lemma InsertedIs(M: seq<Tri>, M': seq<Tri>, v: nat, B: set<nat>, star: set<int>, n: nat, X: set<int>)
    requires Outside(M, M', X) && Star(M', v, B, star, n) && CornersHeld(M', X, B + {v})
    ensures Inserted(M, M', v, B, star, n, X)
  {
  }

  lemma IntoX(at: seq<int>, at': seq<int>, X: set<int>, t: int, u: int)
    requires |at'| == |at| && t in X && u in X
    requires forall x :: 0 <= x < |at| && at'[x] != at[x] ==> at'[x] == t || at'[x] == u
    ensures AnchorsInto(at, at', X)
  {
  }

  lemma IntoTwice(at: seq<int>, at': seq<int>, at'': seq<int>, X: set<int>)
    requires AnchorsInto(at, at', X) && AnchorsInto(at', at'', X)
    ensures AnchorsInto(at, at'', X)
  {
  }

  /** The first ring and the cavity beyond it are the footprint, whose corners the search pushed. */
  lemma FirstWithin(M: seq<Tri>, t: nat, a: nat, b: nat, inC: set<nat>, o: nat, cs: seq<Cavity>, vertices: seq<nat>)
    requires CanSplit(M, t, a, b) && IsCavity(M, inC, t, o, cs) && AllSane(M, cs) && vertices == Pushed(M, t, o, cs, 3)
    ensures RingWithin(FirstRing(t, a, b, ByEdge(cs, o)), Footprint(t, a, b, cs))
    ensures t in Footprint(t, a, b, cs) && a in Footprint(t, a, b, cs) && b in Footprint(t, a, b, cs)
    ensures CornersHeld(M, Footprint(t, a, b, cs) - {a} - {b}, set x | x in vertices)
  {
    hide Nodes, Explores, Apart, Mutual, Simple, Pushed;
    var B := set x | x in vertices;
    PushedCovers(M, t, o, cs, 3, B);
    assert forall i :: 0 <= i < 3 ==> M[t].vtx[i] in B by {
      assert {Mod3(o), Mod3(o + 1), Mod3(o + 2)} == {0, 1, 2};
    }
    forall i | 0 <= i < 3 ensures CornersHeld(M, Nodes(cs[i]), B) {
      CavityHeld(M, inC, M[t].ngh[Mod3(o + i)], t, cs[i], B);
    }
  }
}
