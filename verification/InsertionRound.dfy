/** A whole round of insertions: the points reserve, and those that hold all they want are inserted, their
    splits and flips in any order.  No insertion spoils another, since their cavities are apart. */
module InsertionRound {
  import opened Topology
  import opened Delaunay
  import opened Reservations
  import opened Schedule

  /** A point to insert: the triangle it is in, memory for two triangles, and what its search found. */
  datatype Job = Job(v: nat, t: nat, a: nat, b: nat, simplices: seq<(nat, nat)>, vertices: seq<nat>,
    inC: set<nat>, o: nat, cs: seq<Cavity>)

  ghost function Rim(j: Job): set<nat> {
    set x | x in j.vertices
  }

  /** The triangles of the cavity. */
  ghost function Hole(j: Job): set<int>
    requires |j.cs| == 3
  {
    {j.t} + Nodes(j.cs[0]) + Nodes(j.cs[1]) + Nodes(j.cs[2])
  }

  ghost function Print(j: Job): set<int>
    requires |j.cs| == 3
  {
    Footprint(j.t, j.a, j.b, j.cs)
  }

  ghost predicate Absent(M: seq<Tri>, j: Job) {
    forall x :: 0 <= x < |M| && x != j.a && x != j.b ==> j.v !in M[x].vtx
  }

  /** What the search has found in M. */
  ghost predicate Ready(M: seq<Tri>, j: Job) {
    && CanSplit(M, j.t, j.a, j.b) && IsCavity(M, j.inC, j.t, j.o, j.cs) && AllSane(M, j.cs)
    && j.simplices == Found(j.cs, 3) && j.vertices == Pushed(M, j.t, j.o, j.cs, 3) && Absent(M, j)
  }

  /** No vertex points to the memory of the job. */
  ghost predicate Unanchored(at: seq<int>, placed: set<nat>, j: Job) {
    j.v < |at| && forall x :: x in placed ==> x < |at| && at[x] != j.a && at[x] != j.b
  }

  /** Two jobs for different points, with memory of their own. */
  ghost predicate Own(i: Job, j: Job) {
    i.v != j.v && i.a != j.t && i.b != j.t && i.a != j.a && i.a != j.b && i.b != j.a && i.b != j.b
  }

  // ---------- two jobs that do not meet ----------

  /** Neither changes, nor has pointers to, what the other changes. */
  ghost predicate Separate(M: seq<Tri>, i: Job, j: Job)
    requires |i.cs| == 3 && |j.cs| == 3
  {
    && Print(i) !! Print(j) && i.v != j.v && j.v !in Rim(i)
    && (forall x :: x in Print(j) ==> 0 <= x < |M| && forall e :: 0 <= e < |M[x].ngh| ==> M[x].ngh[e] !in Print(i))
    && forall x :: x in Print(i) ==> 0 <= x < |M| && j.v !in M[x].vtx
  }

  ghost predicate IsCorner(M: seq<Tri>, X: set<int>, u: nat) {
    exists x :: x in X && 0 <= x < |M| && u in M[x].vtx
  }

  lemma {:induction false} ApexIsCorner(M: seq<Tri>, c: Cavity, u: nat)
    requires Shape(M) && Sane(M, c) && u in Apexes(M, c)
    ensures IsCorner(M, Nodes(c), u)
  {
    if c.In? {
      NodesOf(c);
      hide Nodes;
      if u in Apexes(M, c.first) {
        ApexIsCorner(M, c.first, u);
      } else if u in Apexes(M, c.second) {
        ApexIsCorner(M, c.second, u);
      } else {
        assert u == M[c.t].vtx[One(c.o)];
      }
    }
  }

  /** What the search pushes are corners of the cavity. */
  lemma {:induction false} PushedIsCorner(M: seq<Tri>, t: nat, o: nat, cs: seq<Cavity>, i: nat, X: set<int>, u: nat)
    requires t < |M| && o < 3 && i <= |cs| <= 3 && AllSane(M, cs) && u in Pushed(M, t, o, cs, i)
    requires t in X && forall k :: 0 <= k < i ==> Nodes(cs[k]) <= X
    ensures IsCorner(M, X, u)
  {
    if i > 0 {
      hide Nodes, Apexes;
      if u in Pushed(M, t, o, cs, i - 1) {
        PushedIsCorner(M, t, o, cs, i - 1, X, u);
      } else if u in Apexes(M, cs[i - 1]) {
        ApexIsCorner(M, cs[i - 1], u);
      } else {
        assert u == M[t].vtx[Mod3(o + i - 1)];
      }
    }
  }

  /** Unused triangles are not found. */
  lemma NotInHole(M: seq<Tri>, j: Job, a: nat, b: nat)
    requires Ready(M, j) && CanSplit(M, j.t, a, b)
    ensures a !in Hole(j) && b !in Hole(j)
  {
    forall k | 0 <= k < 3 ensures a !in Nodes(j.cs[k]) && b !in Nodes(j.cs[k]) {
      PartIsWide(M, j.inC, j.t, a, b, Mod3(j.o + k), j.cs[k]);
    }
  }

  lemma HoleHeld(M: seq<Tri>, j: Job)
    requires Ready(M, j)
    ensures |j.cs| == 3 && Shape(M) && CornersHeld(M, Hole(j), Rim(j)) && Print(j) == Hole(j) + {j.a} + {j.b}
    ensures j.a !in Hole(j) && j.b !in Hole(j)
  {
    FirstWithin(M, j.t, j.a, j.b, j.inC, j.o, j.cs, j.vertices);
    NotInHole(M, j, j.a, j.b);
    ReadyMesh(M, j);
    hide Ready, Mesh, CornersHeld;
    PrintIsHole(j);
  }

  lemma PrintIsHole(j: Job)
    requires |j.cs| == 3 && j.a !in Hole(j) && j.b !in Hole(j)
    ensures Print(j) == Hole(j) + {j.a} + {j.b} && Print(j) - {j.a} - {j.b} == Hole(j)
  {
    hide Nodes;
  }

  lemma ReadyMesh(M: seq<Tri>, j: Job)
    requires Ready(M, j)
    ensures |j.cs| == 3 && Mesh(M) && Shape(M) && j.a < |M| && j.b < |M|
  {
  }

  /** The memory of one is unused for the other as well. */
  lemma OthersMemory(M: seq<Tri>, i: Job, j: Job)
    requires Ready(M, i) && Ready(M, j) && Own(i, j) && Own(j, i)
    ensures CanSplit(M, i.t, j.a, j.b) && |i.cs| == 3
    ensures j.a !in Hole(i) && j.b !in Hole(i)
  {
    NotInHole(M, i, j.a, j.b);
  }

  /** The corners of one's cavity are no other's point. */
  lemma PointNotOnRim(M: seq<Tri>, i: Job, j: Job)
    requires Ready(M, i) && Ready(M, j) && Own(i, j) && Own(j, i)
    ensures j.v !in Rim(i)
  {
    NotInHole(M, i, j.a, j.b);
    hide Hole, Mesh, IsCavity, AllSane, Pushed;
    assert !IsCorner(M, Hole(i), j.v);
    if j.v in Rim(i) {
      RimIsCorner(M, i, j.v);
    }
  }

  lemma RimIsCorner(M: seq<Tri>, i: Job, u: nat)
    requires Ready(M, i) && u in Rim(i)
    ensures IsCorner(M, Hole(i), u)
  {
    PushedIsCorner(M, i.t, i.o, i.cs, 3, Hole(i), u);
  }

  lemma NoPointers(M: seq<Tri>, i: Job, j: Job, x: int, e: nat)
    requires Ready(M, i) && Ready(M, j) && Own(i, j) && Own(j, i) && Rim(i) !! Rim(j)
    requires x in Print(j) && 0 <= x < |M| && e < |M[x].ngh|
    ensures M[x].ngh[e] !in Print(i)
  {
    HoleHeld(M, i);
    HoleHeld(M, j);
    UnusedHasNoNeighbours(M, i.a, x);
    UnusedHasNoNeighbours(M, i.b, x);
    if x in Hole(j) {
      WinnersApart(M, Hole(j), Hole(i), Rim(j), Rim(i), x, e);
    }
    hide Hole, Print, IsCavity, AllSane, Mutual, Simple;
    if M[x].ngh[e] == NULL {
      assert NULL !in Hole(i);
    }
  }

  lemma PrintIn(M: seq<Tri>, j: Job)
    requires Ready(M, j)
    ensures |j.cs| == 3 && Shape(M) && forall x :: x in Print(j) ==> 0 <= x < |M|
  {
    HoleHeld(M, j);
    hide Hole, Print, IsCavity, AllSane, Mutual, Simple;
  }

  lemma PrintsApart(M: seq<Tri>, i: Job, j: Job)
    requires Ready(M, i) && Ready(M, j) && Own(i, j) && Own(j, i) && Rim(i) !! Rim(j)
    ensures |i.cs| == 3 && |j.cs| == 3 && Print(i) !! Print(j)
  {
    hide Ready, Hole, Print, Mesh, CornersHeld, Rim;
    ReadyMesh(M, i);
    HoleHeld(M, i);
    HoleHeld(M, j);
    OthersMemory(M, i, j);
    OthersMemory(M, j, i);
    forall x | x in Hole(i) ensures x !in Hole(j) {
      HoleIn(M, i, x);
      WinnersApart(M, Hole(i), Hole(j), Rim(i), Rim(j), x, 0);
    }
  }

  lemma HoleIn(M: seq<Tri>, j: Job, x: int)
    requires |j.cs| == 3 && Shape(M) && CornersHeld(M, Hole(j), Rim(j)) && x in Hole(j)
    ensures 0 <= x < |M|
  {
  }

  /** Two jobs whose searches reserved different vertices. */
  lemma WinnersSeparate(M: seq<Tri>, i: Job, j: Job)
    requires Ready(M, i) && Ready(M, j) && Own(i, j) && Own(j, i) && Rim(i) !! Rim(j)
    ensures |i.cs| == 3 && |j.cs| == 3 && Separate(M, i, j)
  {
    PrintsApart(M, i, j);
    PointNotOnRim(M, i, j);
    PrintIn(M, i);
    PrintIn(M, j);
    assert forall x :: x in Print(i) ==> j.v !in M[x].vtx;
    hide Ready, Print, Rim;
    forall x | x in Print(j) ensures 0 <= x < |M| && forall e :: 0 <= e < |M[x].ngh| ==> M[x].ngh[e] !in Print(i) {
      forall e | 0 <= e < |M[x].ngh| ensures M[x].ngh[e] !in Print(i) {
        NoPointers(M, i, j, x, e);
      }
    }
  }

  // ---------- jobs that wait, and jobs that have begun ----------

  /** The job finds everything as it was when it searched. */
  ghost predicate Waiting(M0: seq<Tri>, M: seq<Tri>, at: seq<int>, placed: set<nat>, j: Job)
    requires |j.cs| == 3
  {
    && |M| == |M0| && (forall x :: x in Print(j) ==> 0 <= x < |M| && M[x] == M0[x])
    && Absent(M, j) && Unanchored(at, placed, j)
  }

  lemma {:induction false} ApexesStay(M0: seq<Tri>, M: seq<Tri>, c: Cavity)
    requires Shape(M0) && Shape(M) && |M| == |M0| && Sane(M0, c)
      && forall x :: x in Nodes(c) ==> x < |M| && M[x] == M0[x]
    ensures Sane(M, c) && Apexes(M, c) == Apexes(M0, c)
  {
    if c.In? {
      NodesOf(c);
      ApexesStay(M0, M, c.first);
      ApexesStay(M0, M, c.second);
    }
  }

  lemma {:induction false} PushedStays(M0: seq<Tri>, M: seq<Tri>, t: nat, o: nat, cs: seq<Cavity>, i: nat)
    requires t < |M0| == |M| && o < 3 && i <= |cs| <= 3 && AllSane(M0, cs) && AllSane(M, cs) && M[t] == M0[t]
    requires forall k :: 0 <= k < i ==> Apexes(M, cs[k]) == Apexes(M0, cs[k])
    ensures Pushed(M, t, o, cs, i) == Pushed(M0, t, o, cs, i)
  {
    if i > 0 {
      PushedStays(M0, M, t, o, cs, i - 1);
    }
  }

  /** A waiting job is ready in the mesh as it is now. */
  lemma WaitingIsReady(M0: seq<Tri>, M: seq<Tri>, at: seq<int>, placed: set<nat>, j: Job)
    requires Ready(M0, j) && Mesh(M) && Waiting(M0, M, at, placed, j)
    ensures Ready(M, j)
  {
    hide Mutual, Simple, Explores, Apart, Tree, Nodes, Apexes, Pushed, Found;
    forall k | 0 <= k < 3 ensures Sane(M, j.cs[k]) && Apexes(M, j.cs[k]) == Apexes(M0, j.cs[k]) {
      ApexesStay(M0, M, j.cs[k]);
    }
    PushedStays(M0, M, j.t, j.o, j.cs, 3);
    forall k | 0 <= k < 3 ensures Explores(M, j.inC, M[j.t].ngh[Mod3(j.o + k)], j.t, j.cs[k]) {
      PushedCovers(M0, j.t, j.o, j.cs, 3, Rim(j));
      ExploresStays(M0, M, j.inC, M[j.t].ngh[Mod3(j.o + k)], j.t, j.cs[k], Rim(j));
    }
  }

  lemma SameTriangle(n: Tri, n': Tri, X: set<int>)
    requires n'.vtx == n.vtx && SameBut(n.ngh, n'.ngh, X) && forall e :: 0 <= e < |n.ngh| ==> n.ngh[e] !in X
    ensures n' == n
  {
    assert n'.ngh == n.ngh;
  }

  /** A split or a flip of a job: outside its print only pointers into it change. */
  ghost predicate Change(M: seq<Tri>, M': seq<Tri>, at: seq<int>, at': seq<int>, j: Job) {
    && |j.cs| == 3 && Outside(M, M', Print(j)) && CornersHeld(M', Print(j), Rim(j) + {j.v})
    && AnchorsInto(at, at', Print(j))
  }

  /** No triangle of j's print points to one of i's. */
  ghost predicate Clear(M: seq<Tri>, i: Job, j: Job) {
    |i.cs| == 3 && |j.cs| == 3
    && forall x, e :: x in Print(j) && 0 <= x < |M| && 0 <= e < |M[x].ngh| ==> M[x].ngh[e] !in Print(i)
  }

  /** A step of i changes no triangle of j. */
  lemma Untouched(M: seq<Tri>, M': seq<Tri>, at: seq<int>, at': seq<int>, i: Job, j: Job)
    requires Change(M, M', at, at', i) && Clear(M, i, j) && Print(i) !! Print(j)
    ensures |M'| == |M| && Shape(M) && Shape(M')
    ensures forall x :: x in Print(j) && 0 <= x < |M| ==> M'[x] == M[x]
  {
    hide Print, Rim;
    forall x | x in Print(j) && 0 <= x < |M| ensures M'[x] == M[x] {
      SameTriangle(M[x], M'[x], Print(i));
    }
  }

  /** Nor do the two point to each other afterwards: pointers are mutual. */
  lemma ClearBack(M: seq<Tri>, i: Job, j: Job)
    requires Mesh(M) && Clear(M, i, j)
    ensures Clear(M, j, i)
  {
    NullNotIn(j);
    hide Print, Mutual, Simple;
    forall x, e | x in Print(i) && 0 <= x < |M| && 0 <= e < |M[x].ngh| ensures M[x].ngh[e] !in Print(j) {
      assert Shape(M);
      if M[x].ngh[e] != NULL {
        BackPointer(M, x, e);
      }
    }
  }

  lemma NullNotIn(j: Job)
    requires |j.cs| == 3
    ensures NULL !in Print(j)
  {
  }

  lemma MemoryInPrint(j: Job)
    requires |j.cs| == 3
    ensures j.a in Print(j) && j.b in Print(j)
  {
  }

  lemma ThreeCorners(vtx: seq<nat>, u: nat, B: set<nat>)
    requires |vtx| == 3 && vtx[0] in B && vtx[1] in B && vtx[2] in B && u !in B
    ensures u !in vtx
  {
  }

  /** A step does not disturb a waiting job. */
  lemma WaitingStays(M0: seq<Tri>, M: seq<Tri>, M': seq<Tri>, at: seq<int>, at': seq<int>,
      placed: set<nat>, placed': set<nat>, i: Job, j: Job)
    requires |i.cs| == 3 && |j.cs| == 3 && Separate(M0, i, j) && Waiting(M0, M, at, placed, j)
    requires Change(M, M', at, at', i) && Clear(M, i, j)
    requires Anchored(M', at', placed') && placed' <= placed + {i.v}
    requires i.v !in M0[j.a].vtx && i.v !in M0[j.b].vtx && i.v < |at|
    ensures Waiting(M0, M', at', placed', j)
  {
    Untouched(M, M', at, at', i, j);
    MemoryInPrint(j);
    forall x | 0 <= x < |M'| && x != j.a && x != j.b ensures j.v !in M'[x].vtx {
      if j.v in M'[x].vtx {
        NoNewCorner(M0, M, M', at, at', i, j, x);
      }
    }
    assert Print(i) !! Print(j) && AnchorsInto(at, at', Print(i));
    hide Footprint, Clear, Rim, Change, Separate;
    UnanchoredStays(M', at, at', placed, placed', i, j);
  }

  lemma UnanchoredStays(M': seq<Tri>, at: seq<int>, at': seq<int>, placed: set<nat>, placed': set<nat>, i: Job, j: Job)
    requires |i.cs| == 3 && |j.cs| == 3 && Print(i) !! Print(j) && j.a in Print(j) && j.b in Print(j)
    requires Unanchored(at, placed, j) && AnchorsInto(at, at', Print(i)) && Anchored(M', at', placed')
    requires placed' <= placed + {i.v} && j.a < |M'| && j.b < |M'| && i.v !in M'[j.a].vtx && i.v !in M'[j.b].vtx
    ensures Unanchored(at', placed', j)
  {
    hide Footprint;
  }

  /** No step of i makes j's point a corner. */
  lemma NoNewCorner(M0: seq<Tri>, M: seq<Tri>, M': seq<Tri>, at: seq<int>, at': seq<int>, i: Job, j: Job, x: nat)
    requires |i.cs| == 3 && |j.cs| == 3 && Separate(M0, i, j) && Change(M, M', at, at', i)
    requires x < |M'| && j.v in M'[x].vtx
    ensures x < |M| && j.v in M[x].vtx
  {
    hide Footprint;
    if x in Print(i) {
      ThreeCorners(M'[x].vtx, j.v, Rim(i) + {i.v});
    }
  }

  /** A winner whose triangle is split: the ring around its point, and the triangles of the ring that have
      simplices still to flip beyond them, in the order of the flips. */
  datatype Turn = Turn(ring: Ring, stack: seq<int>)

  /** k of the flips have taken place. */
  ghost predicate Turning(M: seq<Tri>, j: Job, k: nat, turn: Turn) {
    && |j.cs| == 3 && RingInv(M, j.v, j.inC + {j.a} + {j.b}, Rim(j), turn.ring) && |turn.ring| == 3 + k
    && RingWithin(turn.ring, Print(j)) && Shape(M) && CornersHeld(M, Print(j), Rim(j) + {j.v})
    && k <= |j.simplices| && StackOk(turn.ring, turn.stack) && Queue(turn.ring, turn.stack) == j.simplices[k..]
  }

  ghost predicate Standing(M: seq<Tri>, j: Job, star: set<int>) {
    Shape(M) && Star(M, j.v, Rim(j), star, |j.simplices| + 3)
  }

  /** A triangle of the ring, and what is beyond it, stay the same while they are not touched. */
  lemma FanStays(M: seq<Tri>, M': seq<Tri>, v: nat, inC: set<nat>, B: set<nat>, R: Ring, X: set<int>, f: int)
    requires RingInv(M, v, inC, B, R) && RingWithin(R, X) && f in R && Shape(M') && |M'| == |M|
    requires forall x :: x in X && 0 <= x < |M| ==> M'[x] == M[x]
    ensures FanHere(M', v, inC, B, R, f) && FanBeyond(M', inC, B, R, f)
  {
    FanOf(M, v, inC, B, R, f);
    hide RingInv, Explores, Apart, Nodes, Mutual, Simple, Tree;
    ExploresStays(M, M', inC, M[f].ngh[R[f].o], f, R[f].c, B);
  }

  lemma RingStays(M: seq<Tri>, M': seq<Tri>, v: nat, inC: set<nat>, B: set<nat>, R: Ring, X: set<int>)
    requires RingInv(M, v, inC, B, R) && RingWithin(R, X) && Mesh(M') && |M'| == |M|
    requires forall x :: x in X && 0 <= x < |M| ==> M'[x] == M[x]
    requires forall x :: 0 <= x < |M| && v in M'[x].vtx ==> v in M[x].vtx
    ensures RingInv(M', v, inC, B, R)
  {
    forall f | f in R ensures FanHere(M', v, inC, B, R, f) && FanBeyond(M', inC, B, R, f) {
      FanStays(M, M', v, inC, B, R, X, f);
    }
    hide FanHere, FanBeyond, RingWithin, Mutual, Simple;
  }

  /** Nor a job that has begun. */
  lemma TurningStays(M0: seq<Tri>, M: seq<Tri>, M': seq<Tri>, at: seq<int>, at': seq<int>, i: Job, j: Job, k: nat,
      turn: Turn)
    requires |i.cs| == 3 && |j.cs| == 3 && Separate(M0, i, j) && Turning(M, j, k, turn)
    requires Change(M, M', at, at', i) && Clear(M, i, j) && Mesh(M')
    ensures Turning(M', j, k, turn)
  {
    Untouched(M, M', at, at', i, j);
    hide Footprint, RingInv, RingWithin, Mesh, StackOk, Queue;
    forall x | 0 <= x < |M| && j.v in M'[x].vtx ensures j.v in M[x].vtx {
      NoNewCorner(M0, M, M', at, at', i, j, x);
    }
    RingStays(M, M', j.v, j.inC + {j.a} + {j.b}, Rim(j), turn.ring, Print(j));
  }

  // ---------- the steps of a job ----------

  /** The split begins the ring. */
  lemma SplitBegins(M: seq<Tri>, j: Job) returns (turn: Turn)
    requires Ready(M, j)
    ensures CanSplit(M, j.t, j.a, j.b) && |j.cs| == 3
    ensures
      var M' := Split(M, j.v, j.t, j.a, j.b);
      && Turning(M', j, 0, turn) && Outside(M, M', Print(j)) && CornersHeld(M', Print(j), Rim(j) + {j.v})
      && j.t in Print(j) && j.a in Print(j)
  {
    assert Shape(M) && |j.cs| == 3;
    hide CanSplit, IsCavity, AllSane, Mesh, Found, Pushed, Outside, CornersHeld, RingInv, StackOk, Queue, RingWithin;
    hide Footprint, Rim, FirstRing, ByEdge, Split;
    var stack := SplitStarts(M, j.v, j.t, j.a, j.b, j.vertices, j.inC, j.o, j.cs);
    FirstWithin(M, j.t, j.a, j.b, j.inC, j.o, j.cs, j.vertices);
    SplitWithin(M, Print(j), Rim(j), j.v, j.t, j.a, j.b);
    turn := Turn(FirstRing(j.t, j.a, j.b, ByEdge(j.cs, j.o)), stack);
  }

  /** The next flip is possible, and adds a triangle to the ring. */
  lemma FlipGoesOn(M: seq<Tri>, j: Job, k: nat, turn: Turn) returns (turn': Turn)
    requires Turning(M, j, k, turn) && k < |j.simplices| && Mesh(M)
    ensures
      var (t, o) := j.simplices[k];
      && CanFlip(M, t, o) && t < |M| && o < |M[t].ngh| && |j.cs| == 3 && t in Print(j) && M[t].ngh[o] in Print(j)
      && var M' := Flip(M, t, o);
      Turning(M', j, k + 1, turn') && Outside(M, M', Print(j)) && CornersHeld(M', Print(j), Rim(j) + {j.v})
  {
    hide *;
    TurningMeans(M, j, k, turn);
    var R, inC, X := turn.ring, j.inC + {j.a} + {j.b}, Print(j);
    NothingChanged(M, [], X);
    var f, rest := NextInQueue(R, turn.stack);
    EntryCanFlip(M, j.v, inC, Rim(j), R, f);
    FlipKeepsRing(M, j.v, inC, Rim(j), R, f);
    QueueAfterFlip(R, f, rest);
    FlipStaysWithin(M, M, j.v, inC, Rim(j), R, f, X);
    FlipShape(M, R[f].c.t, R[f].c.o);
    turn' := Turn(Next(R, f), [f] + ([R[f].c.t] + rest));
    HeadIs(j.simplices, k, (R[f].c.t, R[f].c.o), Queue(turn'.ring, turn'.stack));
    TurningIs(Flip(M, R[f].c.t, R[f].c.o), j, k + 1, turn');
  }

  lemma TurningMeans(M: seq<Tri>, j: Job, k: nat, turn: Turn)
    requires Turning(M, j, k, turn)
    ensures |j.cs| == 3 && RingInv(M, j.v, j.inC + {j.a} + {j.b}, Rim(j), turn.ring) && |turn.ring| == 3 + k
    ensures RingWithin(turn.ring, Print(j)) && Shape(M) && CornersHeld(M, Print(j), Rim(j) + {j.v})
    ensures k <= |j.simplices| && StackOk(turn.ring, turn.stack)
    ensures forall i :: 0 <= i < |turn.stack| ==> turn.stack[i] in turn.ring
    ensures Queue(turn.ring, turn.stack) == j.simplices[k..]
  {
  }

  lemma TurningIs(M: seq<Tri>, j: Job, k: nat, turn: Turn)
    requires |j.cs| == 3 && RingInv(M, j.v, j.inC + {j.a} + {j.b}, Rim(j), turn.ring) && |turn.ring| == 3 + k
    requires RingWithin(turn.ring, Print(j)) && Shape(M) && CornersHeld(M, Print(j), Rim(j) + {j.v})
    requires k <= |j.simplices| && StackOk(turn.ring, turn.stack)
    requires forall i :: 0 <= i < |turn.stack| ==> turn.stack[i] in turn.ring
    requires Queue(turn.ring, turn.stack) == j.simplices[k..]
    ensures Turning(M, j, k, turn)
  {
  }

  lemma HeadIs(s: seq<(nat, nat)>, k: nat, x: (nat, nat), q: seq<(nat, nat)>)
    requires k < |s| && s[k..] == [x] + q
    ensures s[k] == x && s[k + 1..] == q
  {
    assert s[k..][0] == s[k] && s[k..][1..] == s[k + 1..];
    assert ([x] + q)[1..] == q;
  }

  lemma FlipShape(M: seq<Tri>, t: nat, o: nat)
    requires Mesh(M) && CanFlip(M, t, o)
    ensures Shape(Flip(M, t, o)) && t < |M| && o < |M[t].ngh|
  {
    FlipKeepsMesh(M, t, o);
  }

  /** When all flips have taken place the ring is the star. */
  lemma TurnedStands(M: seq<Tri>, j: Job, turn: Turn)
    requires Turning(M, j, |j.simplices|, turn)
    ensures Standing(M, j, turn.ring.Keys)
  {
    RingIsStar(M, j.v, j.inC + {j.a} + {j.b}, Rim(j), turn.ring);
  }

  // ---------- the round ----------

  /** What a round begins with. */
  ghost predicate Prepared(M: seq<Tri>, at: seq<int>, placed: set<nat>, n: nat, jobs: seq<Job>) {
    && (forall i :: 0 <= i < |jobs| ==> Ready(M, jobs[i]) && Unanchored(at, placed, jobs[i]))
    && (forall i, j :: 0 <= i < |jobs| && 0 <= j < |jobs| && i != j ==> Own(jobs[i], jobs[j]))
    && forall i, k :: 0 <= i < |jobs| && 0 <= k < |jobs[i].vertices| ==> jobs[i].vertices[k] < n
  }

  function Points(jobs: seq<Job>): (ids: seq<nat>)
    ensures |ids| == |jobs| && forall i :: 0 <= i < |jobs| ==> ids[i] == jobs[i].v
  {
    seq(|jobs|, i requires 0 <= i < |jobs| => jobs[i].v)
  }

  function Wants(jobs: seq<Job>): (wants: seq<seq<nat>>)
    ensures |wants| == |jobs| && forall i :: 0 <= i < |jobs| ==> wants[i] == jobs[i].vertices
  {
    seq(|jobs|, i requires 0 <= i < |jobs| => jobs[i].vertices)
  }

  ghost predicate Winners(jobs: seq<Job>, lost: seq<bool>) {
    |lost| == |jobs| && forall i, j :: 0 <= i < j < |jobs| && !lost[i] && !lost[j] ==>
      Disjoint(jobs[i].vertices, jobs[j].vertices)
  }

  lemma TwoWinners(M: seq<Tri>, at: seq<int>, placed: set<nat>, n: nat, jobs: seq<Job>, lost: seq<bool>, i: nat, j: nat)
    requires Prepared(M, at, placed, n, jobs) && Winners(jobs, lost)
    requires i < |jobs| && j < |jobs| && i != j && !lost[i] && !lost[j]
    ensures |jobs[i].cs| == 3 && |jobs[j].cs| == 3 && Separate(M, jobs[i], jobs[j])
    ensures |M| > 0 && jobs[j].a < |M| && jobs[j].b < |M|
    ensures jobs[i].v < |at| && jobs[i].v !in M[jobs[j].a].vtx && jobs[i].v !in M[jobs[j].b].vtx
  {
    hide IsCavity, AllSane, Pushed, Found, Mesh;
    assert Own(jobs[i], jobs[j]) && Own(jobs[j], jobs[i]);
    if i < j {
      RimsApart(jobs[i], jobs[j]);
    } else {
      RimsApart(jobs[j], jobs[i]);
    }
    WinnersSeparate(M, jobs[i], jobs[j]);
  }

  lemma RimsApart(i: Job, j: Job)
    requires Disjoint(i.vertices, j.vertices)
    ensures Rim(i) !! Rim(j) && Rim(j) !! Rim(i)
  {
  }

  /** Winner j has taken s steps: none yet, or its split and then flips. */
  ghost predicate Stands(M0: seq<Tri>, M: seq<Tri>, at: seq<int>, placed: set<nat>, j: Job, s: nat, turn: Turn) {
    |j.cs| == 3 && if s == 0 then Waiting(M0, M, at, placed, j) else Turning(M, j, s - 1, turn)
  }

  /** Between two steps of the insertions. */
  ghost predicate Midway(M0: seq<Tri>, M: seq<Tri>, at: seq<int>, placed: set<nat>, jobs: seq<Job>, lost: seq<bool>,
      steps: seq<nat>, turns: seq<Turn>)
  {
    && |lost| == |steps| == |turns| == |jobs| && |M| == |M0|
    && (forall i :: 0 <= i < |jobs| && !lost[i] ==> Stands(M0, M, at, placed, jobs[i], steps[i], turns[i]))
    && forall i, j :: 0 <= i < |jobs| && 0 <= j < |jobs| && i != j && !lost[i] && !lost[j] ==>
      Clear(M, jobs[i], jobs[j])
  }

  /** The points of the winners that have begun. */
  ghost function PlacedBy(jobs: seq<Job>, lost: seq<bool>, steps: seq<nat>): set<nat>
    requires |lost| == |jobs| == |steps|
  {
    set i | 0 <= i < |jobs| && !lost[i] && steps[i] > 0 :: jobs[i].v
  }

  ghost function AllWinners(jobs: seq<Job>, lost: seq<bool>): set<nat>
    requires |lost| == |jobs|
  {
    set i | 0 <= i < |jobs| && !lost[i] :: jobs[i].v
  }

  /** A winner other than the one that has taken a step. */
  lemma OtherStands(M0: seq<Tri>, at0: seq<int>, placed0: set<nat>, n: nat, M: seq<Tri>, M': seq<Tri>, at: seq<int>,
      at': seq<int>, placed: set<nat>, placed': set<nat>, jobs: seq<Job>, lost: seq<bool>, steps: seq<nat>,
      turns: seq<Turn>, i: nat, j: nat)
    requires Prepared(M0, at0, placed0, n, jobs) && Winners(jobs, lost) && |at| == |at0|
    requires Midway(M0, M, at, placed, jobs, lost, steps, turns) && i < |jobs| && !lost[i]
    requires j < |jobs| && !lost[j] && j != i
    requires Change(M, M', at, at', jobs[i]) && Mesh(M') && Anchored(M', at', placed')
      && placed' <= placed + {jobs[i].v}
    ensures Stands(M0, M', at', placed', jobs[j], steps[j], turns[j])
    ensures Clear(M', jobs[i], jobs[j]) && Clear(M', jobs[j], jobs[i])
    ensures |M'| == |M| && forall x :: x in Print(jobs[j]) && 0 <= x < |M| ==> M'[x] == M[x]
  {
    TwoWinners(M0, at0, placed0, n, jobs, lost, i, j);
    assert Stands(M0, M, at, placed, jobs[j], steps[j], turns[j]) && Clear(M, jobs[i], jobs[j]);
    hide Prepared, Winners, Midway, Mesh, Anchored, Print, Waiting, Turning, Change;
    Untouched(M, M', at, at', jobs[i], jobs[j]);
    ClearBack(M', jobs[i], jobs[j]);
    if steps[j] == 0 {
      WaitingStays(M0, M, M', at, at', placed, placed', jobs[i], jobs[j]);
    } else {
      TurningStays(M0, M, M', at, at', jobs[i], jobs[j], steps[j] - 1, turns[j]);
    }
  }

  /** Two other winners stay clear of each other. */
  lemma OthersClear(M: seq<Tri>, M': seq<Tri>, i: Job, j: Job)
    requires Clear(M, i, j) && |M'| == |M| && forall x :: x in Print(j) && 0 <= x < |M| ==> M'[x] == M[x]
    ensures Clear(M', i, j)
  {
    hide Print;
  }

  lemma BothClear(M0: seq<Tri>, at0: seq<int>, placed0: set<nat>, n: nat, M: seq<Tri>, M': seq<Tri>, at: seq<int>,
      at': seq<int>, placed: set<nat>, placed': set<nat>, jobs: seq<Job>, lost: seq<bool>, steps: seq<nat>,
      turns: seq<Turn>, i: nat, k: nat, j: nat)
    requires Prepared(M0, at0, placed0, n, jobs) && Winners(jobs, lost) && |at| == |at0|
    requires Midway(M0, M, at, placed, jobs, lost, steps, turns) && i < |jobs| && !lost[i]
    requires Change(M, M', at, at', jobs[i]) && Mesh(M') && Anchored(M', at', placed')
      && placed' <= placed + {jobs[i].v}
    requires k < |jobs| && j < |jobs| && k != j && !lost[k] && !lost[j]
    ensures Clear(M', jobs[k], jobs[j])
  {
    assert Clear(M, jobs[k], jobs[j]);
    hide Prepared, Winners, Stands, Clear, Mesh, Anchored, Print, Change, Midway;
    var other := if j == i then k else j;
    OtherStands(M0, at0, placed0, n, M, M', at, at', placed, placed', jobs, lost, steps, turns, i, other);
    if k != i && j != i {
      OthersClear(M, M', jobs[k], jobs[j]);
    }
  }

  lemma StepKeepsMidway(M0: seq<Tri>, at0: seq<int>, placed0: set<nat>, n: nat, M: seq<Tri>, M': seq<Tri>,
      at: seq<int>, at': seq<int>, placed: set<nat>, placed': set<nat>, jobs: seq<Job>, lost: seq<bool>,
      steps: seq<nat>, turns: seq<Turn>, i: nat, turn: Turn)
    requires Prepared(M0, at0, placed0, n, jobs) && Winners(jobs, lost) && |at| == |at0|
    requires Midway(M0, M, at, placed, jobs, lost, steps, turns) && i < |jobs| && !lost[i]
    requires Change(M, M', at, at', jobs[i]) && Mesh(M') && Anchored(M', at', placed')
      && placed' <= placed + {jobs[i].v}
    requires Turning(M', jobs[i], steps[i], turn)
    ensures Midway(M0, M', at', placed', jobs, lost, steps[i := steps[i] + 1], turns[i := turn])
  {
    hide *;
    MidwaySizes(M0, M, M', at, at', placed, jobs, lost, steps, turns, i);
    var steps', turns' := steps[i := steps[i] + 1], turns[i := turn];
    forall j | 0 <= j < |jobs| && !lost[j] ensures Stands(M0, M', at', placed', jobs[j], steps'[j], turns'[j]) {
      if j == i {
        BegunStands(M0, M', at', placed', jobs[i], steps[i], turn);
      } else {
        OtherStands(M0, at0, placed0, n, M, M', at, at', placed, placed', jobs, lost, steps, turns, i, j);
      }
    }
    forall k, j | 0 <= k < |jobs| && 0 <= j < |jobs| && k != j && !lost[k] && !lost[j]
      ensures Clear(M', jobs[k], jobs[j])
    {
      BothClear(M0, at0, placed0, n, M, M', at, at', placed, placed', jobs, lost, steps, turns, i, k, j);
    }
    MidwayIs(M0, M', at', placed', jobs, lost, steps', turns');
  }

  lemma MidwaySizes(M0: seq<Tri>, M: seq<Tri>, M': seq<Tri>, at: seq<int>, at': seq<int>, placed: set<nat>,
      jobs: seq<Job>, lost: seq<bool>, steps: seq<nat>, turns: seq<Turn>, i: nat)
    requires Midway(M0, M, at, placed, jobs, lost, steps, turns) && i < |jobs| && Change(M, M', at, at', jobs[i])
    ensures |lost| == |steps| == |turns| == |jobs| && |M'| == |M| == |M0|
  {
    hide Stands, Clear, CornersHeld, Footprint;
  }

  lemma MidwayIs(M0: seq<Tri>, M: seq<Tri>, at: seq<int>, placed: set<nat>, jobs: seq<Job>, lost: seq<bool>,
      steps: seq<nat>, turns: seq<Turn>)
    requires |lost| == |steps| == |turns| == |jobs| && |M| == |M0|
    requires forall i :: 0 <= i < |jobs| && !lost[i] ==> Stands(M0, M, at, placed, jobs[i], steps[i], turns[i])
    requires forall i, j :: 0 <= i < |jobs| && 0 <= j < |jobs| && i != j && !lost[i] && !lost[j] ==>
      Clear(M, jobs[i], jobs[j])
    ensures Midway(M0, M, at, placed, jobs, lost, steps, turns)
  {
    hide Stands, Clear;
  }

  lemma BegunStands(M0: seq<Tri>, M: seq<Tri>, at: seq<int>, placed: set<nat>, j: Job, s: nat, turn: Turn)
    requires Turning(M, j, s, turn)
    ensures Stands(M0, M, at, placed, j, s + 1, turn)
  {
  }

  lemma AllWait(M: seq<Tri>, at: seq<int>, placed: set<nat>, n: nat, jobs: seq<Job>, lost: seq<bool>,
      steps: seq<nat>, turns: seq<Turn>)
    requires Prepared(M, at, placed, n, jobs) && Winners(jobs, lost) && |steps| == |turns| == |jobs|
    requires forall i :: 0 <= i < |steps| ==> steps[i] == 0
    ensures Midway(M, M, at, placed, jobs, lost, steps, turns)
  {
    hide IsCavity, AllSane, Pushed, Found, Mutual, Simple, Print;
    forall i | 0 <= i < |jobs| ensures Stands(M, M, at, placed, jobs[i], steps[i], turns[i]) {
      PrintIn(M, jobs[i]);
    }
    hide Prepared, Winners;
    forall i, j | 0 <= i < |jobs| && 0 <= j < |jobs| && i != j && !lost[i] && !lost[j]
      ensures Clear(M, jobs[i], jobs[j])
    {
      TwoWinners(M, at, placed, n, jobs, lost, i, j);
    }
  }

  /** What a job whose step is next finds. */
  ghost predicate NextStep(M: seq<Tri>, at: seq<int>, placed: set<nat>, j: Job, s: nat, turn: Turn) {
    if s == 0 then Ready(M, j) && Unanchored(at, placed, j) else Turning(M, j, s - 1, turn)
  }

  lemma ItsTurn(M0: seq<Tri>, at0: seq<int>, placed0: set<nat>, n: nat, M: seq<Tri>, at: seq<int>,
      placed: set<nat>, jobs: seq<Job>, lost: seq<bool>, steps: seq<nat>, turns: seq<Turn>, i: nat)
    requires Prepared(M0, at0, placed0, n, jobs) && Midway(M0, M, at, placed, jobs, lost, steps, turns) && Mesh(M)
    requires i < |jobs| && !lost[i]
    ensures NextStep(M, at, placed, jobs[i], steps[i], turns[i])
  {
    assert Ready(M0, jobs[i]) && Stands(M0, M, at, placed, jobs[i], steps[i], turns[i]);
    hide Ready, Mesh, Print, Turning;
    if steps[i] == 0 {
      WaitingIsReady(M0, M, at, placed, jobs[i]);
    }
  }

  /** The next step of a job: its split, or the flip of its next simplex. */
  method TakeStep(m: Triangulation, j: Job, s: nat, ghost turn: Turn) returns (ghost turn': Turn)
    requires m.Valid() && m.tri as object != m.at && s <= |j.simplices|
    requires NextStep(m.tri[..], m.at[..], m.placed, j, s, turn)
    modifies m.tri, m.at, m`placed
    ensures m.Valid() && m.placed == old(m.placed) + if s == 0 then {j.v} else {}
    ensures Change(old(m.tri[..]), m.tri[..], old(m.at[..]), m.at[..], j) && Turning(m.tri[..], j, s, turn')
  {
    hide *;
    ghost var M, at := m.tri[..], m.at[..];
    ValidMesh(m);
    NextMeans(M, at, m.placed, j, s, turn);
    if s == 0 {
      turn' := SplitBegins(M, j);
      m.SplitTriangle(j.v, j.t, j.a, j.b);
      IntoX(at, m.at[..], Print(j), j.t, j.a);
    } else {
      var (t, o) := j.simplices[s - 1];
      turn' := FlipGoesOn(M, j, s - 1, turn);
      m.FlipEdge(t, o);
      IntoX(at, m.at[..], Print(j), t, M[t].ngh[o]);
    }
    ChangeIs(M, m.tri[..], at, m.at[..], j);
  }

  lemma NextMeans(M: seq<Tri>, at: seq<int>, placed: set<nat>, j: Job, s: nat, turn: Turn)
    requires NextStep(M, at, placed, j, s, turn) && Anchored(M, at, placed)
    ensures s == 0 ==> Ready(M, j) && j.v < |at| && forall x :: x in placed ==> at[x] != j.a && at[x] != j.b
    ensures s > 0 ==> Turning(M, j, s - 1, turn)
  {
  }

  lemma ChangeIs(M: seq<Tri>, M': seq<Tri>, at: seq<int>, at': seq<int>, j: Job)
    requires |j.cs| == 3 && Outside(M, M', Print(j)) && CornersHeld(M', Print(j), Rim(j) + {j.v})
    requires AnchorsInto(at, at', Print(j))
    ensures Change(M, M', at, at', j)
  {
  }

  /** Steps taken, and how many there will be. */
  function Left(todo: (nat, nat)): nat {
    if todo.0 < todo.1 then todo.1 - todo.0 else 0
  }

  function Steps(jobs: seq<Job>, lost: seq<bool>, i: nat): nat
    requires i < |jobs| == |lost|
  {
    if lost[i] then 0 else |jobs[i].simplices| + 1
  }

  ghost predicate Todo(jobs: seq<Job>, lost: seq<bool>, steps: seq<nat>, todo: seq<(nat, nat)>) {
    && |todo| == |steps| == |jobs| == |lost|
    && forall i :: 0 <= i < |jobs| ==> todo[i] == (steps[i], Steps(jobs, lost, i)) && steps[i] <= Steps(jobs, lost, i)
  }

  /** Where the insertions of a round stand. */
  ghost predicate Going(M0: seq<Tri>, M: seq<Tri>, at: seq<int>, placed0: set<nat>, placed: set<nat>, jobs: seq<Job>,
      lost: seq<bool>, steps: seq<nat>, turns: seq<Turn>, todo: seq<(nat, nat)>)
  {
    && Midway(M0, M, at, placed, jobs, lost, steps, turns) && Todo(jobs, lost, steps, todo)
    && placed == placed0 + PlacedBy(jobs, lost, steps)
  }

  /** The winners insert their points, one split or flip at a time, whoever is next. */
  method InsertWinners(m: Triangulation, jobs: seq<Job>, lost: seq<bool>, ghost n: nat)
    returns (ghost stars: seq<set<int>>)
    requires m.Valid() && m.tri as object != m.at
    requires Prepared(m.tri[..], m.at[..], m.placed, n, jobs) && Winners(jobs, lost)
    modifies m.tri, m.at, m`placed
    ensures m.Valid() && |lost| == |stars| == |jobs|
    ensures m.placed == old(m.placed) + AllWinners(jobs, lost)
    ensures forall i :: 0 <= i < |jobs| && !lost[i] ==> Standing(m.tri[..], jobs[i], stars[i])
  {
    assert |lost| == |jobs|;
    hide *;
    ghost var M0, at0, placed0 := m.tri[..], m.at[..], m.placed;
    var steps: seq<nat> := seq(|jobs|, _ => 0);
    ghost var turns := seq(|jobs|, _ => Turn(map[], []));
    ghost var todo: seq<(nat, nat)> := seq(|jobs|, i requires 0 <= i < |jobs| => (0, Steps(jobs, lost, i)));
    AllWait(M0, at0, placed0, n, jobs, lost, steps, turns);
    NoneYet(M0, at0, placed0, jobs, lost, steps, turns, todo);
    while exists i :: 0 <= i < |jobs| && steps[i] < Steps(jobs, lost, i)
      invariant m.Valid() && m.at.Length == |at0| && |steps| == |turns| == |todo| == |jobs|
      invariant Going(M0, m.tri[..], m.at[..], placed0, m.placed, jobs, lost, steps, turns, todo)
      decreases Work(Left, todo)
    {
      var i :| 0 <= i < |jobs| && steps[i] < Steps(jobs, lost, i);
      ghost var M, at, placed := m.tri[..], m.at[..], m.placed;
      ValidMesh(m);
      GoingOn(M0, at0, n, M, at, placed0, placed, jobs, lost, steps, turns, todo, i);
      ghost var turn := TakeStep(m, jobs[i], steps[i], turns[i]);
      ValidMesh(m);
      GoesOn(M0, at0, n, M, m.tri[..], at, m.at[..], placed0, placed, m.placed, jobs, lost, steps, turns, todo, i,
        turn);
      turns := turns[i := turn];
      todo := todo[i := (steps[i] + 1, Steps(jobs, lost, i))];
      steps := steps[i := steps[i] + 1];
    }
    stars := seq(|jobs|, i requires 0 <= i < |jobs| => turns[i].ring.Keys);
    Finished(M0, m.tri[..], m.at[..], placed0, m.placed, jobs, lost, steps, turns, todo);
  }

  lemma NoneYet(M0: seq<Tri>, at0: seq<int>, placed0: set<nat>, jobs: seq<Job>, lost: seq<bool>, steps: seq<nat>,
      turns: seq<Turn>, todo: seq<(nat, nat)>)
    requires Midway(M0, M0, at0, placed0, jobs, lost, steps, turns) && |steps| == |jobs| == |lost| == |todo|
    requires forall i :: 0 <= i < |jobs| ==> steps[i] == 0 && todo[i] == (0, Steps(jobs, lost, i))
    ensures Going(M0, M0, at0, placed0, placed0, jobs, lost, steps, turns, todo)
  {
    hide Midway;
  }

  lemma GoingOn(M0: seq<Tri>, at0: seq<int>, n: nat, M: seq<Tri>, at: seq<int>, placed0: set<nat>, placed: set<nat>,
      jobs: seq<Job>, lost: seq<bool>, steps: seq<nat>, turns: seq<Turn>, todo: seq<(nat, nat)>, i: nat)
    requires Prepared(M0, at0, placed0, n, jobs) && Going(M0, M, at, placed0, placed, jobs, lost, steps, turns, todo)
      && Mesh(M)
    requires |lost| == |steps| == |turns| == |jobs| && i < |jobs| && steps[i] < Steps(jobs, lost, i)
    ensures !lost[i] && steps[i] <= |jobs[i].simplices| && NextStep(M, at, placed, jobs[i], steps[i], turns[i])
  {
    hide Prepared, Midway, Mesh, NextStep;
    ItsTurn(M0, at0, placed0, n, M, at, placed, jobs, lost, steps, turns, i);
  }

  lemma GoesOn(M0: seq<Tri>, at0: seq<int>, n: nat, M: seq<Tri>, M': seq<Tri>, at: seq<int>, at': seq<int>,
      placed0: set<nat>, placed: set<nat>, placed': set<nat>, jobs: seq<Job>, lost: seq<bool>, steps: seq<nat>,
      turns: seq<Turn>, todo: seq<(nat, nat)>, i: nat, turn: Turn)
    requires Prepared(M0, at0, placed0, n, jobs) && Winners(jobs, lost) && |at| == |at0|
    requires Going(M0, M, at, placed0, placed, jobs, lost, steps, turns, todo)
    requires |lost| == |steps| == |turns| == |todo| == |jobs| && i < |jobs| && steps[i] < Steps(jobs, lost, i)
    requires Change(M, M', at, at', jobs[i]) && Mesh(M') && Anchored(M', at', placed')
    requires placed' == placed + (if steps[i] == 0 then {jobs[i].v} else {}) && Turning(M', jobs[i], steps[i], turn)
    ensures
      var steps', left := steps[i := steps[i] + 1], (steps[i] + 1, Steps(jobs, lost, i));
      Going(M0, M', at', placed0, placed', jobs, lost, steps', turns[i := turn], todo[i := left])
      && Work(Left, todo[i := left]) < Work(Left, todo)
  {
    hide Prepared, Winners, Midway, Mesh, Anchored, Change, Turning, Work, PlacedBy;
    StepKeepsMidway(M0, at0, placed0, n, M, M', at, at', placed, placed', jobs, lost, steps, turns, i, turn);
    var left: (nat, nat) := (steps[i] + 1, Steps(jobs, lost, i));
    WorkAfterStep(Left, todo, i, left);
    PlacedOneMore(jobs, lost, steps, i);
  }

  lemma PlacedOneMore(jobs: seq<Job>, lost: seq<bool>, steps: seq<nat>, i: nat)
    requires |lost| == |jobs| == |steps| && i < |jobs| && !lost[i]
    ensures PlacedBy(jobs, lost, steps[i := steps[i] + 1])
      == PlacedBy(jobs, lost, steps) + if steps[i] == 0 then {jobs[i].v} else {}
  {
    var steps' := steps[i := steps[i] + 1];
    forall v | v in PlacedBy(jobs, lost, steps) + {jobs[i].v} ensures v in PlacedBy(jobs, lost, steps') {
      var k :| 0 <= k < |jobs| && !lost[k] && (steps[k] > 0 || k == i) && jobs[k].v == v;
      assert steps'[k] > 0;
    }
  }

  lemma Finished(M0: seq<Tri>, M: seq<Tri>, at: seq<int>, placed0: set<nat>, placed: set<nat>, jobs: seq<Job>,
      lost: seq<bool>, steps: seq<nat>, turns: seq<Turn>, todo: seq<(nat, nat)>)
    requires Going(M0, M, at, placed0, placed, jobs, lost, steps, turns, todo) && |lost| == |steps| == |turns| == |jobs|
    requires forall i :: 0 <= i < |jobs| ==> steps[i] >= Steps(jobs, lost, i)
    ensures placed == placed0 + AllWinners(jobs, lost)
    ensures forall i :: 0 <= i < |jobs| && !lost[i] ==> Standing(M, jobs[i], turns[i].ring.Keys)
  {
    assert PlacedBy(jobs, lost, steps) == AllWinners(jobs, lost);
    hide Turning, Standing, Clear;
    forall i | 0 <= i < |jobs| && !lost[i] ensures Standing(M, jobs[i], turns[i].ring.Keys) {
      assert Stands(M0, M, at, placed, jobs[i], steps[i], turns[i]);
      TurnedStands(M, jobs[i], turns[i]);
    }
  }

  /** Reserves for all points, and inserts those that won, their splits and flips in any order.  Each winner
      ends with its star in a valid mesh, and every vertex is free again. */
  method InsertAll(m: Triangulation, reserve: array<int>, jobs: seq<Job>)
    returns (lost: seq<bool>, ghost stars: seq<set<int>>)
    requires m.Valid() && m.tri as object != m.at && m.tri as object != reserve && m.at != reserve
    requires Prepared(m.tri[..], m.at[..], m.placed, reserve.Length, jobs)
    requires forall u :: 0 <= u < reserve.Length ==> reserve[u] == -1
    modifies m.tri, m.at, m`placed, reserve
    ensures m.Valid() && |lost| == |stars| == |jobs|
    ensures m.placed == old(m.placed) + AllWinners(jobs, lost)
    ensures forall i :: 0 <= i < |jobs| && !lost[i] ==> Standing(m.tri[..], jobs[i], stars[i])
    ensures forall u :: 0 <= u < reserve.Length ==> reserve[u] == -1
    ensures forall i :: 0 <= i < |jobs| ==>
      (!lost[i] <==> NoneTwice(jobs[i].vertices) && !Outbid(Points(jobs), Wants(jobs), i))
  {
    hide *;
    RoundIs(m.tri[..], m.at[..], m.placed, reserve.Length, jobs);
    lost := ReservationRound(Points(jobs), Wants(jobs), reserve);
    WinnersOf(jobs, lost);
    stars := InsertWinners(m, jobs, lost, reserve.Length);
  }

  lemma ValidMesh(m: Triangulation)
    requires m.Valid()
    ensures Mesh(m.tri[..]) && Shape(m.tri[..]) && Anchored(m.tri[..], m.at[..], m.placed)
  {
  }

  lemma RoundIs(M: seq<Tri>, at: seq<int>, placed: set<nat>, n: nat, jobs: seq<Job>)
    requires Prepared(M, at, placed, n, jobs)
    ensures Round(n, Points(jobs), Wants(jobs))
  {
    hide Ready;
  }

  lemma WinnersOf(jobs: seq<Job>, lost: seq<bool>)
    requires |lost| == |jobs|
    requires forall i, j :: 0 <= i < j < |jobs| && !lost[i] && !lost[j] ==> Disjoint(Wants(jobs)[i], Wants(jobs)[j])
    ensures Winners(jobs, lost)
  {
    hide Disjoint;
    forall i, j | 0 <= i < j < |jobs| && !lost[i] && !lost[j] ensures Disjoint(jobs[i].vertices, jobs[j].vertices) {
      assert Disjoint(Wants(jobs)[i], Wants(jobs)[j]);
    }
  }
}
