/** Union-find with path shortcutting, where finds and links by many threads interleave at every
    memory access.  The memory holds one `parents` array; a ghost link-only forest, which forgets the
    shortcuts, says what it means. */
module UnionFind {

  /** The forest made by the links alone: each vertex's link parent (negative at a root), its root,
      and its distance to the root. */
  datatype Forest = Forest(parent: seq<int>, root: seq<nat>, height: seq<nat>)

  ghost predicate Valid(f: Forest) {
    && |f.parent| == |f.root| == |f.height|
    && forall x :: 0 <= x < |f.parent| ==>
         && f.parent[x] < |f.parent|
         && f.root[x] < |f.parent| && f.parent[f.root[x]] < 0 && f.root[f.root[x]] == f.root[x]
         && if f.parent[x] < 0 then f.root[x] == x && f.height[x] == 0
            else f.root[x] == f.root[f.parent[x]] && f.height[x] == f.height[f.parent[x]] + 1
  }

  predicate IsRoot(f: Forest, x: nat)
    requires x < |f.parent|
  {
    f.parent[x] < 0
  }

  function Singletons(n: nat): Forest {
    Forest(seq(n, _ => -1), seq(n, x requires 0 <= x < n => x), seq(n, _ => 0))
  }

  /** link(u, v): the tree of the root u is hung under v. */
  function LinkTo(f: Forest, u: nat, v: nat): Forest
    requires Valid(f) && u < |f.parent| && v < |f.parent|
  {
    var n := |f.parent|;
    Forest(f.parent[u := v],
           seq(n, x requires 0 <= x < n => if f.root[x] == u then f.root[v] else f.root[x]),
           seq(n, x requires 0 <= x < n => if f.root[x] == u then f.height[x] + f.height[v] + 1 else f.height[x]))
  }

  lemma SingletonsValid(n: nat)
    ensures Valid(Singletons(n))
  {
  }

  /** Linking a root into another tree keeps a forest: no cycle appears. */
  lemma LinkKeepsForest(f: Forest, u: nat, v: nat)
    requires Valid(f) && u < |f.parent| && v < |f.parent| && IsRoot(f, u) && f.root[v] != u
    ensures Valid(LinkTo(f, u, v))
  {
  }

  /** y is d links above x. */
  ghost predicate Climbs(parent: seq<int>, x: nat, y: nat, d: nat)
    decreases d
  {
    x < |parent| && if d == 0 then x == y else parent[x] >= 0 && Climbs(parent, parent[x], y, d - 1)
  }

  /** y is a proper ancestor of x in the link-only forest. */
  ghost predicate Above(f: Forest, x: nat, y: nat) {
    exists d :: d >= 1 && Climbs(f.parent, x, y, d)
  }

  ghost predicate AtOrAbove(f: Forest, x: nat, y: nat) {
    (x == y && x < |f.parent|) || Above(f, x, y)
  }

  lemma {:induction false} ClimbsTrans(parent: seq<int>, x: nat, y: nat, z: nat, d: nat, e: nat)
    requires Climbs(parent, x, y, d) && Climbs(parent, y, z, e)
    ensures Climbs(parent, x, z, d + e)
    decreases d
  {
    if d > 0 {
      ClimbsTrans(parent, parent[x], y, z, d - 1, e);
    }
  }

  lemma AboveTrans(f: Forest, x: nat, y: nat, z: nat)
    requires AtOrAbove(f, x, y) && Above(f, y, z)
    ensures Above(f, x, z)
  {
    if x != y {
      var d :| d >= 1 && Climbs(f.parent, x, y, d);
      var e :| e >= 1 && Climbs(f.parent, y, z, e);
      ClimbsTrans(f.parent, x, y, z, d, e);
    }
  }

  lemma {:induction false} ClimbsStaysInTree(f: Forest, x: nat, y: nat, d: nat)
    requires Valid(f) && Climbs(f.parent, x, y, d)
    ensures y < |f.parent| && f.root[y] == f.root[x] && f.height[x] == f.height[y] + d
    decreases d
  {
    if d > 0 {
      ClimbsStaysInTree(f, f.parent[x], y, d - 1);
    }
  }

  /** An ancestor is in the same tree and nearer the root. */
  lemma AboveStaysInTree(f: Forest, x: nat, y: nat)
    requires Valid(f) && Above(f, x, y)
    ensures x < |f.parent| && y < |f.parent| && f.root[y] == f.root[x] && f.height[y] < f.height[x] && !IsRoot(f, x)
  {
    var d :| d >= 1 && Climbs(f.parent, x, y, d);
    ClimbsStaysInTree(f, x, y, d);
  }

  lemma {:induction false} ClimbsSurvivesLink(f: Forest, u: nat, v: nat, x: nat, y: nat, d: nat)
    requires Valid(f) && u < |f.parent| && v < |f.parent| && IsRoot(f, u)
    requires Climbs(f.parent, x, y, d)
    ensures Climbs(LinkTo(f, u, v).parent, x, y, d)
    decreases d
  {
    if d > 0 {
      ClimbsSurvivesLink(f, u, v, f.parent[x], y, d - 1);
    }
  }

  /** Ancestors stay ancestors when a root is linked. */
  lemma AboveSurvivesLink(f: Forest, u: nat, v: nat, x: nat, y: nat)
    requires Valid(f) && u < |f.parent| && v < |f.parent| && IsRoot(f, u)
    requires Above(f, x, y)
    ensures Above(LinkTo(f, u, v), x, y)
  {
    var d :| d >= 1 && Climbs(f.parent, x, y, d);
    ClimbsSurvivesLink(f, u, v, x, y, d);
  }

  lemma ParentIsAbove(f: Forest, x: nat)
    requires x < |f.parent| && f.parent[x] >= 0 && f.parent[x] < |f.parent|
    ensures Above(f, x, f.parent[x])
  {
    assert Climbs(f.parent, f.parent[x], f.parent[x], 0);
    assert Climbs(f.parent, x, f.parent[x], 1);
  }

  // ---------- the memory ----------

  /** The parents array: negative exactly at the roots, elsewhere pointing at a proper ancestor. */
  ghost predicate Represents(P: seq<int>, f: Forest) {
    && Valid(f) && |P| == |f.parent|
    && forall x :: 0 <= x < |P| ==> if P[x] < 0 then IsRoot(f, x) else Above(f, x, P[x])
  }

  /** Where a thread stands inside find. */
  datatype Find =
    | Start(i: nat)
    | LoadParent(i: nat)
    | Test(i: nat, p: nat)
    | LoadGrand(i: nat, p: nat)
    | Shortcut(i: nat, p: nat, gp: nat)
    | Found(r: nat)

  ghost predicate FindInRange(n: nat, pc: Find) {
    match pc
    case Start(i) => i < n
    case LoadParent(i) => i < n
    case Test(i, p) => i < n && p < n
    case LoadGrand(i, p) => i < n && p < n
    case Shortcut(i, p, gp) => i < n && p < n && gp < n
    case Found(r) => r < n
  }

  ghost predicate CanFind(P: seq<int>, pc: Find) {
    FindInRange(|P|, pc) && (pc.LoadParent? ==> P[pc.i] >= 0) && (pc.LoadGrand? ==> P[pc.p] >= 0)
  }

  /** One memory access of find.  A vertex once seen not to be a root is never a root again, so the
      parent read after that is not negative. */
  function FindStep(P: seq<int>, pc: Find): (seq<int>, Find)
    requires FindInRange(|P|, pc)
    requires pc.LoadParent? ==> P[pc.i] >= 0
    requires pc.LoadGrand? ==> P[pc.p] >= 0
  {
    match pc
    case Start(i) => (P, if P[i] < 0 then Found(i) else LoadParent(i))
    case LoadParent(i) => (P, Test(i, P[i]))
    case Test(i, p) => (P, if P[p] < 0 then Found(p) else LoadGrand(i, p))
    case LoadGrand(i, p) => (P, Shortcut(i, p, P[p]))
    case Shortcut(i, p, gp) => (P[i := gp], Test(p, gp))
    case Found(_) => (P, pc)
  }

  /** What a thread in find(x) knows; none of it can be undone by other threads' shortcuts or links. */
  ghost predicate FindInv(f: Forest, x: nat, pc: Find) {
    && x < |f.parent|
    && match pc
       case Start(i) => i == x
       case LoadParent(i) => AtOrAbove(f, x, i) && i < |f.parent| && !IsRoot(f, i)
       case Test(i, p) => AtOrAbove(f, x, i) && Above(f, i, p)
       case LoadGrand(i, p) => AtOrAbove(f, x, i) && Above(f, i, p) && p < |f.parent| && !IsRoot(f, p)
       case Shortcut(i, p, gp) => AtOrAbove(f, x, i) && Above(f, i, p) && Above(f, p, gp)
       case Found(r) => AtOrAbove(f, x, r)
  }

  lemma FindInvInRange(f: Forest, x: nat, pc: Find)
    requires Valid(f) && FindInv(f, x, pc)
    ensures FindInRange(|f.parent|, pc)
  {
    match pc {
      case Start(i) =>
      case LoadParent(i) =>
      case Test(i, p) => AboveStaysInTree(f, i, p);
      case LoadGrand(i, p) => AboveStaysInTree(f, i, p);
      case Shortcut(i, p, gp) => AboveStaysInTree(f, i, p); AboveStaysInTree(f, p, gp);
      case Found(r) => if r != x { AboveStaysInTree(f, x, r); }
    }
  }

  /** A step of find keeps every pointer at a proper ancestor and what the thread knows.  The vertex
      it answers with is, at that moment, the root of the tree of x. */
  lemma FindStepCorrect(P: seq<int>, f: Forest, x: nat, pc: Find)
    requires Represents(P, f) && FindInv(f, x, pc)
    ensures
      FindInRange(|P|, pc) && (pc.LoadParent? ==> P[pc.i] >= 0) && (pc.LoadGrand? ==> P[pc.p] >= 0)
    ensures
      var (P', pc') := FindStep(P, pc);
      Represents(P', f) && FindInv(f, x, pc') && (pc'.Found? && !pc.Found? ==> pc'.r == f.root[x])
  {
    FindInvInRange(f, x, pc);
    match pc {
      case Start(i) =>
      case LoadParent(i) =>
      case Test(i, p) =>
        AboveStaysInTree(f, i, p);
        AboveTrans(f, x, i, p);
        AboveStaysInTree(f, x, p);
      case LoadGrand(i, p) =>
      case Shortcut(i, p, gp) =>
        AboveStaysInTree(f, i, p);
        AboveTrans(f, x, i, p);
        AboveTrans(f, i, p, gp);
      case Found(r) =>
    }
  }

  lemma FindInvSurvivesLink(f: Forest, u: nat, v: nat, x: nat, pc: Find)
    requires Valid(f) && u < |f.parent| && v < |f.parent| && IsRoot(f, u)
    requires FindInv(f, x, pc)
    ensures FindInv(LinkTo(f, u, v), x, pc)
  {
    forall a, b | Above(f, a, b) ensures Above(LinkTo(f, u, v), a, b) {
      AboveSurvivesLink(f, u, v, a, b);
    }
  }

  /** The store of link(u, v), with u a root and v in another tree. */
  lemma LinkStep(P: seq<int>, f: Forest, u: nat, v: nat)
    requires Represents(P, f) && u < |P| && v < |P| && IsRoot(f, u) && f.root[v] != u
    ensures Represents(P[u := v], LinkTo(f, u, v))
  {
    LinkKeepsForest(f, u, v);
    var g := LinkTo(f, u, v);
    ParentIsAbove(g, u);
    forall x | 0 <= x < |P| && P[x] >= 0 ensures Above(g, x, P[x]) {
      AboveSurvivesLink(f, u, v, x, P[x]);
    }
  }

  lemma RootsSurviveLink(f: Forest, u: nat, v: nat)
    requires Valid(f) && u < |f.parent| && v < |f.parent| && IsRoot(f, u) && f.root[v] != u
    ensures forall x, y :: 0 <= x < |f.parent| && 0 <= y < |f.parent| && f.root[x] == f.root[y] ==>
      LinkTo(f, u, v).root[x] == LinkTo(f, u, v).root[y]
  {
  }

  lemma SingletonsRepresent(n: nat)
    ensures Represents(seq(n, _ => -1), Singletons(n))
  {
    SingletonsValid(n);
  }

  // ---------- a find that runs ----------

  /** How far a find still has to go: up the tree, at most. */
  ghost function FindWork(f: Forest): Find -> nat {
    (pc: Find) =>
      match pc
      case Start(i) => HeightAt(f, i) + 2
      case LoadParent(i) => HeightAt(f, i) + 1
      case Test(_, p) => HeightAt(f, p) + 3
      case LoadGrand(_, p) => HeightAt(f, p) + 2
      case Shortcut(_, p, _) => HeightAt(f, p) + 1
      case Found(_) => 0
  }

  ghost function HeightAt(f: Forest, x: nat): nat {
    if x < |f.height| then 3 * f.height[x] else 0
  }

  lemma FindWorkFalls(P: seq<int>, f: Forest, x: nat, pc: Find)
    requires Represents(P, f) && FindInv(f, x, pc) && CanFind(P, pc) && !pc.Found?
    ensures FindWork(f)(FindStep(P, pc).1) < FindWork(f)(pc)
  {
    match pc {
      case Start(i) =>
      case LoadParent(i) => AboveStaysInTree(f, i, P[i]);
      case Test(i, p) =>
      case LoadGrand(i, p) =>
      case Shortcut(i, p, gp) => AboveStaysInTree(f, p, gp);
    }
  }

  /** A find of x that has not answered yet. */
  ghost predicate Finding(f: Forest, x: nat, pc: Find) {
    FindInv(f, x, pc) && !pc.Found?
  }

  method FindAccess(parents: array<int>, pc: Find) returns (pc': Find)
    requires CanFind(parents[..], pc)
    modifies parents
    ensures (parents[..], pc') == FindStep(old(parents[..]), pc)
  {
    match pc {
      case Start(i) => pc' := if parents[i] < 0 then Found(i) else LoadParent(i);
      case LoadParent(i) => pc' := Test(i, parents[i]);
      case Test(i, p) => pc' := if parents[p] < 0 then Found(p) else LoadGrand(i, p);
      case LoadGrand(i, p) => pc' := Shortcut(i, p, parents[p]);
      case Shortcut(i, p, gp) => parents[i] := gp; pc' := Test(p, gp);
      case Found(_) => pc' := pc;
    }
  }

  /** One access of a find of x: it answers with the root at this moment, or comes nearer to one. */
  method FindMore(parents: array<int>, pc: Find, ghost f: Forest, ghost x: nat) returns (pc': Find)
    requires Represents(parents[..], f) && Finding(f, x, pc)
    modifies parents
    ensures Represents(parents[..], f) && x < |f.root|
    ensures if pc'.Found? then pc'.r == f.root[x] else Finding(f, x, pc') && FindWork(f)(pc') < FindWork(f)(pc)
  {
    FindStepCorrect(parents[..], f, x, pc);
    FindWorkFalls(parents[..], f, x, pc);
    hide Valid, FindWork, FindStep;
    pc' := FindAccess(parents, pc);
  }

  // ---------- a find that runs alone ----------

  /** The vertices from x up to its root, by the pointers as they are. */
  ghost function Way(P: seq<int>, f: Forest, x: nat): (way: seq<nat>)
    requires Represents(P, f) && x < |P|
    ensures |way| > 0 && way[0] == x
    decreases HeightAt(f, x)
  {
    if P[x] < 0 then [x]
    else
      AboveStaysInTree(f, x, P[x]);
      [x] + Way(P, f, P[x])
  }

  /** Where the accesses of one find lead, if no other thread takes a step between them. */
  ghost function Alone(P: seq<int>, f: Forest, x: nat, pc: Find): (end: (seq<int>, nat))
    requires Represents(P, f) && FindInv(f, x, pc)
    decreases FindWork(f)(pc)
  {
    FindStepCorrect(P, f, x, pc);
    if pc.Found? then (P, pc.r)
    else
      FindWorkFalls(P, f, x, pc);
      var (P', pc') := FindStep(P, pc);
      Alone(P', f, x, pc')
  }

  /** The vertices of a way are no higher than its start. */
  lemma {:induction false} WayDescends(P: seq<int>, f: Forest, x: nat, y: nat)
    requires Represents(P, f) && x < |P| && y in Way(P, f, x)
    ensures y < |P| && f.height[y] <= f.height[x]
    decreases HeightAt(f, x)
  {
    if P[x] >= 0 {
      AboveStaysInTree(f, x, P[x]);
      if y != x {
        WayDescends(P, f, P[x], y);
      }
    }
  }

  /** A way that does not pass a vertex stays the same when that vertex's pointer moves. */
  lemma {:induction false} WayStays(P: seq<int>, P': seq<int>, f: Forest, x: nat)
    requires Represents(P, f) && Represents(P', f) && x < |P|
    requires forall y :: 0 <= y < |P| && f.height[y] <= f.height[x] ==> P'[y] == P[y]
    ensures Way(P', f, x) == Way(P, f, x)
    decreases HeightAt(f, x)
  {
    if P[x] >= 0 {
      AboveStaysInTree(f, x, P[x]);
      WayStays(P, P', f, P[x]);
    }
  }

  /** Each pointer of the way now skips one vertex, unless it leads to the root. */
  ghost predicate Skipped(P: seq<int>, P': seq<int>, f: Forest, x: nat)
    requires Represents(P, f) && x < |P|
  {
    |P'| == |P| && forall y :: 0 <= y < |P| ==>
      P'[y] == if y in Way(P, f, x) && 0 <= P[y] < |P| && P[P[y]] >= 0 then P[P[y]] else P[y]
  }

  lemma SkipOne(P: seq<int>, P': seq<int>, f: Forest, i: nat, p: nat, y: nat)
    requires Represents(P, f) && i < |P| && P[i] == p && p < |P| && P[p] >= 0 && y < |P|
    requires Represents(P[i := P[p]], f) && Skipped(P[i := P[p]], P', f, p)
    requires Way(P[i := P[p]], f, p) == Way(P, f, p)
    ensures P'[y] == if y in Way(P, f, i) && 0 <= P[y] < |P| && P[P[y]] >= 0 then P[P[y]] else P[y]
  {
    AboveStaysInTree(f, i, p);
    AboveStaysInTree(f, p, P[p]);
    if i in Way(P, f, p) {
      WayDescends(P, f, p, i);
    }
    if y in Way(P, f, p) {
      WayDescends(P, f, p, y);
      if P[y] >= 0 {
        AboveStaysInTree(f, y, P[y]);
      }
    }
  }

  /** The three accesses of one turn of the loop. */
  lemma OneTurn(P: seq<int>, f: Forest, x: nat, i: nat, p: nat)
    requires Represents(P, f) && FindInv(f, x, Test(i, p)) && i < |P| && p < |P| && P[p] >= 0
    ensures Represents(P[i := P[p]], f) && FindInv(f, x, Test(p, P[p]))
    ensures Alone(P, f, x, Test(i, p)) == Alone(P[i := P[p]], f, x, Test(p, P[p]))
  {
    FindStepCorrect(P, f, x, Test(i, p));
    FindStepCorrect(P, f, x, LoadGrand(i, p));
    FindStepCorrect(P, f, x, Shortcut(i, p, P[p]));
    hide Represents, FindInv;
    assert Alone(P, f, x, Test(i, p)) == Alone(P, f, x, LoadGrand(i, p));
    assert Alone(P, f, x, LoadGrand(i, p)) == Alone(P, f, x, Shortcut(i, p, P[p]));
    assert Alone(P, f, x, Shortcut(i, p, P[p])) == Alone(P[i := P[p]], f, x, Test(p, P[p]));
  }

  lemma {:induction false} AloneFrom(P: seq<int>, f: Forest, x: nat, i: nat, p: nat)
    requires Represents(P, f) && FindInv(f, x, Test(i, p)) && i < |P| && P[i] == p
    ensures
      var (P', r) := Alone(P, f, x, Test(i, p));
      r == f.root[x] && Skipped(P, P', f, i)
    decreases HeightAt(f, i)
  {
    FindStepCorrect(P, f, x, Test(i, p));
    AboveStaysInTree(f, i, p);
    if P[p] >= 0 {
      OneTurn(P, f, x, i, p);
      var P1 := P[i := P[p]];
      WayStays(P, P1, f, p);
      AloneFrom(P1, f, x, p, P[p]);
      var P' := Alone(P, f, x, Test(i, p)).0;
      forall y | 0 <= y < |P|
        ensures P'[y] == if y in Way(P, f, i) && 0 <= P[y] < |P| && P[P[y]] >= 0 then P[P[y]] else P[y]
      {
        SkipOne(P, P', f, i, p, y);
      }
    } else {
      assert Way(P, f, i) == [i] + Way(P, f, p) == [i, p];
    }
  }

  /** A find that runs alone answers with the root, and makes every pointer on its way skip one vertex... */
  lemma FindSkips(P: seq<int>, f: Forest, x: nat)
    requires Represents(P, f) && x < |P|
    ensures
      var (P', r) := Alone(P, f, x, Start(x));
      Represents(P', f) && r == f.root[x] && Skipped(P, P', f, x)
  {
    FindStepCorrect(P, f, x, Start(x));
    StaysRepresented(P, f, x, Start(x));
    if P[x] >= 0 {
      FindStepCorrect(P, f, x, LoadParent(x));
      AboveStaysInTree(f, x, P[x]);
      AloneFrom(P, f, x, x, P[x]);
      assert Alone(P, f, x, Start(x)) == Alone(P, f, x, LoadParent(x)) == Alone(P, f, x, Test(x, P[x]));
    } else {
      assert Way(P, f, x) == [x];
    }
  }

  lemma {:induction false} StaysRepresented(P: seq<int>, f: Forest, x: nat, pc: Find)
    requires Represents(P, f) && FindInv(f, x, pc)
    ensures Represents(Alone(P, f, x, pc).0, f)
    decreases FindWork(f)(pc)
  {
    FindStepCorrect(P, f, x, pc);
    if !pc.Found? {
      FindWorkFalls(P, f, x, pc);
      StaysRepresented(FindStep(P, pc).0, f, x, FindStep(P, pc).1);
    }
  }

  /** ... so the way is half as long afterwards. */
  lemma {:induction false} WayHalves(P: seq<int>, P': seq<int>, f: Forest, x: nat, y: nat)
    requires Represents(P, f) && Represents(P', f) && x < |P| && y < |P| && Skipped(P, P', f, x) && y in Way(P, f, x)
    requires forall z :: z in Way(P, f, y) ==> z in Way(P, f, x)
    ensures |Way(P', f, y)| == |Way(P, f, y)| / 2 + 1
    decreases HeightAt(f, y)
  {
    WayDescends(P, f, x, y);
    if P[y] >= 0 {
      var p := P[y];
      AboveStaysInTree(f, y, p);
      assert Way(P, f, y) == [y] + Way(P, f, p);
      if P[p] >= 0 {
        AboveStaysInTree(f, p, P[p]);
        assert Way(P, f, p) == [p] + Way(P, f, P[p]);
        assert P[p] in Way(P, f, P[p]);
        WayHalves(P, P', f, x, P[p]);
        assert Way(P', f, y) == [y] + Way(P', f, P[p]);
      } else {
        assert p in Way(P, f, p);
        assert Way(P', f, y) == [y] + Way(P', f, p);
      }
    }
  }

  lemma FindHalves(P: seq<int>, f: Forest, x: nat)
    requires Represents(P, f) && x < |P|
    ensures
      var P' := Alone(P, f, x, Start(x)).0;
      Represents(P', f) && |Way(P', f, x)| == |Way(P, f, x)| / 2 + 1
  {
    FindSkips(P, f, x);
    WayHalves(P, Alone(P, f, x, Start(x)).0, f, x, x);
  }
}
