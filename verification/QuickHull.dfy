/** The upper hull of points above a line, computed in one array: a two-ended partition keeps the points
    above two new lines at the two ends, and the results of the recursive calls are moved together. */
module QuickHull {

  datatype Point = Point(x: real, y: real)

  /** Twice the area of the oriented triangle a, b, c. */
  function Area(a: Point, b: Point, c: Point): real {
    (b.x - a.x) * (c.y - a.y) - (b.y - a.y) * (c.x - a.x)
  }

  /** A linear function of the plane. */
  function Level(u: real, v: real, p: Point): real {
    u * p.x + v * p.y
  }

  // ---------- areas ----------

  /** The two areas over a farthest point m add up to the difference of the two heights. */
  lemma AreaIdentity(l: Point, r: Point, m: Point, p: Point)
    ensures Area(l, m, p) + Area(m, r, p) == Area(l, r, p) - Area(l, r, m)
  {
  }

  lemma SameCorner(a: Point, b: Point)
    ensures Area(a, b, a) == 0.0 && Area(a, b, b) == 0.0
  {
  }

  lemma AreaTurns(a: Point, b: Point, c: Point)
    ensures Area(b, c, a) == Area(a, b, c) && Area(a, c, b) == -Area(a, b, c)
  {
  }

  /** Height over the line l to r is a level. */
  lemma AreaIsLevel(l: Point, r: Point, p: Point)
    ensures Area(l, r, p) == Level(l.y - r.y, r.x - l.x, p) - Level(l.y - r.y, r.x - l.x, l)
  {
  }

  /** Levels in the coordinates of the corner at m. */
  lemma LevelInCorner(l: Point, r: Point, m: Point, p: Point, u: real, v: real)
    ensures Area(l, r, m) * (Level(u, v, p) - Level(u, v, m))
      == (Area(l, r, m) - Area(l, r, p)) * (Level(u, v, l) - Level(u, v, m))
       - Area(l, m, p) * (Level(u, v, r) - Level(u, v, l))
  {
  }

  /** The mirror image, at the other end. */
  lemma LevelInCorner'(l: Point, r: Point, m: Point, p: Point, u: real, v: real)
    ensures Area(l, r, m) * (Level(u, v, p) - Level(u, v, m))
      == (Area(l, r, m) - Area(l, r, p)) * (Level(u, v, r) - Level(u, v, m))
       + Area(m, r, p) * (Level(u, v, r) - Level(u, v, l))
  {
  }

  /** Below a chain that climbs from l to a farthest point m lies everything that is not above the line
      l to m and not higher than m. */
  lemma BelowClimb(l: Point, r: Point, m: Point, a: Point, b: Point, p: Point)
    requires Area(l, r, m) > 0.0 && 0.0 <= Area(l, r, p) <= Area(l, r, m) && Area(l, m, p) <= 0.0
    requires Area(a, b, l) <= 0.0 && Area(a, b, m) <= 0.0 && Area(l, r, a) <= Area(l, r, b)
    ensures Area(a, b, p) <= 0.0
  {
    var u, v := a.y - b.y, b.x - a.x;
    LevelInCorner(l, r, m, p, u, v);
    AreaIsLevel(a, b, p);
    AreaIsLevel(a, b, m);
    AreaIsLevel(a, b, l);
    AreaIsLevel(a, b, r);
    var H, h := Area(l, r, m), Area(l, r, p);
    var El, Em, Ep, Er := Area(a, b, l), Area(a, b, m), Area(a, b, p), Area(a, b, r);
    assert Er - El == Area(l, r, a) - Area(l, r, b);
    Combination(H, h, El, Em, Ep, Area(l, m, p), Er - El);
  }

  lemma BelowDescent(l: Point, r: Point, m: Point, a: Point, b: Point, p: Point)
    requires Area(l, r, m) > 0.0 && 0.0 <= Area(l, r, p) <= Area(l, r, m) && Area(m, r, p) <= 0.0
    requires Area(a, b, r) <= 0.0 && Area(a, b, m) <= 0.0 && Area(l, r, b) <= Area(l, r, a)
    ensures Area(a, b, p) <= 0.0
  {
    var u, v := a.y - b.y, b.x - a.x;
    LevelInCorner'(l, r, m, p, u, v);
    AreaIsLevel(a, b, p);
    AreaIsLevel(a, b, m);
    AreaIsLevel(a, b, l);
    AreaIsLevel(a, b, r);
    var H, h := Area(l, r, m), Area(l, r, p);
    var El, Em, Ep, Er := Area(a, b, l), Area(a, b, m), Area(a, b, p), Area(a, b, r);
    assert Er - El == Area(l, r, a) - Area(l, r, b);
    Combination(H, h, Er, Em, Ep, -Area(m, r, p), Er - El);
  }

  lemma Combination(H: real, h: real, El: real, Em: real, Ep: real, c: real, d: real)
    requires H > 0.0 && 0.0 <= h <= H && El <= 0.0 && Em <= 0.0
    requires c * d >= 0.0
    requires H * (Ep - Em) == (H - h) * (El - Em) - c * d
    ensures Ep <= 0.0
  {
    assert H * Ep == h * Em + (H - h) * El - c * d;
    assert h * Em <= 0.0 && (H - h) * El <= 0.0;
  }

  /** A level that grows from l over m to r grows to what is above the line l to m, and on to m. */
  lemma LevelClimbs(l: Point, r: Point, m: Point, p: Point, u: real, v: real)
    requires Area(l, r, m) > 0.0 && Area(l, r, p) <= Area(l, r, m) && Area(l, m, p) >= 0.0
    requires Level(u, v, l) <= Level(u, v, m) && Level(u, v, l) <= Level(u, v, r)
    ensures Level(u, v, p) <= Level(u, v, m)
  {
  }

  lemma LevelClimbs'(l: Point, r: Point, m: Point, p: Point, u: real, v: real)
    requires Area(l, r, m) > 0.0 && Area(l, r, p) <= Area(l, r, m) && Area(m, r, p) >= 0.0
    requires Level(u, v, m) <= Level(u, v, r) && Level(u, v, l) <= Level(u, v, r)
    ensures Level(u, v, m) <= Level(u, v, p)
  {
  }

  // ---------- hulls ----------

  /** Indices of points, all above the line l to r. */
  ghost predicate Above(P: seq<Point>, S: seq<nat>, l: nat, r: nat) {
    l < |P| && r < |P| && forall k :: 0 <= k < |S| ==> S[k] < |P| && Area(P[l], P[r], P[S[k]]) > 0.0
  }

  function Chain(l: nat, out: seq<nat>, r: nat): seq<nat> {
    [l] + out + [r]
  }

  /** Point x is on or below the line through the edge j of the chain. */
  ghost predicate BelowEdge(P: seq<Point>, c: seq<nat>, j: nat, x: nat) {
    j + 1 < |c| && c[j] < |P| && c[j + 1] < |P| && x < |P| && Area(P[c[j]], P[c[j + 1]], P[x]) <= 0.0
  }

  ghost predicate Under(P: seq<Point>, c: seq<nat>, x: nat) {
    forall j :: 0 <= j < |c| - 1 ==> BelowEdge(P, c, j, x)
  }

  /** Every point is on or below the line through each edge of the chain from l over out to r. */
  ghost predicate Supports(P: seq<Point>, S: seq<nat>, l: nat, r: nat, out: seq<nat>) {
    forall x :: x in S || x == l || x == r ==> Under(P, Chain(l, out, r), x)
  }

  ghost predicate RisesAt(P: seq<Point>, c: seq<nat>, u: real, v: real, j: nat) {
    j + 1 < |c| && c[j] < |P| && c[j + 1] < |P| && Level(u, v, P[c[j]]) <= Level(u, v, P[c[j + 1]])
  }

  ghost predicate Rises(P: seq<Point>, c: seq<nat>, u: real, v: real) {
    forall j :: 0 <= j < |c| - 1 ==> RisesAt(P, c, u, v, j)
  }

  ghost predicate Between(P: seq<Point>, S: seq<nat>, l: nat, r: nat, u: real, v: real) {
    && l < |P| && r < |P| && Level(u, v, P[l]) <= Level(u, v, P[r])
    && forall k :: 0 <= k < |S| ==> S[k] < |P| && Level(u, v, P[l]) <= Level(u, v, P[S[k]]) <= Level(u, v, P[r])
  }

  /** A level least at l and greatest at r never falls along the chain. */
  ghost predicate Monotone(P: seq<Point>, S: seq<nat>, l: nat, r: nat, out: seq<nat>) {
    forall u: real, v: real :: Between(P, S, l, r, u, v) ==> Rises(P, Chain(l, out, r), u, v)
  }

  /** x lies in the closed triangle a, b, c, a proper one with its corners in clockwise order. */
  ghost predicate InTriangle(P: seq<Point>, a: nat, b: nat, c: nat, x: nat) {
    && a < |P| && b < |P| && c < |P| && x < |P| && Area(P[a], P[b], P[c]) < 0.0
    && Area(P[a], P[b], P[x]) <= 0.0 && Area(P[b], P[c], P[x]) <= 0.0 && Area(P[c], P[a], P[x]) <= 0.0
  }

  /** That makes x a mixture of the three corners: its weights, up to a factor, are the areas opposite. */
  lemma TriangleIsMixture(P: seq<Point>, a: nat, b: nat, c: nat, x: nat)
    requires InTriangle(P, a, b, c, x)
    ensures
      var (u, v, w) := (-Area(P[b], P[c], P[x]), -Area(P[c], P[a], P[x]), -Area(P[a], P[b], P[x]));
      && u >= 0.0 && v >= 0.0 && w >= 0.0 && u + v + w == -Area(P[a], P[b], P[c]) > 0.0
      && (u + v + w) * P[x].x == u * P[a].x + v * P[b].x + w * P[c].x
      && (u + v + w) * P[x].y == u * P[a].y + v * P[b].y + w * P[c].y
  {
  }

  /** Every point is returned or in a triangle of l, r and returned points. */
  ghost predicate Covered(P: seq<Point>, S: seq<nat>, l: nat, r: nat, out: seq<nat>) {
    forall x :: x in S && x !in out ==>
      exists a, b, c :: a in Chain(l, out, r) && b in Chain(l, out, r) && c in Chain(l, out, r)
        && InTriangle(P, a, b, c, x)
  }

  ghost predicate Hull(P: seq<Point>, S: seq<nat>, l: nat, r: nat, out: seq<nat>) {
    && multiset(out) <= multiset(S)
    && Supports(P, S, l, r, out) && Monotone(P, S, l, r, out) && Covered(P, S, l, r, out)
  }

  /** Fewer than two points are their own hull. */
  lemma SmallHull(P: seq<Point>, S: seq<nat>, l: nat, r: nat)
    requires Above(P, S, l, r) && |S| < 2
    ensures Hull(P, S, l, r, S)
  {
    var c := Chain(l, S, r);
    if |S| == 1 {
      assert c == [l, S[0], r];
      AreaTurns(P[l], P[S[0]], P[r]);
      AreaTurns(P[l], P[r], P[S[0]]);
      AreaTurns(P[S[0]], P[r], P[l]);
      SameCorner(P[l], P[S[0]]);
      SameCorner(P[S[0]], P[r]);
    } else {
      assert c == [l, r];
      SameCorner(P[l], P[r]);
    }
  }

  lemma ChainsJoin(l: nat, outL: seq<nat>, m: nat, outR: seq<nat>, r: nat)
    ensures Chain(l, outL + [m] + outR, r) == Chain(l, outL, m) + Chain(m, outR, r)[1..]
  {
  }

  lemma UnderJoin(P: seq<Point>, l: nat, outL: seq<nat>, m: nat, outR: seq<nat>, r: nat, x: nat)
    requires Under(P, Chain(l, outL, m), x) && Under(P, Chain(m, outR, r), x)
    ensures Under(P, Chain(l, outL + [m] + outR, r), x)
  {
    ChainsJoin(l, outL, m, outR, r);
    var cL, cR, c := Chain(l, outL, m), Chain(m, outR, r), Chain(l, outL + [m] + outR, r);
    forall j | 0 <= j < |c| - 1 ensures BelowEdge(P, c, j, x) {
      if j < |cL| - 1 {
        assert BelowEdge(P, cL, j, x);
      } else {
        assert BelowEdge(P, cR, j - (|cL| - 1), x);
      }
    }
  }

  lemma RisesJoin(P: seq<Point>, l: nat, outL: seq<nat>, m: nat, outR: seq<nat>, r: nat, u: real, v: real)
    requires Rises(P, Chain(l, outL, m), u, v) && Rises(P, Chain(m, outR, r), u, v)
    ensures Rises(P, Chain(l, outL + [m] + outR, r), u, v)
  {
    ChainsJoin(l, outL, m, outR, r);
    var cL, cR, c := Chain(l, outL, m), Chain(m, outR, r), Chain(l, outL + [m] + outR, r);
    forall j | 0 <= j < |c| - 1 ensures RisesAt(P, c, u, v, j) {
      if j < |cL| - 1 {
        assert RisesAt(P, cL, u, v, j);
      } else {
        assert RisesAt(P, cR, u, v, j - (|cL| - 1));
      }
    }
  }

  // ---------- one step of the recursion ----------

  /** m is a farthest of the points; L are those above the line l to m, R those above m to r. */
  ghost predicate Divides(P: seq<Point>, S: seq<nat>, l: nat, r: nat, m: nat, L: seq<nat>, R: seq<nat>) {
    && Above(P, S, l, r) && m in S && m < |P|
    && (forall x :: x in S ==> x < |P| && 0.0 < Area(P[l], P[r], P[x]) <= Area(P[l], P[r], P[m]))
    && (forall x :: x in L <==> x in S && Area(P[l], P[m], P[x]) > 0.0)
    && (forall x :: x in R <==> x in S && Area(P[m], P[r], P[x]) > 0.0)
  }

  /** No point is on both sides. */
  lemma SidesDisjoint(P: seq<Point>, S: seq<nat>, l: nat, r: nat, m: nat, L: seq<nat>, R: seq<nat>, x: nat)
    requires Divides(P, S, l, r, m, L, R)
    ensures !(x in L && x in R) && m !in L && m !in R
  {
    if x in S {
      AreaIdentity(P[l], P[r], P[m], P[x]);
    }
    SameCorner(P[l], P[m]);
    SameCorner(P[m], P[r]);
  }

  /** The edge j of the left chain... */
  lemma LeftEdge(P: seq<Point>, l: nat, r: nat, m: nat, c: seq<nat>, j: nat, x: nat)
    requires l < |P| && r < |P| && m < |P| && RisesAt(P, c, P[l].y - P[r].y, P[r].x - P[l].x, j)
    requires BelowEdge(P, c, j, l) && BelowEdge(P, c, j, m) && Area(P[l], P[r], P[m]) > 0.0
    requires x < |P| && 0.0 <= Area(P[l], P[r], P[x]) <= Area(P[l], P[r], P[m]) && Area(P[l], P[m], P[x]) <= 0.0
    ensures BelowEdge(P, c, j, x)
  {
    AreaIsLevel(P[l], P[r], P[c[j]]);
    AreaIsLevel(P[l], P[r], P[c[j + 1]]);
    hide Area, Level;
    BelowClimb(P[l], P[r], P[m], P[c[j]], P[c[j + 1]], P[x]);
  }

  /** ... and of the right one. */
  lemma RightEdge(P: seq<Point>, l: nat, r: nat, m: nat, c: seq<nat>, j: nat, x: nat)
    requires l < |P| && r < |P| && m < |P| && RisesAt(P, c, P[r].y - P[l].y, P[l].x - P[r].x, j)
    requires BelowEdge(P, c, j, m) && BelowEdge(P, c, j, r) && Area(P[l], P[r], P[m]) > 0.0
    requires x < |P| && 0.0 <= Area(P[l], P[r], P[x]) <= Area(P[l], P[r], P[m]) && Area(P[m], P[r], P[x]) <= 0.0
    ensures BelowEdge(P, c, j, x)
  {
    AreaIsLevel(P[l], P[r], P[c[j]]);
    AreaIsLevel(P[l], P[r], P[c[j + 1]]);
    LevelFlips(P[l], P[r], P[c[j]], P[c[j + 1]]);
    hide Area, Level;
    BelowDescent(P[l], P[r], P[m], P[c[j]], P[c[j + 1]], P[x]);
  }

  lemma LevelFlips(l: Point, r: Point, a: Point, b: Point)
    requires Level(r.y - l.y, l.x - r.x, a) <= Level(r.y - l.y, l.x - r.x, b)
    ensures Level(l.y - r.y, r.x - l.x, b) <= Level(l.y - r.y, r.x - l.x, a)
  {
  }

  /** A point of S not on the left, or an end, is not above the line l to m. */
  lemma NotLeft(P: seq<Point>, S: seq<nat>, l: nat, r: nat, m: nat, L: seq<nat>, R: seq<nat>, x: nat)
    requires Divides(P, S, l, r, m, L, R) && (x in S || x == l || x == r) && x !in L
    ensures l < |P| && r < |P| && m < |P| && x < |P| && Area(P[l], P[r], P[m]) > 0.0
    ensures 0.0 <= Area(P[l], P[r], P[x]) <= Area(P[l], P[r], P[m]) && Area(P[l], P[m], P[x]) <= 0.0
  {
  }

  lemma NotRight(P: seq<Point>, S: seq<nat>, l: nat, r: nat, m: nat, L: seq<nat>, R: seq<nat>, x: nat)
    requires Divides(P, S, l, r, m, L, R) && (x in S || x == l || x == r) && x !in R
    ensures l < |P| && r < |P| && m < |P| && x < |P| && Area(P[l], P[r], P[m]) > 0.0
    ensures 0.0 <= Area(P[l], P[r], P[x]) <= Area(P[l], P[r], P[m]) && Area(P[m], P[r], P[x]) <= 0.0
  {
    if x == l || x == r {
      OutsideFacts(P, S, l, r, m, x);
    }
    hide Area;
  }

  /** The left chain has all points on or below its edges. */
  lemma LeftUnder(P: seq<Point>, S: seq<nat>, l: nat, r: nat, m: nat, L: seq<nat>, R: seq<nat>, out: seq<nat>, x: nat)
    requires Divides(P, S, l, r, m, L, R) && Supports(P, L, l, m, out) && Monotone(P, L, l, m, out)
    requires x in S || x == l || x == r
    ensures Under(P, Chain(l, out, m), x)
  {
    hide Area, Level, Chain;
    var c := Chain(l, out, m);
    if !(x in L || x == l || x == m) {
      ClimbRises(P, S, l, r, m, L, R);
      NotLeft(P, S, l, r, m, L, R, x);
      hide Divides, Between, BelowEdge, RisesAt;
      var u, v := P[l].y - P[r].y, P[r].x - P[l].x;
      assert Rises(P, c, u, v) && Under(P, c, l) && Under(P, c, m);
      forall j | 0 <= j < |c| - 1 ensures BelowEdge(P, c, j, x) {
        LeftEdge(P, l, r, m, c, j, x);
      }
    }
  }

  lemma RightUnder(P: seq<Point>, S: seq<nat>, l: nat, r: nat, m: nat, L: seq<nat>, R: seq<nat>, out: seq<nat>, x: nat)
    requires Divides(P, S, l, r, m, L, R) && Supports(P, R, m, r, out) && Monotone(P, R, m, r, out)
    requires x in S || x == l || x == r
    ensures Under(P, Chain(m, out, r), x)
  {
    hide Area, Level, Chain;
    var c := Chain(m, out, r);
    if !(x in R || x == m || x == r) {
      DescentRises(P, S, l, r, m, L, R);
      NotRight(P, S, l, r, m, L, R, x);
      hide Divides, Between, BelowEdge, RisesAt;
      var u, v := P[r].y - P[l].y, P[l].x - P[r].x;
      assert Rises(P, c, u, v) && Under(P, c, m) && Under(P, c, r);
      forall j | 0 <= j < |c| - 1 ensures BelowEdge(P, c, j, x) {
        RightEdge(P, l, r, m, c, j, x);
      }
    }
  }

  /** The ends are below the new lines. */
  lemma OutsideFacts(P: seq<Point>, S: seq<nat>, l: nat, r: nat, m: nat, x: nat)
    requires Above(P, S, l, r) && m < |P| && Area(P[l], P[r], P[m]) > 0.0
    requires x == l || x == r
    ensures Area(P[l], P[r], P[x]) == 0.0 && Area(P[l], P[m], P[x]) <= 0.0 && Area(P[m], P[r], P[x]) <= 0.0
  {
  }

  /** Height grows along the left chain... */
  lemma ClimbRises(P: seq<Point>, S: seq<nat>, l: nat, r: nat, m: nat, L: seq<nat>, R: seq<nat>)
    requires Divides(P, S, l, r, m, L, R)
    ensures Between(P, L, l, m, P[l].y - P[r].y, P[r].x - P[l].x)
  {
    AreaIsLevel(P[l], P[r], P[m]);
    forall k | 0 <= k < |L|
      ensures L[k] < |P|
      ensures
        var u, v := P[l].y - P[r].y, P[r].x - P[l].x;
        Level(u, v, P[l]) <= Level(u, v, P[L[k]]) <= Level(u, v, P[m])
    {
      assert L[k] in L;
      AreaIsLevel(P[l], P[r], P[L[k]]);
    }
  }

  /** ... and falls along the right one. */
  lemma DescentRises(P: seq<Point>, S: seq<nat>, l: nat, r: nat, m: nat, L: seq<nat>, R: seq<nat>)
    requires Divides(P, S, l, r, m, L, R)
    ensures Between(P, R, m, r, P[r].y - P[l].y, P[l].x - P[r].x)
  {
    SameCorner(P[l], P[r]);
    AreaIsLevel(P[l], P[r], P[m]);
    AreaIsLevel(P[l], P[r], P[r]);
    forall k | 0 <= k < |R|
      ensures R[k] < |P|
      ensures
        var u, v := P[r].y - P[l].y, P[l].x - P[r].x;
        Level(u, v, P[m]) <= Level(u, v, P[R[k]]) <= Level(u, v, P[r])
    {
      assert R[k] in R;
      AreaIsLevel(P[l], P[r], P[R[k]]);
    }
  }

  /** The two chains joined at m are a hull. */
  lemma HullJoin(P: seq<Point>, S: seq<nat>, l: nat, r: nat, m: nat, L: seq<nat>, R: seq<nat>, outL: seq<nat>,
      outR: seq<nat>)
    requires Divides(P, S, l, r, m, L, R) && multiset(L) + multiset{m} + multiset(R) <= multiset(S)
    requires Hull(P, L, l, m, outL) && Hull(P, R, m, r, outR)
    ensures Hull(P, S, l, r, outL + [m] + outR)
  {
    var out := outL + [m] + outR;
    assert multiset(out) == multiset(outL) + multiset{m} + multiset(outR);
    forall x | x in S || x == l || x == r ensures Under(P, Chain(l, out, r), x) {
      LeftUnder(P, S, l, r, m, L, R, outL, x);
      RightUnder(P, S, l, r, m, L, R, outR, x);
      UnderJoin(P, l, outL, m, outR, r, x);
    }
    forall u: real, v: real | Between(P, S, l, r, u, v) ensures Rises(P, Chain(l, out, r), u, v) {
      BetweenSides(P, S, l, r, m, L, R, u, v);
      RisesJoin(P, l, outL, m, outR, r, u, v);
    }
    forall x | x in S && x !in out
      ensures exists a, b, c ::
        a in Chain(l, out, r) && b in Chain(l, out, r) && c in Chain(l, out, r) && InTriangle(P, a, b, c, x)
    {
      CoveredHere(P, S, l, r, m, L, R, outL, outR, x);
    }
  }

  lemma BetweenSides(P: seq<Point>, S: seq<nat>, l: nat, r: nat, m: nat, L: seq<nat>, R: seq<nat>, u: real, v: real)
    requires Divides(P, S, l, r, m, L, R) && Between(P, S, l, r, u, v)
    ensures Between(P, L, l, m, u, v) && Between(P, R, m, r, u, v)
  {
    assert m in S;
    var i :| 0 <= i < |S| && S[i] == m;
    forall k | 0 <= k < |L| ensures L[k] < |P| && Level(u, v, P[l]) <= Level(u, v, P[L[k]]) <= Level(u, v, P[m]) {
      assert L[k] in L && L[k] in S;
      var j :| 0 <= j < |S| && S[j] == L[k];
      LevelClimbs(P[l], P[r], P[m], P[L[k]], u, v);
    }
    forall k | 0 <= k < |R| ensures R[k] < |P| && Level(u, v, P[m]) <= Level(u, v, P[R[k]]) <= Level(u, v, P[r]) {
      assert R[k] in R && R[k] in S;
      var j :| 0 <= j < |S| && S[j] == R[k];
      LevelClimbs'(P[l], P[r], P[m], P[R[k]], u, v);
    }
  }

  lemma CoveredHere(P: seq<Point>, S: seq<nat>, l: nat, r: nat, m: nat, L: seq<nat>, R: seq<nat>, outL: seq<nat>,
      outR: seq<nat>, x: nat)
    requires Divides(P, S, l, r, m, L, R) && x in S && x !in outL + [m] + outR
    requires Covered(P, L, l, m, outL) && Covered(P, R, m, r, outR)
    ensures
      var chain := Chain(l, outL + [m] + outR, r);
      exists a, b, c :: a in chain && b in chain && c in chain && InTriangle(P, a, b, c, x)
  {
    var chain := Chain(l, outL + [m] + outR, r);
    forall y | y in Chain(l, outL, m) || y in Chain(m, outR, r) ensures y in chain {
      assert y in outL || y in outR || y == l || y == m || y == r;
      assert chain[0] == l && chain[|chain| - 1] == r && chain[|outL| + 1] == m;
      assert chain[1..|outL| + 1] == outL && chain[|outL| + 2..|chain| - 1] == outR;
    }
    if x in L {
      assert x !in outL;
      var a, b, c :| a in Chain(l, outL, m) && b in Chain(l, outL, m) && c in Chain(l, outL, m)
        && InTriangle(P, a, b, c, x);
    } else if x in R {
      assert x !in outR;
      var a, b, c :| a in Chain(m, outR, r) && b in Chain(m, outR, r) && c in Chain(m, outR, r)
        && InTriangle(P, a, b, c, x);
    } else {
      AreaTurns(P[l], P[r], P[x]);
      AreaTurns(P[r], P[l], P[x]);
      AreaTurns(P[l], P[r], P[m]);
      assert InTriangle(P, l, m, r, x);
      assert l in Chain(l, outL, m) && m in Chain(l, outL, m) && r in Chain(m, outR, r);
    }
  }

  // ---------- the partition ----------

  function Only(S: seq<nat>, f: nat -> bool): seq<nat> {
    if S == [] then [] else (if f(S[0]) then [S[0]] else []) + Only(S[1..], f)
  }

  lemma {:induction false} OnlyLast(S: seq<nat>, x: nat, f: nat -> bool)
    ensures Only(S + [x], f) == Only(S, f) + if f(x) then [x] else []
  {
    if S != [] {
      assert (S + [x])[1..] == S[1..] + [x];
      OnlyLast(S[1..], x, f);
    }
  }

  lemma {:induction false} OnlyCount(S: seq<nat>, f: nat -> bool, x: nat)
    ensures multiset(Only(S, f))[x] == if f(x) then multiset(S)[x] else 0
  {
    if S != [] {
      OnlyCount(S[1..], f, x);
      assert S == [S[0]] + S[1..];
    }
  }

  /** Those kept at one end and those still to be kept are those to keep. */
  ghost predicate Parts(kept: multiset<nat>, mid: seq<nat>, f: nat -> bool, S: seq<nat>) {
    kept + multiset(Only(mid, f)) == multiset(Only(S, f))
  }

  /** The middle, lm to rm, is not read yet; what was kept of the rest is at the two ends. */
  ghost predicate SplitInv(S: seq<nat>, A: seq<nat>, lf: nat -> bool, rf: nat -> bool, ll: int, lm: int, rm: int,
      rr: int)
  {
    && |A| == |S| && 0 <= ll <= lm <= rm + 1 <= rr + 1 <= |S|
    && A[lm..rm + 1] == S[lm..rm + 1]
    && Parts(multiset(A[..ll]), S[lm..rm + 1], lf, S) && Parts(multiset(A[rr + 1..]), S[lm..rm + 1], rf, S)
  }

  function One(x: nat, f: nat -> bool): seq<nat> {
    if f(x) then [x] else []
  }

  lemma OnlyLastOf(S: seq<nat>, f: nat -> bool, lm: int, rm: int)
    requires 0 <= lm <= rm < |S|
    ensures Only(S[lm..rm + 1], f) == Only(S[lm..rm], f) + One(S[rm], f)
  {
    assert S[lm..rm + 1] == S[lm..rm] + [S[rm]];
    OnlyLast(S[lm..rm], S[rm], f);
  }

  lemma PartsFirst(kept: multiset<nat>, S: seq<nat>, f: nat -> bool, lm: int, rm: int)
    requires 0 <= lm <= rm < |S| && Parts(kept, S[lm..rm + 1], f, S)
    ensures Parts(if f(S[lm]) then kept + multiset{S[lm]} else kept, S[lm + 1..rm + 1], f, S)
  {
  }

  lemma PartsLast(kept: multiset<nat>, S: seq<nat>, f: nat -> bool, lm: int, rm: int)
    requires 0 <= lm <= rm < |S| && Parts(kept, S[lm..rm + 1], f, S)
    ensures Parts(if f(S[rm]) then kept + multiset{S[rm]} else kept, S[lm..rm], f, S)
  {
    OnlyLastOf(S, f, lm, rm);
    hide Only;
    assert multiset(Only(S[lm..rm], f) + One(S[rm], f)) == multiset(Only(S[lm..rm], f)) + multiset(One(S[rm], f));
  }

  /** The ends of the middle are as they were. */
  lemma MiddleIs(S: seq<nat>, A: seq<nat>, lf: nat -> bool, rf: nat -> bool, ll: int, lm: int, rm: int, rr: int)
    requires SplitInv(S, A, lf, rf, ll, lm, rm, rr)
    ensures |A| == |S| && 0 <= ll <= lm <= rm + 1 <= rr + 1 <= |S|
    ensures lm <= rm ==> A[lm] == S[lm] && A[rm] == S[rm]
  {
  }

  /** Writes at the two ends, and what they leave of the rest. */
  lemma WriteLeft(A: seq<nat>, ll: int, lm: int, rm: int, rr: int, x: nat)
    requires 0 <= ll <= lm <= rm <= rr < |A|
    ensures multiset(A[ll := x][..ll + 1]) == multiset(A[..ll]) + multiset{x}
    ensures A[ll := x][rr + 1..] == A[rr + 1..] && A[ll := x][lm + 1..rm + 1] == A[lm + 1..rm + 1]
  {
    assert A[ll := x][..ll + 1] == A[..ll] + [x];
  }

  lemma WriteRight(A: seq<nat>, ll: int, lm: int, rm: int, rr: int, x: nat)
    requires 0 <= ll <= lm <= rm <= rr < |A|
    ensures multiset(A[rr := x][rr..]) == multiset(A[rr + 1..]) + multiset{x}
    ensures A[rr := x][..ll] == A[..ll] && A[rr := x][lm..rm] == A[lm..rm]
  {
    assert A[rr := x][rr..] == [x] + A[rr + 1..];
  }

  /** The first of the middle is kept at the left end, or dropped. */
  lemma TakeLeft(S: seq<nat>, A: seq<nat>, lf: nat -> bool, rf: nat -> bool, ll: int, lm: int, rm: int, rr: int)
    requires SplitInv(S, A, lf, rf, ll, lm, rm, rr) && lm <= rm && !rf(A[lm])
    ensures lf(A[lm]) ==> SplitInv(S, A[ll := A[lm]], lf, rf, ll + 1, lm + 1, rm, rr)
    ensures !lf(A[lm]) ==> SplitInv(S, A, lf, rf, ll, lm + 1, rm, rr)
  {
    hide Parts;
    MiddleIs(S, A, lf, rf, ll, lm, rm, rr);
    PartsFirst(multiset(A[..ll]), S, lf, lm, rm);
    PartsFirst(multiset(A[rr + 1..]), S, rf, lm, rm);
    WriteLeft(A, ll, lm, rm, rr, A[lm]);
    assert A[lm + 1..rm + 1] == A[lm..rm + 1][1..] && S[lm + 1..rm + 1] == S[lm..rm + 1][1..];
  }

  /** The last of the middle is kept at the right end, or dropped. */
  lemma TakeRight(S: seq<nat>, A: seq<nat>, lf: nat -> bool, rf: nat -> bool, ll: int, lm: int, rm: int, rr: int)
    requires SplitInv(S, A, lf, rf, ll, lm, rm, rr) && lm <= rm && !lf(A[rm])
    ensures rf(A[rm]) ==> SplitInv(S, A[rr := A[rm]], lf, rf, ll, lm, rm - 1, rr - 1)
    ensures !rf(A[rm]) ==> SplitInv(S, A, lf, rf, ll, lm, rm - 1, rr)
  {
    hide Parts;
    MiddleIs(S, A, lf, rf, ll, lm, rm, rr);
    PartsLast(multiset(A[..ll]), S, lf, lm, rm);
    PartsLast(multiset(A[rr + 1..]), S, rf, lm, rm);
    WriteRight(A, ll, lm, rm, rr, A[rm]);
    assert A[lm..rm] == A[lm..rm + 1][..rm - lm] && S[lm..rm] == S[lm..rm + 1][..rm - lm];
  }

  /** The first goes to the right end and the last to the left end. */
  lemma Exchange(S: seq<nat>, A: seq<nat>, lf: nat -> bool, rf: nat -> bool, ll: int, lm: int, rm: int, rr: int)
    requires SplitInv(S, A, lf, rf, ll, lm, rm, rr) && lm < rm
    requires rf(A[lm]) && !lf(A[lm]) && lf(A[rm]) && !rf(A[rm])
    ensures SplitInv(S, A[ll := A[rm]][rr := A[lm]], lf, rf, ll + 1, lm + 1, rm - 1, rr - 1)
  {
    hide Parts;
    var x, y := A[lm], A[rm];
    MiddleIs(S, A, lf, rf, ll, lm, rm, rr);
    PartsFirst(multiset(A[..ll]), S, lf, lm, rm);
    PartsFirst(multiset(A[rr + 1..]), S, rf, lm, rm);
    PartsLast(multiset(A[..ll]), S, lf, lm + 1, rm);
    PartsLast(multiset(A[rr + 1..]) + multiset{x}, S, rf, lm + 1, rm);
    WriteLeft(A, ll, lm, rm, rr, y);
    WriteRight(A[ll := y], ll + 1, lm + 1, rm, rr, x);
    assert A[lm + 1..rm + 1] == A[lm..rm + 1][1..] && S[lm + 1..rm + 1] == S[lm..rm + 1][1..];
    assert A[ll := y][lm + 1..rm] == A[ll := y][lm + 1..rm + 1][..rm - lm - 1];
    assert S[lm + 1..rm] == S[lm + 1..rm + 1][..rm - lm - 1];
  }

  // ---------- parts of the array ----------

  function Part(W: seq<nat>, lo: nat, n: nat): (r: seq<nat>)
    requires lo + n <= |W|
    ensures |r| == n
  {
    W[lo..lo + n]
  }

  /** V is W outside the n entries from lo on. */
  ghost predicate Frame(W: seq<nat>, V: seq<nat>, lo: nat, n: nat) {
    |V| == |W| && lo + n <= |W| && V[..lo] == W[..lo] && V[lo + n..] == W[lo + n..]
  }

  lemma PartStays(W: seq<nat>, V: seq<nat>, lo: nat, n: nat, a: nat, k: nat)
    requires Frame(W, V, lo, n) && a + k <= |W| && (a + k <= lo || lo + n <= a)
    ensures Part(V, a, k) == Part(W, a, k)
  {
  }

  /** Two changes inside a range change only the range. */
  lemma FrameJoin(W: seq<nat>, V: seq<nat>, U: seq<nat>, a: nat, k: nat, b: nat, j: nat, lo: nat, n: nat)
    requires Frame(W, V, a, k) && Frame(V, U, b, j) && lo + n <= |W|
    requires lo <= a && a + k <= lo + n && lo <= b && b + j <= lo + n
    ensures Frame(W, U, lo, n)
  {
    PartStays(W, V, a, k, 0, lo);
    PartStays(V, U, b, j, 0, lo);
    PartStays(W, V, a, k, lo + n, |W| - lo - n);
    PartStays(V, U, b, j, lo + n, |W| - lo - n);
  }

  lemma WritePart(W: seq<nat>, lo: nat, n: nat, k: nat, x: nat)
    requires lo + n <= |W| && k < n
    ensures Part(W[lo + k := x], lo, n) == Part(W, lo, n)[k := x] && Frame(W, W[lo + k := x], lo, n)
  {
  }

  /** Keeps the first entry of the middle, if it is one to keep on the left. */
  method KeepLeft(I: array<nat>, lo: nat, ghost S: seq<nat>, lf: nat -> bool, ghost rf: nat -> bool, ll0: int, lm: int,
      ghost rm: int, ghost rr: int)
    returns (ll: int)
    requires lo + |S| <= I.Length && SplitInv(S, Part(I[..], lo, |S|), lf, rf, ll0, lm, rm, rr)
    requires 0 <= ll0 <= lm <= rm < |S| && !rf(I[lo + lm])
    modifies I
    ensures SplitInv(S, Part(I[..], lo, |S|), lf, rf, ll, lm + 1, rm, rr) && Frame(old(I[..]), I[..], lo, |S|)
  {
    hide SplitInv, Frame;
    ghost var W := I[..];
    TakeLeft(S, Part(W, lo, |S|), lf, rf, ll0, lm, rm, rr);
    FrameSelf(W, lo, |S|);
    ll := ll0;
    if lf(I[lo + lm]) {
      WritePart(W, lo, |S|, ll, I[lo + lm]);
      I[lo + ll] := I[lo + lm];
      ll := ll + 1;
    }
  }

  /** Keeps the last entry of the middle, if it is one to keep on the right. */
  method KeepRight(I: array<nat>, lo: nat, ghost S: seq<nat>, ghost lf: nat -> bool, rf: nat -> bool, ghost ll: int,
      ghost lm: int, rm: int, rr0: int)
    returns (rr: int)
    requires lo + |S| <= I.Length && SplitInv(S, Part(I[..], lo, |S|), lf, rf, ll, lm, rm, rr0)
    requires 0 <= lm <= rm <= rr0 < |S| && !lf(I[lo + rm])
    modifies I
    ensures SplitInv(S, Part(I[..], lo, |S|), lf, rf, ll, lm, rm - 1, rr) && Frame(old(I[..]), I[..], lo, |S|)
    ensures lm < rm ==> I[lo + lm] == old(I[lo + lm])
  {
    hide SplitInv, Frame;
    ghost var W := I[..];
    TakeRight(S, Part(W, lo, |S|), lf, rf, ll, lm, rm, rr0);
    FrameSelf(W, lo, |S|);
    rr := rr0;
    if rf(I[lo + rm]) {
      WritePart(W, lo, |S|, rr, I[lo + rm]);
      I[lo + rr] := I[lo + rm];
      rr := rr - 1;
    }
  }

  /** The scan from the left, up to an entry with rf. */
  method ScanLeft(I: array<nat>, lo: nat, ghost S: seq<nat>, lf: nat -> bool, rf: nat -> bool, ll0: int, lm0: int,
      rm: int, rr: int)
    returns (ll: int, lm: int)
    requires lo + |S| <= I.Length && SplitInv(S, Part(I[..], lo, |S|), lf, rf, ll0, lm0, rm, rr)
    modifies I
    ensures SplitInv(S, Part(I[..], lo, |S|), lf, rf, ll, lm, rm, rr) && Frame(old(I[..]), I[..], lo, |S|)
    ensures 0 <= lm0 <= lm <= rm + 1 <= |S| && (lm <= rm ==> rf(I[lo + lm]))
  {
    hide SplitInv, Frame;
    ghost var n := |S|;
    ll, lm := ll0, lm0;
    MiddleIs(S, Part(I[..], lo, n), lf, rf, ll, lm, rm, rr);
    FrameSelf(I[..], lo, n);
    while lm <= rm && !rf(I[lo + lm])
      invariant SplitInv(S, Part(I[..], lo, n), lf, rf, ll, lm, rm, rr) && Frame(old(I[..]), I[..], lo, n)
      invariant 0 <= ll <= lm <= rm + 1 <= n && lm0 <= lm
    {
      ghost var W := I[..];
      ll := KeepLeft(I, lo, S, lf, rf, ll, lm, rm, rr);
      FrameJoin(old(I[..]), W, I[..], lo, n, lo, n, lo, n);
      lm := lm + 1;
      MiddleIs(S, Part(I[..], lo, n), lf, rf, ll, lm, rm, rr);
    }
  }

  /** The scan from the right, down to an entry with lf. */
  method ScanRight(I: array<nat>, lo: nat, ghost S: seq<nat>, lf: nat -> bool, rf: nat -> bool, ll: int, lm: int,
      rm0: int, rr0: int)
    returns (rm: int, rr: int)
    requires lo + |S| <= I.Length && SplitInv(S, Part(I[..], lo, |S|), lf, rf, ll, lm, rm0, rr0)
    modifies I
    ensures SplitInv(S, Part(I[..], lo, |S|), lf, rf, ll, lm, rm, rr) && Frame(old(I[..]), I[..], lo, |S|)
    ensures rm <= rm0 && 0 <= lm <= rm + 1 <= |S| && (lm <= rm ==> I[lo + lm] == old(I[lo + lm]) && lf(I[lo + rm]))
  {
    hide SplitInv, Frame;
    ghost var n := |S|;
    rm, rr := rm0, rr0;
    MiddleIs(S, Part(I[..], lo, n), lf, rf, ll, lm, rm, rr);
    FrameSelf(I[..], lo, n);
    while lm <= rm && !lf(I[lo + rm])
      invariant SplitInv(S, Part(I[..], lo, n), lf, rf, ll, lm, rm, rr) && Frame(old(I[..]), I[..], lo, n)
      invariant 0 <= lm <= rm + 1 <= rr + 1 <= n && rm <= rm0
      invariant lm <= rm ==> I[lo + lm] == old(I[lo + lm])
    {
      ghost var W := I[..];
      rr := KeepRight(I, lo, S, lf, rf, ll, lm, rm, rr);
      FrameJoin(old(I[..]), W, I[..], lo, n, lo, n, lo, n);
      rm := rm - 1;
      MiddleIs(S, Part(I[..], lo, n), lf, rf, ll, lm, rm, rr);
    }
  }

  lemma FrameSelf(W: seq<nat>, lo: nat, n: nat)
    requires lo + n <= |W|
    ensures Frame(W, W, lo, n)
  {
  }

  /** Both scans stopped: the two entries change places. */
  method ExchangeEnds(I: array<nat>, lo: nat, ghost S: seq<nat>, ghost lf: nat -> bool, ghost rf: nat -> bool, ll: int,
      lm: int, rm: int, rr: int)
    requires lo + |S| <= I.Length && SplitInv(S, Part(I[..], lo, |S|), lf, rf, ll, lm, rm, rr) && lm < rm
    requires 0 <= ll <= lm && rm <= rr < |S|
    requires rf(I[lo + lm]) && !lf(I[lo + lm]) && lf(I[lo + rm]) && !rf(I[lo + rm])
    modifies I
    ensures SplitInv(S, Part(I[..], lo, |S|), lf, rf, ll + 1, lm + 1, rm - 1, rr - 1)
    ensures Frame(old(I[..]), I[..], lo, |S|)
  {
    hide SplitInv, Frame;
    ghost var W, n := I[..], |S|;
    Exchange(S, Part(W, lo, n), lf, rf, ll, lm, rm, rr);
    var tmp := I[lo + lm];
    WritePart(W, lo, n, ll, I[lo + rm]);
    I[lo + ll] := I[lo + rm];
    WritePart(I[..], lo, n, rr, tmp);
    FrameJoin(W, I[..], I[..][lo + rr := tmp], lo, n, lo, n, lo, n);
    I[lo + rr] := tmp;
  }

  /** No entry is on both sides. */
  ghost predicate OneSided(S: seq<nat>, lf: nat -> bool, rf: nat -> bool) {
    forall k :: 0 <= k < |S| ==> !(lf(S[k]) && rf(S[k]))
  }

  /** An entry of the middle is on one side. */
  lemma MiddleOneSided(S: seq<nat>, A: seq<nat>, lf: nat -> bool, rf: nat -> bool, ll: int, lm: int, rm: int, rr: int)
    requires SplitInv(S, A, lf, rf, ll, lm, rm, rr) && OneSided(S, lf, rf) && lm <= rm
    ensures 0 <= lm < |A| && rm < |A| && !(lf(A[lm]) && rf(A[lm])) && !(lf(A[rm]) && rf(A[rm]))
  {
    MiddleIs(S, A, lf, rf, ll, lm, rm, rr);
  }

  /** One round of the loop: both scans, and the exchange if the middle is not used up. */
  method SplitRound(I: array<nat>, lo: nat, ghost S: seq<nat>, lf: nat -> bool, rf: nat -> bool, ll0: int, lm0: int,
      rm0: int, rr0: int)
    returns (ll: int, lm: int, rm: int, rr: int)
    requires lo + |S| <= I.Length && SplitInv(S, Part(I[..], lo, |S|), lf, rf, ll0, lm0, rm0, rr0)
      && OneSided(S, lf, rf)
    modifies I
    ensures SplitInv(S, Part(I[..], lo, |S|), lf, rf, ll, lm, rm, rr) && Frame(old(I[..]), I[..], lo, |S|)
    ensures lm <= rm ==> rm - lm < rm0 - lm0
  {
    hide SplitInv, OneSided, Frame;
    ghost var n, W := |S|, I[..];
    ll, lm := ScanLeft(I, lo, S, lf, rf, ll0, lm0, rm0, rr0);
    ghost var W1 := I[..];
    rm, rr := ScanRight(I, lo, S, lf, rf, ll, lm, rm0, rr0);
    ghost var W2 := I[..];
    FrameJoin(W, W1, W2, lo, n, lo, n, lo, n);
    MiddleIs(S, Part(W2, lo, n), lf, rf, ll, lm, rm, rr);
    if lm <= rm {
      MiddleOneSided(S, Part(W2, lo, n), lf, rf, ll, lm, rm, rr);
      ExchangeEnds(I, lo, S, lf, rf, ll, lm, rm, rr);
      FrameJoin(W, W2, I[..], lo, n, lo, n, lo, n);
      ll, lm, rm, rr := ll + 1, lm + 1, rm - 1, rr - 1;
    }
  }

  /** What the partition of S made of it: the first n1 are those with lf, the last n2 those with rf. */
  ghost predicate Partitioned(S: seq<nat>, A: seq<nat>, lf: nat -> bool, rf: nat -> bool, n1: nat, n2: nat) {
    && |A| == |S| && n1 <= |S| && n2 <= |S|
    && multiset(A[..n1]) == multiset(Only(S, lf)) && multiset(A[|S| - n2..]) == multiset(Only(S, rf))
  }

  /** The two-ended partition of the n entries from lo on. */
  method Split(I: array<nat>, lo: nat, n: nat, lf: nat -> bool, rf: nat -> bool) returns (n1: nat, n2: nat)
    requires lo + n <= I.Length && OneSided(Part(I[..], lo, n), lf, rf)
    modifies I
    ensures Frame(old(I[..]), I[..], lo, n)
    ensures Partitioned(Part(old(I[..]), lo, n), Part(I[..], lo, n), lf, rf, n1, n2)
  {
    ghost var W := I[..];
    ghost var S := Part(W, lo, n);
    var ll, lm, rm, rr := 0, 0, n - 1, n - 1;
    SplitStarts(S, lf, rf);
    FrameSelf(W, lo, n);
    hide *;
    while lm <= rm
      invariant SplitInv(S, Part(I[..], lo, n), lf, rf, ll, lm, rm, rr) && Frame(W, I[..], lo, n)
      decreases rm - lm
    {
      ghost var V := I[..];
      ll, lm, rm, rr := SplitRound(I, lo, S, lf, rf, ll, lm, rm, rr);
      FrameJoin(W, V, I[..], lo, n, lo, n, lo, n);
    }
    SplitEnds(S, Part(I[..], lo, n), lf, rf, ll, lm, rm, rr);
    n1, n2 := ll, n - rr - 1;
  }

  lemma SplitStarts(S: seq<nat>, lf: nat -> bool, rf: nat -> bool)
    ensures SplitInv(S, S, lf, rf, 0, 0, |S| - 1, |S| - 1)
  {
    assert S[0..|S|] == S && S[..0] == [] && S[|S|..] == [];
  }

  lemma SplitEnds(S: seq<nat>, A: seq<nat>, lf: nat -> bool, rf: nat -> bool, ll: int, lm: int, rm: int, rr: int)
    requires SplitInv(S, A, lf, rf, ll, lm, rm, rr) && lm > rm
    ensures 0 <= ll && rr + 1 <= |S| && Partitioned(S, A, lf, rf, ll, |S| - rr - 1)
  {
  }

  // ---------- the recursion, in one array ----------

  lemma PartitionCounts(S: seq<nat>, A: seq<nat>, lf: nat -> bool, rf: nat -> bool, n1: nat, n2: nat, x: nat)
    requires Partitioned(S, A, lf, rf, n1, n2)
    ensures multiset(A[..n1])[x] == if lf(x) then multiset(S)[x] else 0
    ensures multiset(A[|A| - n2..])[x] == if rf(x) then multiset(S)[x] else 0
  {
    OnlyCount(S, lf, x);
    OnlyCount(S, rf, x);
    hide Only;
  }

  /** The partition by the two new lines leaves room for m between its parts. */
  lemma PartitionDivides(P: seq<Point>, S: seq<nat>, l: nat, r: nat, m: nat, A: seq<nat>, n1: nat, n2: nat)
    requires Above(P, S, l, r) && m in S && m < |P| && Farthest(P, S, l, r, m)
    requires Partitioned(S, A, AboveLine(P, l, m), AboveLine(P, m, r), n1, n2)
    ensures n1 + 1 + n2 <= |S| == |A|
    ensures
      var L, R := A[..n1], A[|A| - n2..];
      && Divides(P, S, l, r, m, L, R) && multiset(L) + multiset{m} + multiset(R) <= multiset(S)
      && Above(P, L, l, m) && Above(P, R, m, r)
  {
    var L: seq<nat>, R: seq<nat> := A[..n1], A[|A| - n2..];
    forall x: nat | true
      ensures multiset(L)[x] == if AboveLine(P, l, m)(x) then multiset(S)[x] else 0
      ensures multiset(R)[x] == if AboveLine(P, m, r)(x) then multiset(S)[x] else 0
    {
      PartitionCounts(S, A, AboveLine(P, l, m), AboveLine(P, m, r), n1, n2, x);
    }
    MembersOf(S, L, AboveLine(P, l, m));
    MembersOf(S, R, AboveLine(P, m, r));
    PartsDivide(P, S, l, r, m, L, R);
    hide *;
    RoomForOne(P, S, l, r, m, L, R);
  }

  lemma PartsDivide(P: seq<Point>, S: seq<nat>, l: nat, r: nat, m: nat, L: seq<nat>, R: seq<nat>)
    requires Above(P, S, l, r) && m in S && m < |P| && Farthest(P, S, l, r, m)
    requires forall x: nat :: x in L <==> x in S && AboveLine(P, l, m)(x)
    requires forall x: nat :: x in R <==> x in S && AboveLine(P, m, r)(x)
    ensures Divides(P, S, l, r, m, L, R) && Above(P, L, l, m) && Above(P, R, m, r)
  {
    hide Area;
    assert forall k :: 0 <= k < |L| ==> L[k] in L;
    assert forall k :: 0 <= k < |R| ==> R[k] in R;
  }

  lemma RoomForOne(P: seq<Point>, S: seq<nat>, l: nat, r: nat, m: nat, L: seq<nat>, R: seq<nat>)
    requires Divides(P, S, l, r, m, L, R)
    requires forall x: nat :: multiset(L)[x] <= multiset(S)[x] && multiset(R)[x] <= multiset(S)[x]
    ensures multiset(L) + multiset{m} + multiset(R) <= multiset(S) && |L| + 1 + |R| <= |S|
  {
    var all := multiset(L) + multiset{m} + multiset(R);
    assert multiset(S)[m] > 0 by { Absent(S, m); }
    forall x: nat | true ensures all[x] <= multiset(S)[x] {
      SidesDisjoint(P, S, l, r, m, L, R, x);
      SidesDisjoint(P, S, l, r, m, L, R, m);
      Absent(L, x);
      Absent(R, x);
      hide Divides, Area;
    }
    assert all <= multiset(S);
    Smaller(all, multiset(S));
  }

  lemma Smaller(a: multiset<nat>, b: multiset<nat>)
    requires a <= b
    ensures |a| <= |b|
  {
    assert b == a + (b - a);
  }

  lemma Absent(s: seq<nat>, x: nat)
    ensures x !in s <==> multiset(s)[x] == 0
  {
  }

  lemma MembersOf(S: seq<nat>, L: seq<nat>, f: nat -> bool)
    requires forall x: nat :: multiset(L)[x] == if f(x) then multiset(S)[x] else 0
    ensures forall x: nat :: x in L <==> x in S && f(x)
  {
  }

  ghost predicate Farthest(P: seq<Point>, S: seq<nat>, l: nat, r: nat, m: nat)
    requires l < |P| && r < |P| && m < |P|
  {
    forall x :: x in S ==> x < |P| && Area(P[l], P[r], P[x]) <= Area(P[l], P[r], P[m])
  }

  /** aboveLeft and aboveRight. */
  function AboveLine(P: seq<Point>, a: nat, b: nat): nat -> bool {
    (i: nat) => a < |P| && b < |P| && i < |P| && Area(P[a], P[b], P[i]) > 0.0
  }

  /** The first point of the range that is farthest from the line l to r. */
  method FindFarthest(I: array<nat>, P: seq<Point>, lo: nat, n: nat, l: nat, r: nat) returns (m: nat)
    requires lo + n <= I.Length && n > 0 && Above(P, Part(I[..], lo, n), l, r)
    ensures m in Part(I[..], lo, n) && m < |P| && Farthest(P, Part(I[..], lo, n), l, r, m)
  {
    ghost var S := Part(I[..], lo, n);
    hide Area;
    assert S[0] == I[lo];
    m := I[lo];
    var maxArea := Area(P[l], P[r], P[m]);
    for i := 1 to n
      invariant m in S && m < |P| && maxArea == Area(P[l], P[r], P[m])
      invariant forall k :: 0 <= k < i ==> S[k] < |P| && Area(P[l], P[r], P[S[k]]) <= maxArea
    {
      var j := I[lo + i];
      assert S[i] == j;
      var a := Area(P[l], P[r], P[j]);
      if a > maxArea {
        maxArea, m := a, j;
      }
    }
  }

  /** Both sides at once is impossible. */
  lemma SidesAreApart(P: seq<Point>, S: seq<nat>, l: nat, r: nat, m: nat)
    requires Above(P, S, l, r) && m < |P| && Farthest(P, S, l, r, m)
    ensures OneSided(S, AboveLine(P, l, m), AboveLine(P, m, r))
  {
  }

  // ---------- the recursion ----------

  /** After i moves. */
  function Moved(W: seq<nat>, to: nat, from: nat, i: nat): (r: seq<nat>)
    requires to <= from && from + i <= |W|
    ensures |r| == |W|
  {
    W[..to] + W[from..from + i] + W[to + i..]
  }

  lemma MoveOne(W: seq<nat>, to: nat, from: nat, i: nat)
    requires to <= from && from + i < |W|
    ensures Moved(W, to, from, i)[from + i] == W[from + i]
    ensures Moved(W, to, from, i)[to + i := W[from + i]] == Moved(W, to, from, i + 1)
  {
  }

  lemma MovedAll(W: seq<nat>, lo: nat, m1: nat, from: nat, m2: nat, m: nat)
    requires lo + m1 < from && from + m2 <= |W|
    ensures
      var V := Moved(W, lo + m1 + 1, from, m2)[lo + m1 := m];
      Frame(W, V, lo, from + m2 - lo) && Part(V, lo, m1 + 1 + m2) == Part(W, lo, m1) + [m] + Part(W, from, m2)
  {
    var to := lo + m1 + 1;
    var V := Moved(W, to, from, m2)[lo + m1 := m];
    assert V[..lo] == W[..lo] && V[from + m2..] == W[from + m2..];
    assert V[lo..lo + m1] == W[lo..lo + m1] && V[lo + m1] == m && V[to..to + m2] == W[from..from + m2];
    assert V[lo..to + m2] == V[lo..lo + m1] + [V[lo + m1]] + V[to..to + m2];
  }

  /** Moves the right result next to the left one, with m between. */
  method Gather(I: array<nat>, lo: nat, m1: nat, from: nat, m2: nat, m: nat)
    requires lo + m1 < from && from + m2 <= I.Length
    modifies I
    ensures Frame(old(I[..]), I[..], lo, from + m2 - lo)
    ensures Part(I[..], lo, m1 + 1 + m2) == Part(old(I[..]), lo, m1) + [m] + Part(old(I[..]), from, m2)
  {
    ghost var W := I[..];
    assert Moved(W, lo + m1 + 1, from, 0) == W;
    hide Frame, Part, Moved;
    for i := 0 to m2
      invariant I[..] == Moved(W, lo + m1 + 1, from, i)
    {
      MoveOne(W, lo + m1 + 1, from, i);
      assert I[i + from] == I[..][from + i];
      I[i + lo + m1 + 1] := I[i + from];
    }
    MovedAll(W, lo, m1, from, m2, m);
    I[lo + m1] := m;
  }

  /** The upper hull of the n points from lo on, which are above the line l to r: afterwards the first
      `count` entries are it, in order from l to r.  Nothing outside the range is written. */
  method SerialQuickHull(I: array<nat>, P: seq<Point>, lo: nat, n: nat, l: nat, r: nat) returns (count: nat)
    requires lo + n <= I.Length && Above(P, Part(I[..], lo, n), l, r)
    modifies I
    ensures count <= n && Frame(old(I[..]), I[..], lo, n)
    ensures Hull(P, Part(old(I[..]), lo, n), l, r, Part(I[..], lo, count))
    decreases n, 1
  {
    if n < 2 {
      hide Area, Above, Hull, Part;
      SmallHull(P, Part(I[..], lo, n), l, r);
      return n;
    }
    var m := FindFarthest(I, P, lo, n, l, r);
    hide *;
    count := Recurse(I, P, lo, n, l, r, m);
  }

  /** The partition around m, the two recursive calls, and the joining of their results. */
  method Recurse(I: array<nat>, P: seq<Point>, lo: nat, n: nat, l: nat, r: nat, m: nat) returns (count: nat)
    requires lo + n <= I.Length && Above(P, Part(I[..], lo, n), l, r)
    requires m in Part(I[..], lo, n) && m < |P| && Farthest(P, Part(I[..], lo, n), l, r, m)
    modifies I
    ensures count <= n && Frame(old(I[..]), I[..], lo, n)
    ensures Hull(P, Part(old(I[..]), lo, n), l, r, Part(I[..], lo, count))
    decreases n, 0
  {
    hide *;
    ghost var S := Part(I[..], lo, n);
    InRange(P, S, l, r);
    SidesAreApart(P, S, l, r, m);
    ghost var W := I[..];
    var n1, n2 := Split(I, lo, n, AboveLine(P, l, m), AboveLine(P, m, r));
    ghost var A, W1 := Part(I[..], lo, n), I[..];
    PartitionDivides(P, S, l, r, m, A, n1, n2);
    Sides(W1, lo, n, n1, n2);
    var from := lo + n - n2;
    var m1 := SerialQuickHull(I, P, lo, n1, l, m);
    ghost var W2 := I[..];
    PartStays(W1, W2, lo, n1, from, n2);
    var m2 := SerialQuickHull(I, P, from, n2, m, r);
    ghost var W3 := I[..];
    PartStays(W2, W3, from, n2, lo, m1);
    HullJoin(P, S, l, r, m, A[..n1], A[n - n2..], Part(W3, lo, m1), Part(W3, from, m2));
    Gather(I, lo, m1, from, m2, m);
    FrameJoin(W, W1, W2, lo, n, lo, n1, lo, n);
    FrameJoin(W, W2, W3, lo, n, from, n2, lo, n);
    FrameJoin(W, W3, I[..], lo, n, lo, from + m2 - lo, lo, n);
    count := m1 + 1 + m2;
  }

  lemma Sides(W: seq<nat>, lo: nat, n: nat, n1: nat, n2: nat)
    requires lo + n <= |W| && n1 <= n && n2 <= n
    ensures Part(W, lo, n)[..n1] == Part(W, lo, n1) && Part(W, lo, n)[n - n2..] == Part(W, lo + n - n2, n2)
  {
  }

  lemma InRange(P: seq<Point>, S: seq<nat>, l: nat, r: nat)
    requires Above(P, S, l, r)
    ensures l < |P| && r < |P|
  {
  }
}
