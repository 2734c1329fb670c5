/** The reservations of a round of insertions.  Every point writes its identity, by an atomic maximum,
    to the vertices around its cavity; then every point checks that it holds them all, and releases
    those it holds.  The threads of both phases run in any order. */
module Reservations {
  import opened Schedule
  import opened Topology
  import opened Delaunay

  /** The points of a round by their identities, and the vertices each wants. */
  ghost predicate Round(n: nat, ids: seq<nat>, wants: seq<seq<nat>>) {
    && |wants| == |ids| && (forall i, j :: 0 <= i < j < |ids| ==> ids[i] != ids[j])
    && forall i, k :: 0 <= i < |wants| && 0 <= k < |wants[i]| ==> wants[i][k] < n
  }

  ghost predicate Within(wants: seq<seq<nat>>, pos: seq<nat>) {
    |pos| == |wants| && forall i :: 0 <= i < |pos| ==> pos[i] <= |wants[i]|
  }

  /** The point of identity id has come to vertex u. */
  ghost predicate Holder(ids: seq<nat>, wants: seq<seq<nat>>, pos: seq<nat>, u: nat, id: int)
    requires |wants| == |ids| && Within(wants, pos)
  {
    exists i, k :: 0 <= i < |ids| && 0 <= k < pos[i] && wants[i][k] == u && ids[i] == id
  }

  /** What the reserved vertices hold when each point has written to its first pos of them. */
  ghost predicate Highest(ids: seq<nat>, wants: seq<seq<nat>>, pos: seq<nat>, reserve: seq<int>)
    requires Round(|reserve|, ids, wants) && Within(wants, pos)
  {
    && (forall u :: 0 <= u < |reserve| && reserve[u] != -1 ==> Holder(ids, wants, pos, u, reserve[u]))
    && forall i, k :: 0 <= i < |ids| && 0 <= k < pos[i] ==> ids[i] <= reserve[wants[i][k]]
  }

  lemma WriteKeepsHighest(ids: seq<nat>, wants: seq<seq<nat>>, pos: seq<nat>, reserve: seq<int>, i: nat)
    requires Round(|reserve|, ids, wants) && Within(wants, pos) && Highest(ids, wants, pos, reserve)
    requires i < |ids| && pos[i] < |wants[i]|
    ensures
      var u := wants[i][pos[i]];
      Highest(ids, wants, pos[i := pos[i] + 1], reserve[u := if reserve[u] < ids[i] then ids[i] else reserve[u]])
  {
  }

  /** Where the points stand in their checks: the place in the list, and whether one was lost. */
  ghost predicate Checked(ids: seq<nat>, wants: seq<seq<nat>>, held: seq<int>, pos: seq<nat>, lost: seq<bool>,
      reserve: seq<int>)
    requires Round(|held|, ids, wants) && Within(wants, pos) && |lost| == |ids|
  {
    && |reserve| == |held|
    // a vertex is as it was, or released by the point that held it
    && (forall u :: 0 <= u < |held| && reserve[u] != held[u] ==>
      reserve[u] == -1 && Holder(ids, wants, pos, u, held[u]))
    && (forall i, k :: 0 <= i < |ids| && 0 <= k < pos[i] && held[wants[i][k]] == ids[i] ==> reserve[wants[i][k]] == -1)
    && (forall i, k :: 0 <= i < |ids| && !lost[i] && 0 <= k < pos[i] ==> held[wants[i][k]] == ids[i])
    // a point that holds all it wants, each once, does not lose; one that wants a vertex twice does
    && (forall i :: 0 <= i < |ids| && lost[i] ==> !HoldsAll(ids, wants, held, i))
    && forall i, k, l :: 0 <= i < |ids| && 0 <= k < l < pos[i] && wants[i][k] == wants[i][l] ==> lost[i]
  }

  /** Point i held each vertex it wants, and wants each once. */
  ghost predicate HoldsAll(ids: seq<nat>, wants: seq<seq<nat>>, held: seq<int>, i: nat)
    requires Round(|held|, ids, wants) && i < |ids|
  {
    NoneTwice(wants[i]) && forall k :: 0 <= k < |wants[i]| ==> held[wants[i][k]] == ids[i]
  }

  lemma CheckKeeps(ids: seq<nat>, wants: seq<seq<nat>>, held: seq<int>, pos: seq<nat>, lost: seq<bool>,
      reserve: seq<int>, i: nat)
    requires Round(|held|, ids, wants) && Within(wants, pos) && |lost| == |ids| && i < |ids| && pos[i] < |wants[i]|
    requires Checked(ids, wants, held, pos, lost, reserve)
    ensures
      var u := wants[i][pos[i]];
      var mine := reserve[u] == ids[i];
      Checked(ids, wants, held, pos[i := pos[i] + 1], if mine then lost else lost[i := true],
        if mine then reserve[u := -1] else reserve)
  {
  }

  /** How many accesses are left. */
  function Left(todo: (nat, nat)): nat {
    if todo.0 < todo.1 then todo.1 - todo.0 else 0
  }

  ghost predicate Todo(wants: seq<seq<nat>>, pos: seq<nat>, todo: seq<(nat, nat)>) {
    |todo| == |pos| == |wants| && forall i :: 0 <= i < |pos| ==> todo[i] == (pos[i], |wants[i]|)
  }

  /** All points write their identities, in any order. */
  method ReserveAll(ids: seq<nat>, wants: seq<seq<nat>>, reserve: array<int>) returns (ghost done: seq<nat>)
    requires Round(reserve.Length, ids, wants) && forall u :: 0 <= u < reserve.Length ==> reserve[u] == -1
    modifies reserve
    ensures |done| == |wants| && Within(wants, done) && Highest(ids, wants, done, reserve[..])
    ensures forall i :: 0 <= i < |wants| ==> done[i] == |wants[i]|
  {
    var pos: seq<nat> := seq(|wants|, _ => 0);
    ghost var todo: seq<(nat, nat)> := seq(|wants|, i requires 0 <= i < |wants| => (0, |wants[i]|));
    while exists i :: 0 <= i < |pos| && pos[i] < |wants[i]|
      invariant Within(wants, pos) && Highest(ids, wants, pos, reserve[..]) && Todo(wants, pos, todo)
      decreases Work(Left, todo)
    {
      hide Highest, Work;
      var i :| 0 <= i < |pos| && pos[i] < |wants[i]|;
      WriteKeepsHighest(ids, wants, pos, reserve[..], i);
      ghost var left: (nat, nat) := (pos[i] + 1, |wants[i]|);
      WorkAfterStep(Left, todo, i, left);
      var u := wants[i][pos[i]];
      if reserve[u] < ids[i] {
        reserve[u] := ids[i];
      }
      assert reserve[..] == reserve[..][u := reserve[u]];
      todo := todo[i := left];
      pos := pos[i := pos[i] + 1];
    }
    done := pos;
  }

  /** All points check, in any order. */
  method CheckAll(ids: seq<nat>, wants: seq<seq<nat>>, reserve: array<int>)
    returns (lost: seq<bool>, ghost done: seq<nat>)
    requires Round(reserve.Length, ids, wants)
    modifies reserve
    ensures |lost| == |ids| && |done| == |wants| && Within(wants, done)
    ensures forall i :: 0 <= i < |wants| ==> done[i] == |wants[i]|
    ensures Checked(ids, wants, old(reserve[..]), done, lost, reserve[..])
  {
    ghost var held := reserve[..];
    var pos: seq<nat> := seq(|wants|, _ => 0);
    lost := seq(|ids|, _ => false);
    ghost var todo: seq<(nat, nat)> := seq(|wants|, i requires 0 <= i < |wants| => (0, |wants[i]|));
    while exists i :: 0 <= i < |pos| && pos[i] < |wants[i]|
      invariant Within(wants, pos) && |lost| == |ids| && Checked(ids, wants, held, pos, lost, reserve[..])
      invariant Todo(wants, pos, todo)
      decreases Work(Left, todo)
    {
      hide Checked, Work;
      var i :| 0 <= i < |pos| && pos[i] < |wants[i]|;
      CheckKeeps(ids, wants, held, pos, lost, reserve[..], i);
      ghost var left: (nat, nat) := (pos[i] + 1, |wants[i]|);
      WorkAfterStep(Left, todo, i, left);
      var u := wants[i][pos[i]];
      if reserve[u] == ids[i] {
        reserve[u] := -1;
      } else {
        lost := lost[i := true];
      }
      todo := todo[i := left];
      pos := pos[i := pos[i] + 1];
    }
    done := pos;
  }

  ghost predicate Disjoint(xs: seq<nat>, ys: seq<nat>) {
    forall k, l :: 0 <= k < |xs| && 0 <= l < |ys| ==> xs[k] != ys[l]
  }

  /** The point of the highest identity. */
  ghost predicate Best(ids: seq<nat>, i: nat) {
    i < |ids| && forall j :: 0 <= j < |ids| ==> ids[j] <= ids[i]
  }

  /** Another point of a higher identity wants a vertex that point i wants. */
  ghost predicate Outbid(ids: seq<nat>, wants: seq<seq<nat>>, i: nat) {
    && |ids| == |wants| && i < |ids|
    && exists k: nat, j: nat, l: nat :: k < |wants[i]| && WantsAt(wants, j, l, wants[i][k]) && ids[i] < ids[j]
  }

  ghost predicate WantsAt(wants: seq<seq<nat>>, j: nat, l: nat, u: nat) {
    j < |wants| && l < |wants[j]| && wants[j][l] == u
  }

  /** A point wins just if it wants no vertex twice and none that a higher point wants; so no vertex is won by
      two points, and the best point wins unless it wants a vertex twice.  Every vertex is free afterwards. */
  method ReservationRound(ids: seq<nat>, wants: seq<seq<nat>>, reserve: array<int>) returns (lost: seq<bool>)
    requires Round(reserve.Length, ids, wants) && forall u :: 0 <= u < reserve.Length ==> reserve[u] == -1
    modifies reserve
    ensures |lost| == |ids| && forall u :: 0 <= u < reserve.Length ==> reserve[u] == -1
    ensures forall i, j :: 0 <= i < j < |ids| && !lost[i] && !lost[j] ==> Disjoint(wants[i], wants[j])
    ensures forall i :: 0 <= i < |ids| ==> (!lost[i] <==> NoneTwice(wants[i]) && !Outbid(ids, wants, i))
    ensures forall i: nat :: Best(ids, i) ==> (!lost[i] <==> NoneTwice(wants[i]))
  {
    var written := ReserveAll(ids, wants, reserve);
    ghost var held := reserve[..];
    ghost var done;
    lost, done := CheckAll(ids, wants, reserve);
    assert written == done;
    RoundEnds(ids, wants, held, done, lost, reserve[..]);
  }

  lemma RoundEnds(ids: seq<nat>, wants: seq<seq<nat>>, held: seq<int>, done: seq<nat>, lost: seq<bool>,
      reserve: seq<int>)
    requires Round(|held|, ids, wants) && Within(wants, done) && |lost| == |ids|
    requires forall i :: 0 <= i < |wants| ==> done[i] == |wants[i]|
    requires Highest(ids, wants, done, held) && Checked(ids, wants, held, done, lost, reserve)
    ensures forall u :: 0 <= u < |held| ==> reserve[u] == -1
    ensures forall i, j :: 0 <= i < j < |ids| && !lost[i] && !lost[j] ==> Disjoint(wants[i], wants[j])
    ensures forall i :: 0 <= i < |ids| ==> (!lost[i] <==> NoneTwice(wants[i]) && !Outbid(ids, wants, i))
    ensures forall i: nat :: Best(ids, i) ==> (!lost[i] <==> NoneTwice(wants[i]))
  {
    forall i | 0 <= i < |ids| ensures !lost[i] <==> NoneTwice(wants[i]) && !Outbid(ids, wants, i) {
      Outcome(ids, wants, held, done, lost, reserve, i);
    }
  }

  lemma Outcome(ids: seq<nat>, wants: seq<seq<nat>>, held: seq<int>, done: seq<nat>, lost: seq<bool>, reserve: seq<int>,
                i: nat)
    requires Round(|held|, ids, wants) && Within(wants, done) && |lost| == |ids| && i < |ids|
    requires forall i :: 0 <= i < |wants| ==> done[i] == |wants[i]|
    requires Highest(ids, wants, done, held) && Checked(ids, wants, held, done, lost, reserve)
    ensures !lost[i] <==> NoneTwice(wants[i]) && !Outbid(ids, wants, i)
  {
    if Outbid(ids, wants, i) {
      var k: nat, j: nat, l: nat :| k < |wants[i]| && WantsAt(wants, j, l, wants[i][k]) && ids[i] < ids[j];
      assert ids[j] <= held[wants[j][l]];
    } else if lost[i] && NoneTwice(wants[i]) {
      var k :| 0 <= k < |wants[i]| && held[wants[i][k]] != ids[i];
      assert Holder(ids, wants, done, wants[i][k], held[wants[i][k]]);
      var j: nat, l: nat :| j < |ids| && l < done[j] && wants[j][l] == wants[i][k] && ids[j] == held[wants[i][k]];
      assert ids[i] <= held[wants[i][k]] && WantsAt(wants, j, l, wants[i][k]);
    }
  }

  // ---------- insertions of one round ----------

  /** Cavities whose reserved vertices are disjoint have no triangle in common, and none of one is next
      to one of the other: the insertions of a round change different triangles, and different
      pointers of the triangles around them. */
  lemma WinnersApart(M: seq<Tri>, X: set<int>, Y: set<int>, B: set<nat>, C: set<nat>, x: int, i: nat)
    requires Mesh(M) && CornersHeld(M, X, B) && CornersHeld(M, Y, C) && B !! C
    requires x in X && i < 3
    ensures 0 <= x < |M| && x !in Y && (M[x].ngh[i] != NULL ==> M[x].ngh[i] !in Y)
  {
    var u := M[x].ngh[i];
    assert M[x].vtx[0] in B;
    if u != NULL {
      BackPointer(M, x, i);
      assert M[u].vtx[Locate(M[u], x)] == M[x].vtx[Two(i)];
      assert M[x].vtx[Two(i)] in B;
    }
  }
}
