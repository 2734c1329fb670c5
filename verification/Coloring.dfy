/** Greedy colouring in order of degree, by speculation.
    Whatever the schedule, every vertex gets the colour the sequential loop over the ranks gives it. */
module Coloring {
  import opened Graphs
  import opened Schedule
  import opened Sorting
  import opened SpeculativeFor

  // ---------- the sequential greedy colouring ----------

  /** c is the least colour that no member of `used` has; -1 stands for no colour. */
  ghost predicate IsMex(c: int, used: seq<int>) {
    c >= 0 && c !in used && forall d :: 0 <= d < c ==> d in used
  }

  lemma MexIsUnique(c: int, d: int, used: seq<int>, used': seq<int>)
    requires IsMex(c, used) && IsMex(d, used') && forall x :: x >= 0 ==> (x in used <==> x in used')
    ensures c == d
  {
  }

  /** `ranks` numbers the vertices by degree, largest first, and `ordering` is its inverse. */
  ghost predicate Ranking(G: Graph, ranks: seq<nat>, ordering: seq<nat>) {
    && |ranks| == |ordering| == |G|
    && (forall i :: 0 <= i < |G| ==> ordering[i] < |G| && ranks[ordering[i]] == i)
    && (forall u :: 0 <= u < |G| ==> ranks[u] < |G| && ordering[ranks[u]] == u)
    && forall u, v :: 0 <= u < |G| && 0 <= v < |G| && ranks[u] < ranks[v] ==> |G[u]| >= |G[v]|
  }

  /** What the sequential loop sees at the neighbours of u: the colours of those ranked earlier. */
  ghost function Earlier(G: Graph, ranks: seq<nat>, colors: seq<int>, u: nat): seq<int>
    requires Closed(G) && |ranks| == |colors| == |G| && u < |G|
  {
    seq(|G[u]|, k requires 0 <= k < |G[u]| => if ranks[G[u][k]] < ranks[u] then colors[G[u][k]] else -1)
  }

  ghost predicate EarlierDone(G: Graph, ranks: seq<nat>, done: set<nat>, u: nat)
    requires Closed(G) && |ranks| == |G| && u < |G|
  {
    forall k :: 0 <= k < |G[u]| && ranks[G[u][k]] < ranks[u] ==> ranks[G[u][k]] in done
  }

  /** The iterations in `done` have coloured their vertices as the sequential loop does: with the
      least colour free among the earlier-ranked neighbours, all of them done. */
  ghost predicate GreedyOn(G: Graph, ranks: seq<nat>, colors: seq<int>, done: set<nat>)
    requires Closed(G) && |ranks| == |colors| == |G|
  {
    forall u :: 0 <= u < |G| && ranks[u] in done ==>
      EarlierDone(G, ranks, done, u) && IsMex(colors[u], Earlier(G, ranks, colors, u))
  }

  /** There is only one such colouring. */
  lemma {:induction false} GreedyIsUnique(G: Graph, ranks: seq<nat>, ordering: seq<nat>, done: set<nat>, c: seq<int>,
      d: seq<int>, i: nat)
    requires Closed(G) && Ranking(G, ranks, ordering) && |c| == |d| == |G| && i <= |G|
    requires GreedyOn(G, ranks, c, done) && GreedyOn(G, ranks, d, done)
    ensures forall u :: 0 <= u < |G| && ranks[u] < i && ranks[u] in done ==> c[u] == d[u]
  {
    if i > 0 {
      GreedyIsUnique(G, ranks, ordering, done, c, d, i - 1);
      forall u | 0 <= u < |G| && ranks[u] == i - 1 && ranks[u] in done ensures c[u] == d[u] {
        assert Earlier(G, ranks, c, u) == Earlier(G, ranks, d, u);
        MexIsUnique(c[u], d[u], Earlier(G, ranks, c, u), Earlier(G, ranks, d, u));
      }
    }
  }

  /** No two neighbours get the same colour. */
  lemma GreedyIsProper(G: Graph, ranks: seq<nat>, ordering: seq<nat>, done: set<nat>, colors: seq<int>)
    requires Closed(G) && Symmetric(G) && Ranking(G, ranks, ordering) && |colors| == |G|
    requires GreedyOn(G, ranks, colors, done)
    ensures forall u, k ::
      0 <= u < |G| && 0 <= k < |G[u]| && G[u][k] != u && ranks[u] in done && ranks[G[u][k]] in done ==>
      colors[u] != colors[G[u][k]]
  {
    forall u, k | 0 <= u < |G| && 0 <= k < |G[u]| && G[u][k] != u && ranks[u] in done && ranks[G[u][k]] in done
      ensures colors[u] != colors[G[u][k]]
    {
      var v := G[u][k];
      assert v in G[u];
      assert ordering[ranks[u]] == u && ordering[ranks[v]] == v;
      var j :| 0 <= j < |G[v]| && G[v][j] == u;
      assert Earlier(G, ranks, colors, u)[k] in Earlier(G, ranks, colors, u);
      assert Earlier(G, ranks, colors, v)[j] in Earlier(G, ranks, colors, v);
    }
  }

  // ---------- the body of a commit ----------

  /** The loop that looks for a gap in the sorted neighbour colours finds the least free colour. */
  method FreeColor(used: seq<int>) returns (color: int)
    requires forall k :: 0 <= k < |used| ==> used[k] >= -1
    ensures IsMex(color, used)
  {
    var sorted := Sort(used, (a, b) => a <= b);
    SameMembers(sorted, used);
    color := -1;
    var k := 0;
    while k < |sorted|
      invariant 0 <= k <= |sorted| && color == if k == 0 then -1 else sorted[k - 1]
      invariant color >= -1
      invariant forall j :: 0 <= j < k ==> sorted[j] <= color
      invariant forall d :: 0 <= d <= color ==> HasColor(sorted, k, d)
    {
      if sorted[k] > color + 1 {
        break;
      }
      assert sorted[k] in sorted;
      var next := k + 1;
      forall d | 0 <= d <= sorted[k] ensures HasColor(sorted, next, d) {
        if d <= color {
          assert HasColor(sorted, k, d);
        } else {
          assert sorted[k] == d;
        }
      }
      color, k := sorted[k], next;
    }
    forall j | 0 <= j < |sorted| ensures sorted[j] != color + 1 {
      if j >= k {
        assert sorted[k] <= sorted[j];
      }
    }
    forall d | 0 <= d <= color ensures d in used {
      assert HasColor(sorted, k, d);
    }
    color := color + 1;
    assert color !in sorted;
  }

  ghost predicate HasColor(s: seq<int>, k: nat, d: int) {
    exists j :: 0 <= j < k && j < |s| && s[j] == d
  }

  // ---------- the phases ----------

  ghost predicate BetweenRounds(G: Graph, ranks: seq<nat>, ordering: seq<nat>, colors: seq<int>, done: set<nat>) {
    && Closed(G) && Symmetric(G) && Ranking(G, ranks, ordering) && |colors| == |G|
    && (forall u :: 0 <= u < |G| ==> if ranks[u] in done then colors[u] >= 0 else colors[u] == -1)
    && GreedyOn(G, ranks, colors, done)
  }

  ghost predicate BatchOf(batch: seq<nat>, n: nat, done: set<nat>) {
    Increasing(batch) && forall t :: 0 <= t < |batch| ==> batch[t] < n && batch[t] !in done
  }

  /** The reserve phase writes nothing, so its threads cannot affect one another. */
  method ReservePhase(G: Graph, ranks: seq<nat>, ordering: seq<nat>, colors: array<int>, batch: seq<nat>,
      ghost done: set<nat>)
    returns (keep: seq<Status>)
    requires BetweenRounds(G, ranks, ordering, colors[..], done) && BatchOf(batch, |G|, done)
    ensures |keep| == |batch|
    ensures forall t :: 0 <= t < |batch| ==>
      keep[t] == if EarlierDone(G, ranks, done, ordering[batch[t]]) then TryCommit else TryAgain
  {
    keep := [];
    for t := 0 to |batch|
      invariant |keep| == t
      invariant forall s :: 0 <= s < t ==>
        keep[s] == if EarlierDone(G, ranks, done, ordering[batch[s]]) then TryCommit else TryAgain
    {
      var i := batch[t];
      var u := ordering[i];
      var k, status := 0, TryCommit;
      while k < |G[u]|
        invariant 0 <= k <= |G[u]|
        invariant status == TryCommit && forall j :: 0 <= j < k && ranks[G[u][j]] < i ==> ranks[G[u][j]] in done
      {
        var v := G[u][k];
        if colors[v] == -1 && ranks[v] < i {
          status := TryAgain;
          assert !EarlierDone(G, ranks, done, u);
          break;
        }
        assert colors[..][v] == colors[v];
        k := k + 1;
      }
      keep := keep + [status];
    }
  }

  datatype Pc = Read(seen: seq<int>) | Write(color: int) | Ended

  /** A committing vertex has none of its neighbours committing in the same round. */
  lemma CommittingAreApart(G: Graph, ranks: seq<nat>, ordering: seq<nat>, colors: seq<int>, done: set<nat>, i: nat,
      k: nat)
    requires BetweenRounds(G, ranks, ordering, colors, done) && i < |G| && i !in done
    requires k < |G[ordering[i]]| && G[ordering[i]][k] != ordering[i]
    requires EarlierDone(G, ranks, done, ordering[i])
    requires ranks[G[ordering[i]][k]] !in done
    ensures !EarlierDone(G, ranks, done, G[ordering[i]][k])
  {
  }

  /** Every thread has seen what the sequential loop sees, and has written that vertex's colour. */
  ghost predicate ThreadInv(G: Graph, ranks: seq<nat>, colors0: seq<int>, colors: seq<int>, u: nat, pc: Pc)
    requires Closed(G) && |ranks| == |colors0| == |colors| == |G| && u < |G|
  {
    match pc
    case Read(seen) => colors[u] == -1 && |seen| <= |G[u]| && seen == Earlier(G, ranks, colors0, u)[..|seen|]
    case Write(color) => colors[u] == -1 && IsMex(color, Earlier(G, ranks, colors0, u))
    case Ended => IsMex(colors[u], Earlier(G, ranks, colors0, u))
  }

  predicate Committing(batch: seq<nat>, keep: seq<Status>, i: nat)
    requires |keep| == |batch|
  {
    exists t :: 0 <= t < |batch| && batch[t] == i && keep[t] == TryCommit
  }

  ghost predicate CommitInv(G: Graph, ranks: seq<nat>, ordering: seq<nat>, colors0: seq<int>, colors: seq<int>,
      batch: seq<nat>, keep: seq<Status>, pcs: seq<Pc>)
    requires Closed(G) && Ranking(G, ranks, ordering) && |colors0| == |colors| == |G| && |keep| == |batch|
    requires forall t :: 0 <= t < |batch| ==> batch[t] < |G|
  {
    && |pcs| == |batch|
    && (forall u :: 0 <= u < |G| && !Committing(batch, keep, ranks[u]) ==> colors[u] == colors0[u])
    && forall t :: 0 <= t < |batch| ==>
         if keep[t] == TryCommit then ThreadInv(G, ranks, colors0, colors, ordering[batch[t]], pcs[t])
           else pcs[t] == Ended
  }

  ghost function WorkList(G: Graph, ordering: seq<nat>, batch: seq<nat>, pcs: seq<Pc>): seq<nat>
    requires |pcs| == |batch| && |ordering| == |G|
      && forall t :: 0 <= t < |batch| ==> batch[t] < |G| && ordering[batch[t]] < |G|
  {
    seq(|pcs|, t requires 0 <= t < |pcs| => CommitWork(|G[ordering[batch[t]]]|, pcs[t]))
  }

  ghost function CommitWork(degree: nat, pc: Pc): nat {
    match pc
    case Read(seen) => if |seen| <= degree then degree - |seen| + 2 else 2
    case Write(_) => 1
    case Ended => 0
  }

  /** The colours a committing vertex reads are those from before the phase. */
  lemma NeighboursStand(G: Graph, ranks: seq<nat>, ordering: seq<nat>, colors0: seq<int>, colors: seq<int>,
      done: set<nat>, batch: seq<nat>, keep: seq<Status>, pcs: seq<Pc>, t: nat, k: nat)
    requires BetweenRounds(G, ranks, ordering, colors0, done) && BatchOf(batch, |G|, done) && |keep| == |batch|
    requires forall s :: 0 <= s < |batch| ==>
      keep[s] == if EarlierDone(G, ranks, done, ordering[batch[s]]) then TryCommit else TryAgain
    requires |colors| == |G| && CommitInv(G, ranks, ordering, colors0, colors, batch, keep, pcs)
    requires t < |batch| && keep[t] == TryCommit && pcs[t].Read? && k < |G[ordering[batch[t]]]|
    ensures colors[G[ordering[batch[t]]][k]] == Earlier(G, ranks, colors0, ordering[batch[t]])[k]
  {
  }

  /** One step of the commit of iteration batch[t]: a read of one neighbour's colour, or the write. */
  method CommitAccess(G: Graph, ranks: seq<nat>, ordering: seq<nat>, colors: array<int>, batch: seq<nat>,
      keep: seq<Status>, pcs: seq<Pc>, t: nat, ghost colors0: seq<int>, ghost done: set<nat>)
    returns (next: Pc)
    requires BetweenRounds(G, ranks, ordering, colors0, done) && BatchOf(batch, |G|, done) && |keep| == |batch|
    requires forall s :: 0 <= s < |batch| ==>
      keep[s] == if EarlierDone(G, ranks, done, ordering[batch[s]]) then TryCommit else TryAgain
    requires colors.Length == |G| && CommitInv(G, ranks, ordering, colors0, colors[..], batch, keep, pcs)
    requires t < |batch| && keep[t] == TryCommit && pcs[t] != Ended
    modifies colors
    ensures forall u :: 0 <= u < |G| && u != ordering[batch[t]] ==> colors[u] == old(colors[u])
    ensures ThreadInv(G, ranks, colors0, colors[..], ordering[batch[t]], next)
    ensures CommitWork(|G[ordering[batch[t]]]|, next) < CommitWork(|G[ordering[batch[t]]]|, pcs[t])
  {
    hide GreedyOn;
    var u := ordering[batch[t]];
    assert ThreadInv(G, ranks, colors0, colors[..], u, pcs[t]);
    match pcs[t] {
      case Read(seen) =>
        if |seen| < |G[u]| {
          NeighboursStand(G, ranks, ordering, colors0, colors[..], done, batch, keep, pcs, t, |seen|);
          next := Read(seen + [colors[G[u][|seen|]]]);
        } else {
          assert seen == Earlier(G, ranks, colors0, u);
          var color := FreeColor(seen);
          next := Write(color);
        }
      case Write(color) =>
        colors[u] := color;
        next := Ended;
    }
  }

  method CommitPhase(G: Graph, ranks: seq<nat>, ordering: seq<nat>, colors: array<int>, batch: seq<nat>,
      keep: seq<Status>, ghost done: set<nat>)
    requires BetweenRounds(G, ranks, ordering, colors[..], done) && BatchOf(batch, |G|, done) && |keep| == |batch|
    requires forall t :: 0 <= t < |batch| ==>
      keep[t] == if EarlierDone(G, ranks, done, ordering[batch[t]]) then TryCommit else TryAgain
    modifies colors
    ensures CommitInv(G, ranks, ordering, old(colors[..]), colors[..], batch, keep, seq(|batch|, _ => Ended))
  {
    hide GreedyOn, EarlierDone, ThreadInv, Committing;
    ghost var colors0 := colors[..];
    var pcs := seq(|batch|, t requires 0 <= t < |batch| => if keep[t] == TryCommit then Read([]) else Ended);
    CommitPhaseBegins(G, ranks, ordering, colors0, done, batch, keep);
    while exists t :: 0 <= t < |pcs| && pcs[t] != Ended
      invariant CommitInv(G, ranks, ordering, colors0, colors[..], batch, keep, pcs)
      decreases Work(Itself, WorkList(G, ordering, batch, pcs))
    {
      var t: nat :| t < |pcs| && pcs[t] != Ended;
      ghost var before := colors[..];
      var pc := CommitAccess(G, ranks, ordering, colors, batch, keep, pcs, t, colors0, done);
      ghost var work := CommitWork(|G[ordering[batch[t]]]|, pc);
      WorkAfterStep(Itself, WorkList(G, ordering, batch, pcs), t, work);
      assert WorkList(G, ordering, batch, pcs[t := pc]) == WorkList(G, ordering, batch, pcs)[t := work];
      StepKeepsInv(G, ranks, ordering, colors0, before, colors[..], batch, keep, pcs, t, pc);
      pcs := pcs[t := pc];
    }
    assert pcs == seq(|batch|, _ => Ended);
  }

  lemma CommitPhaseBegins(G: Graph, ranks: seq<nat>, ordering: seq<nat>, colors: seq<int>, done: set<nat>,
      batch: seq<nat>, keep: seq<Status>)
    requires BetweenRounds(G, ranks, ordering, colors, done) && BatchOf(batch, |G|, done) && |keep| == |batch|
    requires forall t :: 0 <= t < |batch| ==> keep[t] != Done
    ensures CommitInv(G, ranks, ordering, colors, colors, batch, keep,
                      seq(|batch|, t requires 0 <= t < |batch| => if keep[t] == TryCommit then Read([]) else Ended))
  {
  }

  /** A step that writes at most its own vertex, and leaves its own thread in order, keeps the invariant. */
  lemma StepKeepsInv(G: Graph, ranks: seq<nat>, ordering: seq<nat>, colors0: seq<int>, colors: seq<int>,
      colors': seq<int>, batch: seq<nat>, keep: seq<Status>, pcs: seq<Pc>, t: nat, pc: Pc)
    requires Closed(G) && Ranking(G, ranks, ordering) && |colors0| == |colors| == |colors'| == |G| && |keep| == |batch|
    requires Increasing(batch) && forall s :: 0 <= s < |batch| ==> batch[s] < |G|
    requires CommitInv(G, ranks, ordering, colors0, colors, batch, keep, pcs) && t < |batch| && keep[t] == TryCommit
    requires forall u :: 0 <= u < |G| && u != ordering[batch[t]] ==> colors'[u] == colors[u]
    requires ThreadInv(G, ranks, colors0, colors', ordering[batch[t]], pc)
    ensures CommitInv(G, ranks, ordering, colors0, colors', batch, keep, pcs[t := pc])
  {
  }

  function Leaving(keep: seq<Status>): seq<Status> {
    seq(|keep|, t requires 0 <= t < |keep| => if keep[t] == TryCommit then Done else keep[t])
  }

  /** A round whose commit phase has ended. */
  ghost predicate Ending(G: Graph, ranks: seq<nat>, ordering: seq<nat>, colors0: seq<int>, colors: seq<int>,
      done: set<nat>, batch: seq<nat>, keep: seq<Status>)
  {
    && BetweenRounds(G, ranks, ordering, colors0, done) && BatchOf(batch, |G|, done) && |keep| == |batch|
    && SmallestUnfinished(batch, 0, |G|, done) && batch != []
    && (forall t :: 0 <= t < |batch| ==>
          keep[t] == if EarlierDone(G, ranks, done, ordering[batch[t]]) then TryCommit else TryAgain)
    && |colors| == |G| && CommitInv(G, ranks, ordering, colors0, colors, batch, keep, seq(|batch|, _ => Ended))
  }

  lemma LeavingCommits(batch: seq<nat>, keep: seq<Status>, i: nat)
    requires |keep| == |batch| && forall t :: 0 <= t < |keep| ==> keep[t] != Done
    ensures i in FinishedBy(batch, Leaving(keep)) <==> Committing(batch, keep, i)
  {
  }

  lemma LowestCommits(G: Graph, ranks: seq<nat>, ordering: seq<nat>, colors0: seq<int>, colors: seq<int>,
      done: set<nat>, batch: seq<nat>, keep: seq<Status>)
    requires Ending(G, ranks, ordering, colors0, colors, done, batch, keep)
    ensures keep[0] == TryCommit
  {
  }

  /** A vertex coloured by the end of the round has its sequential colour: what it sees of earlier
      vertices was given before the round. */
  lemma ColouredByEnd(G: Graph, ranks: seq<nat>, ordering: seq<nat>, colors0: seq<int>, colors: seq<int>,
      done: set<nat>, batch: seq<nat>, keep: seq<Status>, u: nat)
    requires Ending(G, ranks, ordering, colors0, colors, done, batch, keep)
    requires u < |G| && (ranks[u] in done || Committing(batch, keep, ranks[u]))
    ensures EarlierDone(G, ranks, done, u)
    ensures IsMex(colors[u], Earlier(G, ranks, colors, u))
  {
    if ranks[u] in done {
      assert !Committing(batch, keep, ranks[u]);
    } else {
      var t :| 0 <= t < |batch| && batch[t] == ranks[u] && keep[t] == TryCommit;
      assert ThreadInv(G, ranks, colors0, colors, ordering[batch[t]], Ended);
    }
    assert Earlier(G, ranks, colors, u) == Earlier(G, ranks, colors0, u) by {
      forall k | 0 <= k < |G[u]| && ranks[G[u][k]] < ranks[u] ensures colors[G[u][k]] == colors0[G[u][k]] {
        assert !Committing(batch, keep, ranks[G[u][k]]);
      }
    }
  }

  lemma RoundEnds(G: Graph, ranks: seq<nat>, ordering: seq<nat>, colors0: seq<int>, colors: seq<int>, done: set<nat>,
      batch: seq<nat>, keep: seq<Status>)
    requires Ending(G, ranks, ordering, colors0, colors, done, batch, keep)
    ensures BetweenRounds(G, ranks, ordering, colors, done + FinishedBy(batch, Leaving(keep)))
    ensures Leaving(keep)[0] == Done
  {
    hide Earlier, IsMex, EarlierDone;
    LowestCommits(G, ranks, ordering, colors0, colors, done, batch, keep);
    var after := done + FinishedBy(batch, Leaving(keep));
    forall u | 0 <= u < |G|
      ensures ranks[u] in after ==>
        EarlierDone(G, ranks, after, u) && IsMex(colors[u], Earlier(G, ranks, colors, u)) && colors[u] >= 0
      ensures ranks[u] !in after ==> colors[u] == -1
    {
      LeavingCommits(batch, keep, ranks[u]);
      if ranks[u] in after {
        ColouredByEnd(G, ranks, ordering, colors0, colors, done, batch, keep, u);
        MoreDone(G, ranks, done, after, u);
        MexNonNegative(colors[u], Earlier(G, ranks, colors, u));
      }
    }
  }

  lemma MoreDone(G: Graph, ranks: seq<nat>, done: set<nat>, after: set<nat>, u: nat)
    requires Closed(G) && |ranks| == |G| && u < |G| && EarlierDone(G, ranks, done, u) && done <= after
    ensures EarlierDone(G, ranks, after, u)
  {
  }

  lemma MexNonNegative(c: int, used: seq<int>)
    requires IsMex(c, used)
    ensures c >= 0
  {
  }

  /** The colouring returned is the sequential one, and proper. */
  method GraphColoring(G: Graph, ranks: seq<nat>, ordering: seq<nat>, ghost all: set<nat>) returns (colors: array<int>)
    requires Closed(G) && Symmetric(G) && Ranking(G, ranks, ordering)
    requires forall i :: i in all <==> 0 <= i < |G|
    ensures fresh(colors) && colors.Length == |G|
    ensures GreedyOn(G, ranks, colors[..], all)
    ensures forall u, k :: 0 <= u < |G| && 0 <= k < |G[u]| && G[u][k] != u ==> colors[u] != colors[G[u][k]]
  {
    colors := new int[|G|](_ => -1);
    var driver := new Driver(0, |G|, 1);
    while driver.numberDone < |G|
      invariant driver.Valid() && driver.start == 0 && driver.end == |G| && fresh(driver)
      invariant BetweenRounds(G, ranks, ordering, colors[..], driver.finished)
      decreases |G| - driver.numberDone
    {
      driver.NextBatchIsSmallest();
      var batch := driver.NextBatch();
      assert forall t :: 0 <= t < |batch| ==> batch[t] in batch;
      ghost var before := colors[..];
      var keep := ReservePhase(G, ranks, ordering, colors, batch, driver.finished);
      CommitPhase(G, ranks, ordering, colors, batch, keep, driver.finished);
      RoundEnds(G, ranks, ordering, before, colors[..], driver.finished, batch, keep);
      driver.EndRound(Leaving(keep));
    }
    driver.AllFinished();
    assert driver.finished == all;
    GreedyIsProper(G, ranks, ordering, all, colors[..]);
  }
}
