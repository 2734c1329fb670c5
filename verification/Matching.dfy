/** Maximal matching by deterministic reservations.
    Whatever the schedule, the edges returned are those of the greedy matching that takes the edges
    in their order. */
module Matching {
  import opened Graphs
  import opened Schedule
  import opened SpeculativeFor

  /** The edges are on n vertices, and an edge index and the mark for none fit an index. */
  ghost predicate Numbered(E: Edges, n: nat) {
    EdgesOn(E, n) && |E| <= MAX_IDX
  }

  predicate Touches(e: (nat, nat), x: nat) {
    e.0 == x || e.1 == x
  }

  // ---------- the sequential greedy matching ----------

  ghost predicate Covered(E: Edges, S: set<nat>, x: nat) {
    exists k :: k in S && k < |E| && Touches(E[k], x)
  }

  /** The greedy matching of the first k edges. */
  ghost function Greedy(E: Edges, k: nat): (S: set<nat>)
    requires k <= |E|
    ensures forall i :: i in S ==> i < k
  {
    if k == 0 then {}
    else
      var S := Greedy(E, k - 1);
      var (u, v) := E[k - 1];
      if u == v || Covered(E, S, u) || Covered(E, S, v) then S else S + {k - 1}
  }

  lemma {:induction false} GreedyPrefix(E: Edges, k: nat, m: nat)
    requires k <= m <= |E|
    ensures forall i :: 0 <= i < k ==> (i in Greedy(E, m) <==> i in Greedy(E, k))
    decreases m - k
  {
    if k < m {
      GreedyPrefix(E, k, m - 1);
    }
  }

  /** Edge i is taken exactly if it joins two vertices that the earlier taken edges leave free. */
  lemma GreedyTakes(E: Edges, i: nat)
    requires i < |E|
    ensures i in Greedy(E, |E|) <==>
      E[i].0 != E[i].1 && forall k :: 0 <= k < i && k in Greedy(E, |E|) ==>
        !Touches(E[k], E[i].0) && !Touches(E[k], E[i].1)
  {
    GreedyPrefix(E, i, |E|);
    GreedyPrefix(E, i + 1, |E|);
    var S := Greedy(E, i);
    if k :| 0 <= k < i && k in Greedy(E, |E|) && (Touches(E[k], E[i].0) || Touches(E[k], E[i].1)) {
      assert k in S;
    }
  }

  /** The greedy matching is a matching, and no edge can be added to it. */
  lemma GreedyIsMaximalMatching(E: Edges)
    ensures forall i, k, x :: i in Greedy(E, |E|) && k in Greedy(E, |E|) && Touches(E[i], x) && Touches(E[k], x) ==>
      i == k
    ensures forall i :: 0 <= i < |E| && E[i].0 != E[i].1 ==>
      Covered(E, Greedy(E, |E|), E[i].0) || Covered(E, Greedy(E, |E|), E[i].1)
  {
    var G := Greedy(E, |E|);
    forall i, k, x | i in G && k in G && Touches(E[i], x) && Touches(E[k], x) ensures i == k {
      GreedyTakes(E, i);
      GreedyTakes(E, k);
    }
    forall i | 0 <= i < |E| && E[i].0 != E[i].1 ensures Covered(E, G, E[i].0) || Covered(E, G, E[i].1) {
      GreedyTakes(E, i);
      assert i in G ==> Touches(E[i], E[i].0);
    }
  }

  // ---------- between rounds ----------

  /** The matched vertices are those of the greedy edges among the finished ones; each such edge is
      held by its first endpoint, and nothing else is reserved. */
  ghost predicate BetweenRounds(E: Edges, n: nat, R: seq<nat>, matched: seq<bool>, done: set<nat>) {
    var taken := done * Greedy(E, |E|);
    && Numbered(E, n) && |R| == |matched| == n
    && (forall x :: 0 <= x < n ==> (matched[x] <==> Covered(E, taken, x)))
    && (forall k :: k in taken ==> R[E[k].0] == k)
    && forall x :: 0 <= x < n && R[x] != MAX_IDX ==> R[x] in taken && E[R[x]].0 == x
  }

  // ---------- the reserve phase ----------

  datatype ReservePc = CheckMatched | ReserveU | ReserveV | Reserved(status: Status)

  predicate Contends(E: Edges, matched: seq<bool>, i: nat)
    requires Numbered(E, |matched|) && i < |E|
  {
    !matched[E[i].0] && !matched[E[i].1] && E[i].0 != E[i].1
  }

  /** One step of the reserve body of edge i: the test of both endpoints, which no thread writes in
      this phase, or one atomic write_min. */
  function ReserveStep(E: Edges, matched: seq<bool>, i: nat, R: seq<nat>, pc: ReservePc): (seq<nat>, ReservePc)
    requires Numbered(E, |matched|) && |R| == |matched| && i < |E|
  {
    match pc
    case CheckMatched => (R, if Contends(E, matched, i) then ReserveU else Reserved(Done))
    case ReserveU => (WriteMin(R, E[i].0, i), ReserveV)
    case ReserveV => (WriteMin(R, E[i].1, i), Reserved(TryCommit))
    case Reserved(_) => (R, pc)
  }

  function ReserveWork(pc: ReservePc): nat {
    match pc
    case CheckMatched => 3
    case ReserveU => 2
    case ReserveV => 1
    case Reserved(_) => 0
  }

  /** The write_mins that a thread has behind it. */
  predicate HasReserved(E: Edges, i: nat, x: nat, pc: ReservePc)
    requires i < |E|
  {
    (E[i].0 == x && (pc.ReserveV? || pc == Reserved(TryCommit))) || (E[i].1 == x && pc == Reserved(TryCommit))
  }

  ghost predicate BatchOf(E: Edges, batch: seq<nat>) {
    Increasing(batch) && forall t :: 0 <= t < |batch| ==> batch[t] < |E|
  }

  ghost predicate SomeReserved(E: Edges, batch: seq<nat>, x: nat, i: nat, pcs: seq<ReservePc>)
    requires BatchOf(E, batch) && |pcs| == |batch|
  {
    exists t :: 0 <= t < |batch| && batch[t] == i && HasReserved(E, batch[t], x, pcs[t])
  }

  /** Each cell is as before the phase or holds an edge that has reserved it, the least one. */
  ghost predicate ReserveInv(E: Edges, matched: seq<bool>, batch: seq<nat>, R0: seq<nat>, R: seq<nat>,
      pcs: seq<ReservePc>)
    requires Numbered(E, |matched|) && BatchOf(E, batch)
  {
    && |R| == |R0| == |matched| && |pcs| == |batch|
    && (forall x :: 0 <= x < |R| ==> R[x] == R0[x] || SomeReserved(E, batch, x, R[x], pcs))
    && (forall t, x :: 0 <= t < |batch| && 0 <= x < |R| && HasReserved(E, batch[t], x, pcs[t]) ==> R[x] <= batch[t])
    && forall t :: 0 <= t < |batch| ==>
         if pcs[t].CheckMatched? then true
         else if Contends(E, matched, batch[t]) then pcs[t].Reserved? ==> pcs[t].status == TryCommit
         else pcs[t] == Reserved(Done)
  }

  lemma ReserveStepKeepsInv(E: Edges, matched: seq<bool>, batch: seq<nat>, R0: seq<nat>, R: seq<nat>,
      pcs: seq<ReservePc>, t: nat)
    requires Numbered(E, |matched|) && BatchOf(E, batch)
    requires ReserveInv(E, matched, batch, R0, R, pcs) && t < |batch|
    ensures
      var (R', pc') := ReserveStep(E, matched, batch[t], R, pcs[t]);
      ReserveInv(E, matched, batch, R0, R', pcs[t := pc'])
  {
  }

  /** The facts the reserve phase leaves behind: contenders, and only they, go on to commit; a cell
      of theirs holds the least contender that touches it; all other cells are as before. */
  ghost predicate AfterReserve(E: Edges, matched: seq<bool>, batch: seq<nat>, R0: seq<nat>, R: seq<nat>,
      keep: seq<Status>)
    requires Numbered(E, |matched|) && BatchOf(E, batch)
  {
    && |R| == |R0| == |matched| && |keep| == |batch|
    && (forall x :: 0 <= x < |R| && R[x] != R0[x] ==>
          R[x] in batch && Contends(E, matched, R[x]) && Touches(E[R[x]], x))
    && (forall t :: 0 <= t < |batch| && Contends(E, matched, batch[t]) ==>
          R[E[batch[t]].0] <= batch[t] && R[E[batch[t]].1] <= batch[t])
    && forall t :: 0 <= t < |batch| ==> keep[t] == if Contends(E, matched, batch[t]) then TryCommit else Done
  }

  lemma ReservePhaseEnds(E: Edges, matched: seq<bool>, batch: seq<nat>, R0: seq<nat>, R: seq<nat>, pcs: seq<ReservePc>)
    requires Numbered(E, |matched|) && BatchOf(E, batch)
    requires ReserveInv(E, matched, batch, R0, R, pcs) && forall t :: 0 <= t < |pcs| ==> pcs[t].Reserved?
    ensures AfterReserve(E, matched, batch, R0, R, seq(|pcs|, t requires 0 <= t < |pcs| => pcs[t].status))
  {
  }

  // ---------- why the decisions are the greedy ones ----------

  predicate Wins(E: Edges, R: seq<nat>, i: nat)
    requires i < |E| && E[i].0 < |R| && E[i].1 < |R|
  {
    R[E[i].0] == i && R[E[i].1] == i
  }

  /** A round that starts between rounds and has reserved. */
  ghost predicate MidRound(E: Edges, matched: seq<bool>, done: set<nat>, batch: seq<nat>, R0: seq<nat>, R: seq<nat>,
      keep: seq<Status>)
  {
    && BetweenRounds(E, |matched|, R0, matched, done)
    && BatchOf(E, batch) && SmallestUnfinished(batch, 0, |E|, done)
    && AfterReserve(E, matched, batch, R0, R, keep)
  }

  /** An edge dropped in the reserve phase is not a greedy edge. */
  lemma DroppedIsNotGreedy(E: Edges, matched: seq<bool>, done: set<nat>, R0: seq<nat>, i: nat)
    requires BetweenRounds(E, |matched|, R0, matched, done)
    requires i < |E| && i !in done && !Contends(E, matched, i)
    ensures i !in Greedy(E, |E|)
  {
    GreedyTakes(E, i);
    GreedyIsMaximalMatching(E);
    assert Touches(E[i], E[i].0) && Touches(E[i], E[i].1);
  }

  /** A contender that holds both endpoints is a greedy edge: an earlier greedy edge at one of them
      would be unfinished, so in the batch, so a contender itself, and would have the lower index. */
  lemma WinnerIsGreedy(E: Edges, matched: seq<bool>, done: set<nat>, batch: seq<nat>, R0: seq<nat>, R: seq<nat>,
      keep: seq<Status>, t: nat)
    requires MidRound(E, matched, done, batch, R0, R, keep)
    requires t < |batch| && Contends(E, matched, batch[t]) && Wins(E, R, batch[t])
    ensures batch[t] in Greedy(E, |E|)
  {
    var i := batch[t];
    var G := Greedy(E, |E|);
    GreedyTakes(E, i);
    forall k | 0 <= k < i && k in G ensures !Touches(E[k], E[i].0) && !Touches(E[k], E[i].1) {
      if k in done {
        assert k in done * G;
      } else {
        if !Contends(E, matched, k) {
          DroppedIsNotGreedy(E, matched, done, R0, k);
        }
        assert k in batch;
      }
    }
  }

  /** The least pending edge is dropped or wins. */
  lemma LowestIsDecided(E: Edges, matched: seq<bool>, done: set<nat>, batch: seq<nat>, R0: seq<nat>, R: seq<nat>,
      keep: seq<Status>)
    requires MidRound(E, matched, done, batch, R0, R, keep) && batch != []
    requires Contends(E, matched, batch[0])
    ensures Wins(E, R, batch[0])
  {
  }

  // ---------- the commit phase ----------

  datatype Pc = CheckV | ResetV | CheckU | MarkV | MarkU | CheckUOnly | ResetUOnly | Ended(ok: bool)

  datatype Memory = Memory(R: seq<nat>, matched: seq<bool>)

  /** One memory access of the commit body of edge i. */
  function CommitStep(E: Edges, i: nat, m: Memory, pc: Pc): (Memory, Pc)
    requires Numbered(E, |m.R|) && |m.matched| == |m.R| && i < |E|
  {
    var (u, v) := E[i];
    match pc
    case CheckV => (m, if m.R[v] == i then ResetV else CheckUOnly)
    case ResetV => (m.(R := m.R[v := MAX_IDX]), CheckU)
    case CheckU => (m, if m.R[u] == i then MarkV else Ended(false))
    case MarkV => (m.(matched := m.matched[v := true]), MarkU)
    case MarkU => (m.(matched := m.matched[u := true]), Ended(true))
    case CheckUOnly => (m, if m.R[u] == i then ResetUOnly else Ended(false))
    case ResetUOnly => (m.(R := m.R[u := MAX_IDX]), Ended(false))
    case Ended(_) => (m, pc)
  }

  function CommitWork(pc: Pc): nat {
    match pc
    case CheckV => 5
    case ResetV => 4
    case CheckU => 3
    case MarkV => 2
    case MarkU => 1
    case CheckUOnly => 2
    case ResetUOnly => 1
    case Ended(_) => 0
  }

  /** What the checks of a thread can have found, in terms of the cells the phase began with. */
  ghost predicate Found(E: Edges, i: nat, R1: seq<nat>, pc: Pc)
    requires Numbered(E, |R1|) && i < |E|
  {
    var holdsV, holdsU := R1[E[i].1] == i, R1[E[i].0] == i;
    match pc
    case CheckV => E[i].0 != E[i].1
    case ResetV => holdsV && E[i].0 != E[i].1
    case CheckU => holdsV && E[i].0 != E[i].1
    case MarkV => holdsV && holdsU
    case MarkU => holdsV && holdsU
    case CheckUOnly => !holdsV
    case ResetUOnly => !holdsV && holdsU
    case Ended(ok) => ok == (holdsV && holdsU)
  }

  /** The resets a thread has behind it. */
  ghost predicate HasReset(E: Edges, i: nat, R1: seq<nat>, x: nat, pc: Pc)
    requires Numbered(E, |R1|) && i < |E|
  {
    || (x == E[i].1 && R1[x] == i && !pc.CheckV? && !pc.ResetV?)
    || (x == E[i].0 && R1[x] == i && R1[E[i].1] != i && pc.Ended?)
  }

  predicate HasMarked(E: Edges, i: nat, x: nat, pc: Pc)
    requires i < |E|
  {
    (x == E[i].1 && (pc.MarkU? || pc == Ended(true))) || (x == E[i].0 && pc == Ended(true))
  }

  ghost predicate FoundInv(E: Edges, batch: seq<nat>, R1: seq<nat>, pcs: seq<Pc>)
    requires Numbered(E, |R1|) && BatchOf(E, batch) && |pcs| == |batch|
  {
    forall t :: 0 <= t < |batch| ==> Found(E, batch[t], R1, pcs[t])
  }

  /** A cell has changed exactly if the edge it held has reset it, and then it is free. */
  ghost predicate CellsInv(E: Edges, batch: seq<nat>, R1: seq<nat>, R: seq<nat>, pcs: seq<Pc>)
    requires Numbered(E, |R1|) && BatchOf(E, batch) && |pcs| == |batch| && |R| == |R1|
  {
    && (forall x :: 0 <= x < |R| ==> R[x] == R1[x] || (R[x] == MAX_IDX && R1[x] in batch))
    && forall t, x :: 0 <= t < |batch| && 0 <= x < |R| && R1[x] == batch[t] ==>
         R[x] == if HasReset(E, batch[t], R1, x, pcs[t]) then MAX_IDX else R1[x]
  }

  ghost predicate SomeMarked(E: Edges, batch: seq<nat>, x: nat, pcs: seq<Pc>)
    requires BatchOf(E, batch) && |pcs| == |batch|
  {
    exists t :: 0 <= t < |batch| && HasMarked(E, batch[t], x, pcs[t])
  }

  ghost predicate MarkedInv(E: Edges, batch: seq<nat>, matched1: seq<bool>, matched: seq<bool>, pcs: seq<Pc>)
    requires BatchOf(E, batch) && |pcs| == |batch| && |matched| == |matched1|
  {
    && (forall x :: 0 <= x < |matched| && matched1[x] ==> matched[x])
    && (forall x :: 0 <= x < |matched| && matched[x] && !matched1[x] ==>
          SomeMarked(E, batch, x, pcs))
    && forall t, x :: 0 <= t < |batch| && 0 <= x < |matched| && HasMarked(E, batch[t], x, pcs[t]) ==> matched[x]
  }

  ghost predicate CommitInv(E: Edges, batch: seq<nat>, m1: Memory, m: Memory, pcs: seq<Pc>)
    requires Numbered(E, |m1.R|) && BatchOf(E, batch)
  {
    && |m.R| == |m1.R| == |m.matched| == |m1.matched| && |pcs| == |batch|
    && FoundInv(E, batch, m1.R, pcs)
    && CellsInv(E, batch, m1.R, m.R, pcs)
    && MarkedInv(E, batch, m1.matched, m.matched, pcs)
  }

  lemma FoundStep(E: Edges, batch: seq<nat>, m1: Memory, m: Memory, pcs: seq<Pc>, t: nat)
    requires Numbered(E, |m1.R|) && BatchOf(E, batch) && CommitInv(E, batch, m1, m, pcs) && t < |batch|
    ensures FoundInv(E, batch, m1.R, pcs[t := CommitStep(E, batch[t], m, pcs[t]).1])
  {
  }

  lemma CellsStep(E: Edges, batch: seq<nat>, m1: Memory, m: Memory, pcs: seq<Pc>, t: nat)
    requires Numbered(E, |m1.R|) && BatchOf(E, batch) && CommitInv(E, batch, m1, m, pcs) && t < |batch|
    ensures
      var (m', pc') := CommitStep(E, batch[t], m, pcs[t]);
      CellsInv(E, batch, m1.R, m'.R, pcs[t := pc'])
  {
    var (m', pc') := CommitStep(E, batch[t], m, pcs[t]);
    var i, pc := batch[t], pcs[t];
    assert Found(E, i, m1.R, pc);
    assert forall u :: 0 <= u < |batch| && u != t ==> batch[u] != i;
    forall x | 0 <= x < |m.R| && m1.R[x] == i && Touches(E[i], x)
      ensures m'.R[x] == if HasReset(E, i, m1.R, x, pc') then MAX_IDX else m1.R[x]
    {
    }
  }

  lemma MarkedStep(E: Edges, batch: seq<nat>, m1: Memory, m: Memory, pcs: seq<Pc>, t: nat)
    requires Numbered(E, |m1.R|) && BatchOf(E, batch) && CommitInv(E, batch, m1, m, pcs) && t < |batch|
    ensures
      var (m', pc') := CommitStep(E, batch[t], m, pcs[t]);
      MarkedInv(E, batch, m1.matched, m'.matched, pcs[t := pc'])
  {
    var (m', pc') := CommitStep(E, batch[t], m, pcs[t]);
    var pcs' := pcs[t := pc'];
    hide CommitStep, HasMarked, FoundInv, CellsInv;
    forall x | 0 <= x < |m.matched|
      ensures |m'.matched| == |m.matched| && (m.matched[x] ==> m'.matched[x])
      ensures m'.matched[x] && !m1.matched[x] ==> SomeMarked(E, batch, x, pcs')
      ensures HasMarked(E, batch[t], x, pc') ==> m'.matched[x]
    {
      MarkedStepCell(E, batch, m1, m, pcs, t, x);
      if m.matched[x] && !m1.matched[x] {
        assert SomeMarked(E, batch, x, pcs);
        var u :| 0 <= u < |batch| && HasMarked(E, batch[u], x, pcs[u]);
        assert HasMarked(E, batch[u], x, pcs'[u]);
      } else if m'.matched[x] && !m1.matched[x] {
        assert HasMarked(E, batch[t], x, pcs'[t]);
      }
    }
    MarkedSizes(E, batch, m1, m, pcs, t);
  }

  lemma MarkedSizes(E: Edges, batch: seq<nat>, m1: Memory, m: Memory, pcs: seq<Pc>, t: nat)
    requires Numbered(E, |m1.R|) && BatchOf(E, batch) && CommitInv(E, batch, m1, m, pcs) && t < |batch|
    ensures |CommitStep(E, batch[t], m, pcs[t]).0.matched| == |m.matched|
  {
  }

  lemma MarkedStepCell(E: Edges, batch: seq<nat>, m1: Memory, m: Memory, pcs: seq<Pc>, t: nat, x: nat)
    requires Numbered(E, |m1.R|) && BatchOf(E, batch) && CommitInv(E, batch, m1, m, pcs) && t < |batch|
      && x < |m.matched|
    ensures
      var (m', pc') := CommitStep(E, batch[t], m, pcs[t]);
      && |m'.matched| == |m.matched| && (m.matched[x] ==> m'.matched[x])
      && (m'.matched[x] && !m.matched[x] ==> HasMarked(E, batch[t], x, pc'))
      && (HasMarked(E, batch[t], x, pcs[t]) ==> HasMarked(E, batch[t], x, pc'))
      && (HasMarked(E, batch[t], x, pc') ==> m'.matched[x])
  {
  }

  /** Every memory access of any thread keeps the invariant. */
  lemma CommitStepKeepsInv(E: Edges, batch: seq<nat>, m1: Memory, m: Memory, pcs: seq<Pc>, t: nat)
    requires Numbered(E, |m1.R|) && BatchOf(E, batch) && CommitInv(E, batch, m1, m, pcs) && t < |batch|
    ensures
      var (m', pc') := CommitStep(E, batch[t], m, pcs[t]);
      CommitInv(E, batch, m1, m', pcs[t := pc'])
  {
    FoundStep(E, batch, m1, m, pcs, t);
    CellsStep(E, batch, m1, m, pcs, t);
    MarkedStep(E, batch, m1, m, pcs, t);
  }

  /** An edge that reserve dropped does not enter the commit body. */
  function Entering(keep: seq<Status>): seq<Pc> {
    seq(|keep|, t requires 0 <= t < |keep| => if keep[t] == TryCommit then CheckV else Ended(false))
  }

  function Leaving(keep: seq<Status>, pcs: seq<Pc>): seq<Status>
    requires |keep| == |pcs|
  {
    seq(|pcs|, t requires 0 <= t < |pcs| => if keep[t] == Done || pcs[t] == Ended(true) then Done else TryAgain)
  }

  lemma CommitPhaseBegins(E: Edges, done: set<nat>, batch: seq<nat>, R0: seq<nat>, m1: Memory, keep: seq<Status>)
    requires |m1.R| == |m1.matched| && MidRound(E, m1.matched, done, batch, R0, m1.R, keep)
    ensures Numbered(E, |m1.R|) && BatchOf(E, batch)
    ensures |keep| == |batch| && CommitInv(E, batch, m1, m1, Entering(keep))
  {
  }

  /** A round whose commit phase has ended. */
  ghost predicate Ending(E: Edges, done: set<nat>, batch: seq<nat>, R0: seq<nat>, m1: Memory, keep: seq<Status>,
      m: Memory, pcs: seq<Pc>)
  {
    && |m1.R| == |m1.matched| && MidRound(E, m1.matched, done, batch, R0, m1.R, keep)
    && CommitInv(E, batch, m1, m, pcs)
    && forall t :: 0 <= t < |pcs| ==> pcs[t].Ended? && (keep[t] == Done ==> !pcs[t].ok)
  }

  lemma EdgeDecided(E: Edges, done: set<nat>, batch: seq<nat>, R0: seq<nat>, m1: Memory, keep: seq<Status>, m: Memory,
      pcs: seq<Pc>, t: nat)
    requires Ending(E, done, batch, R0, m1, keep, m, pcs) && t < |batch|
    ensures pcs[t].ok ==> batch[t] in Greedy(E, |E|)
    ensures keep[t] == Done ==> batch[t] !in Greedy(E, |E|)
    ensures t == 0 ==> keep[t] == Done || pcs[t].ok
  {
    hide SmallestUnfinished, BetweenRounds, Greedy, CellsInv, MarkedInv;
    if keep[t] == Done {
      assert batch[t] in batch;
      assert batch[t] !in done by {
        assert SmallestUnfinished(batch, 0, |E|, done);
        NotFinished(E, batch, done, t);
      }
      DroppedIsNotGreedy(E, m1.matched, done, R0, batch[t]);
    } else if pcs[t].ok {
      WinnerIsGreedy(E, m1.matched, done, batch, R0, m1.R, keep, t);
    } else if t == 0 {
      LowestIsDecided(E, m1.matched, done, batch, R0, m1.R, keep);
    }
  }

  lemma NotFinished(E: Edges, batch: seq<nat>, done: set<nat>, t: nat)
    requires SmallestUnfinished(batch, 0, |E|, done) && t < |batch|
    ensures batch[t] !in done
  {
  }

  /** The greedy edges finished by the end of a round are those from before and the winners. */
  ghost predicate NowTaken(batch: seq<nat>, pcs: seq<Pc>, taken: set<nat>, taken': set<nat>)
    requires |pcs| == |batch|
  {
    && taken <= taken'
    && (forall t :: 0 <= t < |batch| && pcs[t] == Ended(true) ==> batch[t] in taken')
    && forall k :: k in taken' && k !in taken ==> exists t :: 0 <= t < |batch| && batch[t] == k && pcs[t] == Ended(true)
  }

  lemma RoundDecides(E: Edges, done: set<nat>, batch: seq<nat>, R0: seq<nat>, m1: Memory, keep: seq<Status>, m: Memory,
      pcs: seq<Pc>)
    requires Ending(E, done, batch, R0, m1, keep, m, pcs)
    ensures |keep| == |pcs| == |batch|
    ensures
      var G := Greedy(E, |E|);
      NowTaken(batch, pcs, done * G, (done + FinishedBy(batch, Leaving(keep, pcs))) * G)
    ensures batch != [] ==> Leaving(keep, pcs)[0] == Done
  {
    hide MidRound, FoundInv, CellsInv, MarkedInv, Greedy;
    assert |keep| == |batch| by { SizesAgree(E, done, batch, R0, m1, keep); }
    forall t | 0 <= t < |batch|
      ensures pcs[t].ok ==> batch[t] in Greedy(E, |E|)
      ensures keep[t] == Done ==> batch[t] !in Greedy(E, |E|)
      ensures t == 0 ==> keep[t] == Done || pcs[t].ok
    {
      EdgeDecided(E, done, batch, R0, m1, keep, m, pcs, t);
    }
  }

  lemma SizesAgree(E: Edges, done: set<nat>, batch: seq<nat>, R0: seq<nat>, m1: Memory, keep: seq<Status>)
    requires |m1.R| == |m1.matched| && MidRound(E, m1.matched, done, batch, R0, m1.R, keep)
    ensures |keep| == |batch| && Numbered(E, |m1.R|)
  {
  }

  lemma MatchedAtEnd(E: Edges, done: set<nat>, batch: seq<nat>, R0: seq<nat>, m1: Memory, keep: seq<Status>, m: Memory,
      pcs: seq<Pc>, taken': set<nat>, x: nat)
    requires Ending(E, done, batch, R0, m1, keep, m, pcs)
    requires NowTaken(batch, pcs, done * Greedy(E, |E|), taken') && x < |m.R|
    ensures m.matched[x] <==> Covered(E, taken', x)
  {
  }

  lemma HeldAtEnd(E: Edges, done: set<nat>, batch: seq<nat>, R0: seq<nat>, m1: Memory, keep: seq<Status>, m: Memory,
      pcs: seq<Pc>, taken': set<nat>, k: nat)
    requires Ending(E, done, batch, R0, m1, keep, m, pcs)
    requires NowTaken(batch, pcs, done * Greedy(E, |E|), taken') && k in taken' && k < |E|
    ensures m.R[E[k].0] == k
  {
  }

  lemma OnlyTakenAreHeld(E: Edges, done: set<nat>, batch: seq<nat>, R0: seq<nat>, m1: Memory, keep: seq<Status>,
      m: Memory, pcs: seq<Pc>, taken': set<nat>, x: nat)
    requires Ending(E, done, batch, R0, m1, keep, m, pcs)
    requires NowTaken(batch, pcs, done * Greedy(E, |E|), taken') && x < |m.R| && m.R[x] != MAX_IDX
    ensures m.R[x] in taken' && m.R[x] < |E| && E[m.R[x]].0 == x
  {
  }

  /** A phase that has ended stands between rounds again. */
  lemma CommitPhaseEnds(E: Edges, done: set<nat>, batch: seq<nat>, R0: seq<nat>, m1: Memory, keep: seq<Status>,
      m: Memory, pcs: seq<Pc>)
    requires Ending(E, done, batch, R0, m1, keep, m, pcs)
    ensures |keep| == |pcs| == |batch|
    ensures BetweenRounds(E, |m.R|, m.R, m.matched, done + FinishedBy(batch, Leaving(keep, pcs)))
    ensures batch != [] ==> Leaving(keep, pcs)[0] == Done
  {
    hide MidRound, FoundInv, CellsInv, MarkedInv, Greedy, FinishedBy, NowTaken;
    SizesAgree(E, done, batch, R0, m1, keep);
    RoundDecides(E, done, batch, R0, m1, keep, m, pcs);
    var taken' := (done + FinishedBy(batch, Leaving(keep, pcs))) * Greedy(E, |E|);
    assert forall k :: k in taken' ==> k in Greedy(E, |E|);
    forall x | 0 <= x < |m.R| ensures m.matched[x] <==> Covered(E, taken', x) {
      MatchedAtEnd(E, done, batch, R0, m1, keep, m, pcs, taken', x);
    }
    forall k | k in taken' ensures m.R[E[k].0] == k {
      HeldAtEnd(E, done, batch, R0, m1, keep, m, pcs, taken', k);
    }
    forall x | 0 <= x < |m.R| && m.R[x] != MAX_IDX ensures m.R[x] in taken' && E[m.R[x]].0 == x {
      OnlyTakenAreHeld(E, done, batch, R0, m1, keep, m, pcs, taken', x);
    }
  }

  // ---------- the algorithm, in place, under any schedule ----------

  method ReserveAccess(E: Edges, R: array<nat>, matched: array<bool>, i: nat, pc: ReservePc) returns (next: ReservePc)
    requires Numbered(E, matched.Length) && R.Length == matched.Length && i < |E|
    modifies R
    ensures (R[..], next) == ReserveStep(E, matched[..], i, old(R[..]), pc)
  {
    var (u, v) := E[i];
    match pc {
      case CheckMatched => next := if matched[u] || matched[v] || u == v then Reserved(Done) else ReserveU;
      case ReserveU => WriteMinAt(R, u, i); next := ReserveV;
      case ReserveV => WriteMinAt(R, v, i); next := Reserved(TryCommit);
      case Reserved(_) => next := pc;
    }
  }

  method CommitAccess(E: Edges, R: array<nat>, matched: array<bool>, i: nat, pc: Pc) returns (next: Pc)
    requires Numbered(E, matched.Length) && R.Length == matched.Length && i < |E|
    modifies R, matched
    ensures (Memory(R[..], matched[..]), next) == CommitStep(E, i, old(Memory(R[..], matched[..])), pc)
  {
    var (u, v) := E[i];
    match pc {
      case CheckV => next := if R[v] == i then ResetV else CheckUOnly;
      case ResetV => R[v] := MAX_IDX; next := CheckU;
      case CheckU => next := if R[u] == i then MarkV else Ended(false);
      case MarkV => matched[v] := true; next := MarkU;
      case MarkU => matched[u] := true; next := Ended(true);
      case CheckUOnly => next := if R[u] == i then ResetUOnly else Ended(false);
      case ResetUOnly => R[u] := MAX_IDX; next := Ended(false);
      case Ended(_) => next := pc;
    }
  }

  method ReservePhase(E: Edges, R: array<nat>, matched: array<bool>, batch: seq<nat>) returns (keep: seq<Status>)
    requires Numbered(E, matched.Length) && R.Length == matched.Length && BatchOf(E, batch)
    modifies R
    ensures AfterReserve(E, matched[..], batch, old(R[..]), R[..], keep)
  {
    var pcs := seq(|batch|, _ => CheckMatched);
    while exists t :: 0 <= t < |pcs| && !pcs[t].Reserved?
      invariant ReserveInv(E, matched[..], batch, old(R[..]), R[..], pcs)
      decreases Work(ReserveWork, pcs)
    {
      var t: nat :| t < |pcs| && !pcs[t].Reserved?;
      ReserveStepKeepsInv(E, matched[..], batch, old(R[..]), R[..], pcs, t);
      var pc := ReserveAccess(E, R, matched, batch[t], pcs[t]);
      WorkAfterStep(ReserveWork, pcs, t, pc);
      pcs := pcs[t := pc];
    }
    ReservePhaseEnds(E, matched[..], batch, old(R[..]), R[..], pcs);
    keep := seq(|pcs|, t requires 0 <= t < |pcs| => pcs[t].status);
  }

  method CommitPhase(E: Edges, R: array<nat>, matched: array<bool>, batch: seq<nat>, keep: seq<Status>,
      ghost done: set<nat>, ghost R0: seq<nat>)
    returns (keep': seq<Status>)
    requires R.Length == matched.Length && MidRound(E, matched[..], done, batch, R0, R[..], keep)
    modifies R, matched
    ensures |keep'| == |batch| && (batch != [] ==> keep'[0] == Done)
    ensures BetweenRounds(E, R.Length, R[..], matched[..], done + FinishedBy(batch, keep'))
  {
    hide MidRound, FoundInv, CellsInv, MarkedInv;
    ghost var m1 := Memory(R[..], matched[..]);
    var pcs := Entering(keep);
    CommitPhaseBegins(E, done, batch, R0, m1, keep);
    while exists t :: 0 <= t < |pcs| && !pcs[t].Ended?
      invariant CommitInv(E, batch, m1, Memory(R[..], matched[..]), pcs)
      invariant |keep| == |pcs| && forall t :: 0 <= t < |pcs| && keep[t] == Done ==> pcs[t] == Ended(false)
      decreases Work(CommitWork, pcs)
    {
      var t: nat :| t < |pcs| && !pcs[t].Ended?;
      CommitStepKeepsInv(E, batch, m1, Memory(R[..], matched[..]), pcs, t);
      var pc := CommitAccess(E, R, matched, batch[t], pcs[t]);
      WorkAfterStep(CommitWork, pcs, t, pc);
      pcs := pcs[t := pc];
    }
    keep' := Leaving(keep, pcs);
    CommitPhaseEnds(E, done, batch, R0, m1, keep, Memory(R[..], matched[..]), pcs);
  }

  lemma RoundsBegin(E: Edges, n: nat, R: seq<nat>, matched: seq<bool>, done: set<nat>)
    requires Numbered(E, n) && |R| == |matched| == n && done == {}
    requires forall x :: 0 <= x < n ==> R[x] == MAX_IDX && !matched[x]
    ensures BetweenRounds(E, n, R, matched, done)
  {
  }

  /** The returned reservations name every finished greedy edge once. */
  method Collect(E: Edges, R: array<nat>, ghost matched: seq<bool>, ghost done: set<nat>) returns (edges: seq<nat>)
    requires BetweenRounds(E, R.Length, R[..], matched, done)
    ensures forall i, k :: 0 <= i < k < |edges| ==> edges[i] != edges[k]
    ensures forall i :: i in edges <==> i in done * Greedy(E, |E|)
  {
    hide Greedy;
    ghost var taken := done * Greedy(E, |E|);
    assert forall k :: k in taken ==> k in Greedy(E, |E|);
    edges := [];
    for x := 0 to R.Length
      invariant forall i :: 0 <= i < |edges| ==> edges[i] in taken && E[edges[i]].0 < x
      invariant forall i, k :: 0 <= i < k < |edges| ==> edges[i] != edges[k]
      invariant forall k :: k in taken && E[k].0 < x ==> k in edges
    {
      assert forall k :: k in taken && E[k].0 == x ==> R[..][x] == k;
      if R[x] < MAX_IDX {
        assert R[..][x] in taken;
        edges := edges + [R[x]];
      }
    }
  }

  /** The edges returned are exactly the greedy matching, each once. */
  method MaximalMatching(E: Edges, n: nat) returns (edges: seq<nat>)
    requires Numbered(E, n)
    ensures forall i, k :: 0 <= i < k < |edges| ==> edges[i] != edges[k]
    ensures forall i :: i in edges <==> i in Greedy(E, |E|)
  {
    hide BetweenRounds, AfterReserve, SmallestUnfinished, Greedy;
    var R := new nat[n](_ => MAX_IDX);
    var matched := new bool[n](_ => false);
    var driver := new Driver(0, |E|, n / 10);
    RoundsBegin(E, n, R[..], matched[..], driver.finished);
    while driver.numberDone < |E|
      invariant driver.Valid() && driver.start == 0 && driver.end == |E| && fresh(driver)
      invariant BetweenRounds(E, n, R[..], matched[..], driver.finished)
      decreases |E| - driver.numberDone
    {
      driver.NextBatchIsSmallest();
      var batch := driver.NextBatch();
      BatchInRange(E, batch, driver.finished);
      ghost var R0 := R[..];
      var keep := ReservePhase(E, R, matched, batch);
      keep := CommitPhase(E, R, matched, batch, keep, driver.finished, R0);
      driver.EndRound(keep);
    }
    driver.AllFinished();
    assert driver.finished * Greedy(E, |E|) == Greedy(E, |E|);
    edges := Collect(E, R, matched[..], driver.finished);
  }

  lemma BatchInRange(E: Edges, batch: seq<nat>, done: set<nat>)
    requires SmallestUnfinished(batch, 0, |E|, done)
    ensures BatchOf(E, batch)
  {
    assert forall t :: 0 <= t < |batch| ==> batch[t] in batch;
  }
}
