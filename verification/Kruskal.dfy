/** Minimum spanning forest by deterministic reservations.
    Whatever the schedule, the edges marked are those that the sequential Kruskal loop takes in
    sorted order; and those are a spanning forest of least weight. */
module Kruskal {
  import opened Components
  import opened Connectivity
  import opened Graphs
  import opened Schedule
  import opened Sorting
  import opened SpeculativeFor
  import opened UnionFind

  // ---------- the sequential loop ----------

  /** The edges that the sequential loop takes among the first k. */
  ghost function Greedy(E: Edges, k: nat): (S: set<nat>)
    requires k <= |E|
    ensures forall i :: i in S ==> i < k
  {
    if k == 0 then {}
    else
      var S := Greedy(E, k - 1);
      if Connected(E, S, E[k - 1].0, E[k - 1].1) then S else S + {k - 1}
  }

  lemma {:induction false} GreedyPrefix(E: Edges, k: nat, m: nat)
    requires k <= m <= |E|
    ensures Greedy(E, k) <= Greedy(E, m)
    ensures forall i :: 0 <= i < k ==> (i in Greedy(E, m) <==> i in Greedy(E, k))
    decreases m - k
  {
    if k < m {
      GreedyPrefix(E, k, m - 1);
    }
  }

  lemma {:induction false} GreedySpans(E: Edges, k: nat)
    requires k <= |E|
    ensures Spans(E, Greedy(E, k), k)
  {
    if k == 0 {
    } else {
      GreedySpans(E, k - 1);
      var S := Greedy(E, k - 1);
      if !Connected(E, S, E[k - 1].0, E[k - 1].1) {
        ForestExtends(E, S, k - 1);
        EdgeConnects(E, Greedy(E, k), k - 1);
        forall i | 0 <= i < k - 1 ensures Connected(E, Greedy(E, k), E[i].0, E[i].1) {
          ConnectedMono(E, S, Greedy(E, k), E[i].0, E[i].1);
        }
      }
    }
  }

  /** Edge i is taken if no set of vertices holding just one of its ends is left by an earlier edge. */
  lemma CutMakesGreedy(E: Edges, i: nat, inside: nat -> bool)
    requires i < |E| && inside(E[i].0) != inside(E[i].1)
    requires forall k :: 0 <= k < i ==> inside(E[k].0) == inside(E[k].1)
    ensures i in Greedy(E, |E|)
  {
    GreedyPrefix(E, i + 1, |E|);
    if Connected(E, Greedy(E, i), E[i].0, E[i].1) {
      ConnectedStays(E, Greedy(E, i), inside, E[i].0, E[i].1);
    }
  }

  // ---------- least weight ----------

  /** The total weight of the edges in S among the first m. */
  ghost function Weight(w: seq<int>, S: set<nat>, m: nat): int
    requires m <= |w|
  {
    if m == 0 then 0 else Weight(w, S, m - 1) + if m - 1 in S then w[m - 1] else 0
  }

  lemma {:induction false} WeightOfExchange(w: seq<int>, S: set<nat>, j: nat, k: nat, m: nat)
    requires k < j && m <= |w| && j < |w| && j in S && k !in S
    ensures Weight(w, S - {j} + {k}, m) ==
      Weight(w, S, m) - (if j < m then w[j] else 0) + (if k < m then w[k] else 0)
  {
    if m > 0 {
      WeightOfExchange(w, S, j, k, m - 1);
    }
  }

  ghost function UpTo(S: set<nat>, k: nat): set<nat> {
    set i | i in S && i < k
  }

  /** If S joins the ends of k but its part A does not, some edge of S outside A is on the way. */
  lemma {:induction false} EdgeOnTheWay(E: Edges, S: set<nat>, A: set<nat>, B: set<nat>, k: nat) returns (j: nat)
    requires k < |E| && A <= B <= S && IsForest(E, S) && forall i :: i in S ==> i < |E|
    requires Connected(E, B, E[k].0, E[k].1) && !Connected(E, A, E[k].0, E[k].1)
    ensures j in S && j !in A && !Connected(E, S - {j}, E[k].0, E[k].1)
    ensures j in B && Connected(E, B, E[k].0, E[k].1)
    decreases |B|
  {
    assert !(B <= A) by {
      assert B <= A ==> A == B;
    }
    j :| j in B && j !in A;
    var rest := B - {j};
    if Connected(E, rest, E[k].0, E[k].1) {
      j := EdgeOnTheWay(E, S, A, rest, k);
    } else {
      assert rest + {j} == B;
      var (u, v) := E[k];
      if Connected(E, S - {j}, u, v) {
        ConnectedWithEdge(E, rest, j, u, v);
        if Connected(E, rest, u, E[j].0) && Connected(E, rest, E[j].1, v) {
          CloseCycle(E, rest, S - {j}, u, E[j].0, E[j].1, v);
        } else {
          CloseCycle(E, rest, S - {j}, u, E[j].1, E[j].0, v);
          ConnectedSym(E, S - {j}, E[j].1, E[j].0);
        }
      }
    }
  }

  lemma CloseCycle(E: Edges, S: set<nat>, S': set<nat>, u: nat, p: nat, q: nat, v: nat)
    requires S <= S' && Connected(E, S, u, p) && Connected(E, S, q, v) && Connected(E, S', u, v)
    ensures Connected(E, S', p, q)
  {
    ConnectedSym(E, S, u, p);
    ConnectedSym(E, S, q, v);
    Bridge(E, S, S', p, u, v, q);
  }

  /** Exchanging that edge for k leaves a spanning forest. */
  lemma ExchangeSpans(E: Edges, S: set<nat>, j: nat, k: nat)
    requires Spans(E, S, |E|) && j in S && j < |E| && k < |E| && k !in S
    requires !Connected(E, S - {j}, E[k].0, E[k].1)
    ensures Spans(E, S - {j} + {k}, |E|)
  {
    var rest := S - {j};
    var S' := rest + {k};
    var (u, v) := E[k];
    assert rest + {j} == S;
    forall i | i in rest && i < |E| ensures !Connected(E, rest - {i}, E[i].0, E[i].1) {
      if Connected(E, rest - {i}, E[i].0, E[i].1) {
        ConnectedMono(E, rest - {i}, S - {i}, E[i].0, E[i].1);
      }
    }
    ForestExtends(E, rest, k);
    // the ends of j are joined through k
    ConnectedWithEdge(E, rest, j, u, v);
    assert Connected(E, S', E[j].0, E[j].1) by {
      EdgeConnects(E, S', k);
      if Connected(E, rest, u, E[j].0) && Connected(E, rest, E[j].1, v) {
        CloseCycle(E, rest, S', u, E[j].0, E[j].1, v);
      } else {
        CloseCycle(E, rest, S', u, E[j].1, E[j].0, v);
        ConnectedSym(E, S', E[j].1, E[j].0);
      }
    }
    forall i | 0 <= i < |E| ensures Connected(E, S', E[i].0, E[i].1) {
      ConnectedWithEdge(E, rest, j, E[i].0, E[i].1);
      ConnectedSym(E, S', E[j].0, E[j].1);
      if Connected(E, rest, E[i].0, E[i].1) {
        ConnectedMono(E, rest, S', E[i].0, E[i].1);
      } else if Connected(E, rest, E[i].0, E[j].0) && Connected(E, rest, E[j].1, E[i].1) {
        Bridge(E, rest, S', E[i].0, E[j].0, E[j].1, E[i].1);
      } else {
        Bridge(E, rest, S', E[i].0, E[j].1, E[j].0, E[i].1);
      }
    }
  }

  lemma UpToNext(S: set<nat>, j: nat, k: nat)
    ensures UpTo(S, k + 1) == if k in S then UpTo(S, k) + {k} else UpTo(S, k)
    ensures j !in UpTo(S, k) && j in S ==> UpTo(S - {j} + {k}, k + 1) == UpTo(S, k) + {k}
  {
  }

  /** The greedy edges weigh no more than any spanning forest: one that agrees with them below k can
      be changed to agree at k too without gaining weight. */
  lemma {:induction false} GreedyIsLightest(E: Edges, w: seq<int>, S: set<nat>, k: nat)
    requires |w| == |E| && k <= |E| && forall i, j :: 0 <= i < j < |E| ==> w[i] <= w[j]
    requires Spans(E, S, |E|) && forall i :: i in S ==> i < |E|
    requires UpTo(S, k) == Greedy(E, k)
    ensures Weight(w, Greedy(E, |E|), |E|) <= Weight(w, S, |E|)
    decreases |E| - k
  {
    if k == |E| {
      assert UpTo(S, k) == S;
    } else {
      var (u, v) := E[k];
      var A := Greedy(E, k);
      assert IsForest(E, S) && Connected(E, S, u, v) && A <= S;
      hide IsForest, Spans, Connected, Weight, UpTo;
      if Connected(E, A, u, v) {
        NotInForest(E, S, A, k);
        UpToNext(S, k, k);
        GreedyIsLightest(E, w, S, k + 1);
      } else if k in S {
        UpToNext(S, k, k);
        GreedyIsLightest(E, w, S, k + 1);
      } else {
        var j := EdgeOnTheWay(E, S, A, S, k);
        ExchangeSpans(E, S, j, k);
        UpToLater(S, j, k);
        WeightOfExchange(w, S, j, k, |E|);
        UpToNext(S, j, k);
        GreedyIsLightest(E, w, S - {j} + {k}, k + 1);
      }
    }
  }

  lemma UpToLater(S: set<nat>, j: nat, k: nat)
    requires j in S && j !in UpTo(S, k) && k !in S
    ensures k < j
  {
  }

  /** An edge whose ends the earlier edges of a forest join is not in the forest. */
  lemma NotInForest(E: Edges, S: set<nat>, A: set<nat>, k: nat)
    requires IsForest(E, S) && A <= S && A == UpTo(S, k) && k < |E| && Connected(E, A, E[k].0, E[k].1)
    ensures k !in S
  {
    if k in S {
      ForestApart(E, S, A, k);
    }
  }

  // ---------- between rounds ----------

  /** `ids` gives each sorted edge its position in the input. */
  ghost predicate Numbering(ids: seq<nat>, m: nat) {
    && |ids| == m && (forall k :: 0 <= k < m ==> ids[k] < m)
    && forall j, k :: 0 <= j < k < m ==> ids[j] != ids[k]
  }

  ghost predicate Input(E: Edges, n: nat, ids: seq<nat>) {
    EdgesOn(E, n) && |E| <= MAX_IDX && Numbering(ids, |E|)
  }

  /** The greedy edges among the finished ones are marked and make the components; every finished
      edge lies inside one; and every root is free. */
  ghost predicate BetweenRounds(E: Edges, n: nat, ids: seq<nat>, f: Forest, R: seq<nat>, inMST: seq<bool>,
      done: set<nat>)
  {
    var T := done * Greedy(E, |E|);
    && Input(E, n, ids) && Matches(E, n, f, T) && |R| == n && |inMST| == |E|
    && (forall k :: k in done && k < |E| ==> f.root[E[k].0] == f.root[E[k].1])
    && (forall x :: 0 <= x < n && IsRoot(f, x) ==> R[x] == MAX_IDX)
    && forall k :: 0 <= k < |E| ==> (inMST[ids[k]] <==> k in T)
  }

  // ---------- the reserve phase ----------

  /** The steps of a reserve body, in which a find is one step: it takes place when its last access answers
      with the root of that moment. */
  datatype ReservePc = FindU | FindV(u: nat) | ReserveV(u: nat, v: nat) | ReserveU(u: nat) | Answered(status: Status)

  predicate Contends(E: Edges, f: Forest, i: nat)
    requires i < |E| && E[i].0 < |f.root| && E[i].1 < |f.root|
  {
    f.root[E[i].0] != f.root[E[i].1]
  }

  /** One step of the reserve body of edge i. */
  function ReserveStep(E: Edges, f: Forest, i: nat, R: seq<nat>, pc: ReservePc): (seq<nat>, ReservePc)
    requires i < |E| && E[i].0 < |f.root| && E[i].1 < |f.root|
    requires (pc.ReserveV? ==> pc.v < |R|) && (pc.ReserveU? ==> pc.u < |R|)
  {
    match pc
    case FindU => (R, FindV(f.root[E[i].0]))
    case FindV(u) => (R, if u != f.root[E[i].1] then ReserveV(u, f.root[E[i].1]) else Answered(Done))
    case ReserveV(u, v) => (WriteMin(R, v, i), ReserveU(u))
    case ReserveU(u) => (WriteMin(R, u, i), Answered(TryCommit))
    case Answered(_) => (R, pc)
  }

  function ReserveWork(pc: ReservePc): nat {
    match pc
    case FindU => 4
    case FindV(_) => 3
    case ReserveV(_, _) => 2
    case ReserveU(_) => 1
    case Answered(_) => 0
  }

  ghost predicate BatchOf(E: Edges, n: nat, batch: seq<nat>) {
    EdgesOn(E, n) && Increasing(batch) && forall t :: 0 <= t < |batch| ==> batch[t] < |E|
  }

  ghost predicate Knows(E: Edges, f: Forest, i: nat, pc: ReservePc)
    requires i < |E| && E[i].0 < |f.root| && E[i].1 < |f.root|
  {
    var u0, v0 := f.root[E[i].0], f.root[E[i].1];
    match pc
    case FindU => true
    case FindV(u) => u == u0
    case ReserveV(u, v) => u == u0 && v == v0 && u0 != v0
    case ReserveU(u) => u == u0 && u0 != v0
    case Answered(status) => status == if u0 != v0 then TryCommit else Done
  }

  /** The write_mins that a thread has behind it. */
  predicate HasReserved(E: Edges, f: Forest, i: nat, x: nat, pc: ReservePc)
    requires i < |E| && E[i].0 < |f.root| && E[i].1 < |f.root|
  {
    || (f.root[E[i].1] == x && (pc.ReserveU? || pc == Answered(TryCommit)))
    || (f.root[E[i].0] == x && pc == Answered(TryCommit))
  }

  ghost predicate SomeReserved(E: Edges, n: nat, f: Forest, batch: seq<nat>, x: nat, i: nat, pcs: seq<ReservePc>)
    requires BatchOf(E, n, batch) && |f.root| == n && |pcs| == |batch|
  {
    exists t :: 0 <= t < |batch| && batch[t] == i && HasReserved(E, f, batch[t], x, pcs[t])
  }

  /** Each cell is as before the phase or holds an edge that has reserved it, the least one. */
  ghost predicate ReserveInv(E: Edges, n: nat, f: Forest, batch: seq<nat>, R0: seq<nat>, R: seq<nat>,
      pcs: seq<ReservePc>)
    requires BatchOf(E, n, batch)
  {
    && Valid(f) && |f.parent| == |R| == |R0| == n && |pcs| == |batch|
    && (forall x :: 0 <= x < n ==> R[x] == R0[x] || SomeReserved(E, n, f, batch, x, R[x], pcs))
    && (forall t, x :: 0 <= t < |batch| && 0 <= x < n && HasReserved(E, f, batch[t], x, pcs[t]) ==> R[x] <= batch[t])
    && forall t :: 0 <= t < |batch| ==> Knows(E, f, batch[t], pcs[t])
  }

  lemma ReserveStepKnows(E: Edges, n: nat, f: Forest, batch: seq<nat>, R0: seq<nat>, R: seq<nat>, pcs: seq<ReservePc>,
      t: nat)
    requires BatchOf(E, n, batch) && ReserveInv(E, n, f, batch, R0, R, pcs) && t < |batch|
    ensures (pcs[t].ReserveV? ==> pcs[t].v < n) && (pcs[t].ReserveU? ==> pcs[t].u < n)
    ensures batch[t] < |E| && |f.root| == n && E[batch[t]].0 < n && E[batch[t]].1 < n
    ensures Knows(E, f, batch[t], ReserveStep(E, f, batch[t], R, pcs[t]).1)
  {
  }

  /** The cell of a thread's write takes the least edge that reserved it; others stay. */
  lemma ReserveStepCell(E: Edges, n: nat, f: Forest, batch: seq<nat>, R0: seq<nat>, R: seq<nat>, pcs: seq<ReservePc>,
      t: nat, x: nat)
    requires BatchOf(E, n, batch) && ReserveInv(E, n, f, batch, R0, R, pcs) && t < |batch| && x < n
    requires (pcs[t].ReserveV? ==> pcs[t].v < n) && (pcs[t].ReserveU? ==> pcs[t].u < n)
    ensures
      var (R', pc') := ReserveStep(E, f, batch[t], R, pcs[t]);
      && |R'| == n && R'[x] <= R[x]
      && (R'[x] == R[x] || (R'[x] == batch[t] && HasReserved(E, f, batch[t], x, pc')))
      && (HasReserved(E, f, batch[t], x, pc') ==> R'[x] <= batch[t])
  {
  }

  lemma ReserveStepKeepsInv(E: Edges, n: nat, f: Forest, batch: seq<nat>, R0: seq<nat>, R: seq<nat>,
      pcs: seq<ReservePc>, t: nat)
    requires BatchOf(E, n, batch) && ReserveInv(E, n, f, batch, R0, R, pcs) && t < |batch|
    ensures (pcs[t].ReserveV? ==> pcs[t].v < n) && (pcs[t].ReserveU? ==> pcs[t].u < n)
    ensures
      var (R', pc') := ReserveStep(E, f, batch[t], R, pcs[t]);
      ReserveInv(E, n, f, batch, R0, R', pcs[t := pc'])
  {
    ReserveStepKnows(E, n, f, batch, R0, R, pcs, t);
    var (R', pc') := ReserveStep(E, f, batch[t], R, pcs[t]);
    var pcs' := pcs[t := pc'];
    ReserveKeepsSize(E, f, batch[t], R, pcs[t]);
    hide ReserveStep, Knows, HasReserved, Valid, WriteMin;
    forall x | 0 <= x < n
      ensures |R'| == n && R'[x] <= R[x] && (HasReserved(E, f, batch[t], x, pc') ==> R'[x] <= batch[t])
      ensures R'[x] == R0[x] || SomeReserved(E, n, f, batch, x, R'[x], pcs')
    {
      ReserveStepCell(E, n, f, batch, R0, R, pcs, t, x);
      if R'[x] != R[x] {
        assert HasReserved(E, f, batch[t], x, pcs'[t]);
      } else if R[x] != R0[x] {
        var u :| 0 <= u < |batch| && batch[u] == R[x] && HasReserved(E, f, batch[u], x, pcs[u]);
        assert u != t ==> HasReserved(E, f, batch[u], x, pcs'[u]);
        if u == t {
          ReservedStays(E, f, batch[t], x, R, pcs[t]);
          assert HasReserved(E, f, batch[t], x, pcs'[t]);
        }
      }
    }
  }

  lemma ReservedStays(E: Edges, f: Forest, i: nat, x: nat, R: seq<nat>, pc: ReservePc)
    requires i < |E| && E[i].0 < |f.root| && E[i].1 < |f.root| && HasReserved(E, f, i, x, pc)
    requires (pc.ReserveV? ==> pc.v < |R|) && (pc.ReserveU? ==> pc.u < |R|)
    ensures HasReserved(E, f, i, x, ReserveStep(E, f, i, R, pc).1)
  {
  }

  lemma ReserveKeepsSize(E: Edges, f: Forest, i: nat, R: seq<nat>, pc: ReservePc)
    requires i < |E| && E[i].0 < |f.root| && E[i].1 < |f.root|
    requires (pc.ReserveV? ==> pc.v < |R|) && (pc.ReserveU? ==> pc.u < |R|)
    ensures |ReserveStep(E, f, i, R, pc).0| == |R|
  {
  }

  /** The facts the reserve phase leaves behind. */
  ghost predicate AfterReserve(E: Edges, n: nat, f: Forest, batch: seq<nat>, R0: seq<nat>, R: seq<nat>,
      keep: seq<Status>)
    requires BatchOf(E, n, batch)
  {
    && Valid(f) && |R| == |R0| == |f.parent| == n && |keep| == |batch|
    && (forall x :: 0 <= x < n && R[x] != R0[x] ==>
          R[x] in batch && Contends(E, f, R[x]) && (f.root[E[R[x]].0] == x || f.root[E[R[x]].1] == x))
    && (forall t :: 0 <= t < |batch| && Contends(E, f, batch[t]) ==>
          R[f.root[E[batch[t]].0]] <= batch[t] && R[f.root[E[batch[t]].1]] <= batch[t])
    && forall t :: 0 <= t < |batch| ==> keep[t] == if Contends(E, f, batch[t]) then TryCommit else Done
  }

  lemma ReservePhaseEnds(E: Edges, n: nat, f: Forest, batch: seq<nat>, R0: seq<nat>, R: seq<nat>, pcs: seq<ReservePc>)
    requires BatchOf(E, n, batch) && ReserveInv(E, n, f, batch, R0, R, pcs)
      && forall t :: 0 <= t < |pcs| ==> pcs[t].Answered?
    ensures AfterReserve(E, n, f, batch, R0, R, seq(|pcs|, t requires 0 <= t < |pcs| => pcs[t].status))
  {
  }

  // ---------- why the decisions are the sequential ones ----------

  /** A round that starts between rounds and has reserved: its forest, and its cells before and after. */
  datatype Round = Round(E: Edges, n: nat, ids: seq<nat>, done: set<nat>, batch: seq<nat>, f: Forest, R0: seq<nat>,
    R: seq<nat>, inMST: seq<bool>, keep: seq<Status>)

  ghost predicate MidRound(c: Round) {
    && BetweenRounds(c.E, c.n, c.ids, c.f, c.R0, c.inMST, c.done)
    && BatchOf(c.E, c.n, c.batch) && SmallestUnfinished(c.batch, 0, |c.E|, c.done)
    && AfterReserve(c.E, c.n, c.f, c.batch, c.R0, c.R, c.keep)
  }

  ghost predicate Wins(c: Round, i: nat)
    requires MidRound(c) && i < |c.E|
  {
    Contends(c.E, c.f, i) && (c.R[c.f.root[c.E[i].0]] == i || c.R[c.f.root[c.E[i].1]] == i)
  }

  /** An edge dropped in the reserve phase is not a greedy edge: greedy edges already join its ends. */
  lemma DroppedIsNotGreedy(c: Round, i: nat)
    requires MidRound(c) && i < |c.E| && i !in c.done && !Contends(c.E, c.f, i)
    ensures i !in Greedy(c.E, |c.E|)
  {
    var G := Greedy(c.E, |c.E|);
    GreedySpans(c.E, |c.E|);
    if i in G {
      ForestApart(c.E, G, c.done * G, i);
    }
  }

  /** The tree of a root held by edge i is left by no earlier edge: a finished one lies inside a
      tree, and an unfinished one is in the batch and would have reserved the root first. */
  lemma WinnerIsGreedy(c: Round, i: nat, r: nat)
    requires MidRound(c) && i < |c.E| && Contends(c.E, c.f, i)
    requires r == c.f.root[c.E[i].0] || r == c.f.root[c.E[i].1]
    requires r < |c.R| && c.R[r] == i
    ensures i in Greedy(c.E, |c.E|)
  {
    hide Greedy;
    var inside := (x: nat) => x < |c.f.root| && c.f.root[x] == r;
    assert c.R0[r] == MAX_IDX && i in c.batch;
    forall k | 0 <= k < i ensures inside(c.E[k].0) == inside(c.E[k].1) {
      assert k in c.done || k in c.batch;
    }
    CutMakesGreedy(c.E, i, inside);
  }

  // ---------- the commit phase ----------

  datatype Pc =
    | GetU
    | GetV(u: nat)
    | CheckV(u: nat, v: nat)
    | ResetU(u: nat, v: nat)
    | CheckU(u: nat, v: nat)
    | Linking(from: nat, to: nat)
    | Mark
    | Ended(ok: bool)

  datatype Memory = Memory(f: Forest, R: seq<nat>, inMST: seq<bool>)

  ghost predicate CanCommit(E: Edges, ids: seq<nat>, i: nat, m: Memory, pc: Pc) {
    var n := |m.f.root|;
    && Valid(m.f) && |m.R| == n && EdgesOn(E, n) && i < |E| && i < |ids| && ids[i] < |m.inMST|
    && match pc
       case GetU => true
       case GetV(u) => u < n
       case CheckV(u, v) => u < n && v < n
       case ResetU(u, v) => u < n && v < n
       case CheckU(u, v) => u < n && v < n
       case Linking(x, y) => x < n && y < n
       case Mark => true
       case Ended(_) => true
  }

  /** One step of the commit body of edge i: a find, a check, the check_reset, the link or the mark. */
  function CommitStep(E: Edges, ids: seq<nat>, i: nat, m: Memory, pc: Pc): (Memory, Pc)
    requires CanCommit(E, ids, i, m, pc)
  {
    match pc
    case GetU => (m, GetV(m.f.root[E[i].0]))
    case GetV(u) => (m, CheckV(u, m.f.root[E[i].1]))
    case CheckV(u, v) => (m, if m.R[v] == i then ResetU(u, v) else CheckU(u, v))
    case ResetU(u, v) => (if m.R[u] == i then m.(R := m.R[u := MAX_IDX]) else m, Linking(v, u))
    case CheckU(u, v) => (m, if m.R[u] == i then Linking(u, v) else Ended(false))
    case Linking(x, y) => (m.(f := LinkTo(m.f, x, y)), Mark)
    case Mark => (m.(inMST := m.inMST[ids[i] := true]), Ended(true))
    case Ended(_) => (m, pc)
  }

  function CommitWork(pc: Pc): nat {
    match pc
    case GetU => 6
    case GetV(_) => 5
    case CheckV(_, _) => 4
    case ResetU(_, _) => 3
    case CheckU(_, _) => 3
    case Linking(_, _) => 2
    case Mark => 1
    case Ended(_) => 0
  }

  predicate HasLinked(pc: Pc) {
    pc.Mark? || pc == Ended(true)
  }

  ghost function LinkedSet(batch: seq<nat>, pcs: seq<Pc>): set<nat>
    requires |pcs| == |batch|
  {
    set t | 0 <= t < |batch| && HasLinked(pcs[t]) :: batch[t]
  }

  /** u is what find returned for the end x of edge i: a vertex of x's tree that was a root when the
      round began; held by i exactly if i holds x's first root, and then it is that root. */
  ghost predicate FoundRoot(c: Round, f: Forest, i: nat, x: nat, u: nat)
    requires Valid(c.f) && |c.f.parent| == |c.R| && x < |c.f.root|
  {
    && |f.root| == |f.parent| == |c.R| && u < |c.R| && f.root[u] == f.root[x] && IsRoot(c.f, u)
    && (c.R[u] == i <==> c.R[c.f.root[x]] == i)
    && (c.R[u] == i ==> u == c.f.root[x])
  }

  /** What the thread of edge i knows, in terms of the cells and the forest the phase began with. */
  ghost predicate ThreadInv(c: Round, f: Forest, i: nat, pc: Pc)
    requires MidRound(c) && i < |c.E|
  {
    var (a, b) := c.E[i];
    var holdsU, holdsV := c.R[c.f.root[a]] == i, c.R[c.f.root[b]] == i;
    match pc
    case GetU => Contends(c.E, c.f, i)
    case GetV(u) => Contends(c.E, c.f, i) && FoundRoot(c, f, i, a, u)
    case CheckV(u, v) => Contends(c.E, c.f, i) && FoundRoot(c, f, i, a, u) && FoundRoot(c, f, i, b, v)
    case ResetU(u, v) => Contends(c.E, c.f, i) && FoundRoot(c, f, i, a, u) && FoundRoot(c, f, i, b, v) && holdsV
    case CheckU(u, v) => Contends(c.E, c.f, i) && FoundRoot(c, f, i, a, u) && FoundRoot(c, f, i, b, v) && !holdsV
    case Linking(x, y) =>
      && Contends(c.E, c.f, i)
      && (holdsU || holdsV) && x == (if holdsV then c.f.root[b] else c.f.root[a])
      && y < |f.root| == |c.R| && f.root[y] == f.root[if holdsV then a else b]
    case Mark => holdsU || holdsV
    case Ended(ok) => ok == (holdsU || holdsV)
  }

  /** The threads that have reset the second root they held. */
  predicate HasReset(pc: Pc) {
    pc.Linking? || HasLinked(pc)
  }

  /** The cell of x has been reset by its holder, which links its other root. */
  ghost predicate WasReset(c: Round, x: nat, pc: Pc)
    requires MidRound(c) && x < |c.R| && c.R[x] < |c.E|
  {
    var (a, b) := c.E[c.R[x]];
    HasReset(pc) && c.R[c.f.root[b]] == c.R[x] && c.f.root[a] == x
  }

  ghost predicate CellsInv(c: Round, R: seq<nat>, pcs: seq<Pc>)
    requires MidRound(c) && |pcs| == |c.batch|
  {
    && |R| == |c.R|
    && (forall x :: 0 <= x < |R| ==> R[x] == c.R[x] || R[x] == MAX_IDX)
    && forall t, x :: 0 <= t < |c.batch| && 0 <= x < |R| && IsRoot(c.f, x) && c.R[x] == c.batch[t] ==>
         R[x] == if WasReset(c, x, pcs[t]) then MAX_IDX else c.R[x]
  }

  /** A root is linked away only by the edge that holds it. */
  ghost predicate RootsInv(c: Round, f: Forest, pcs: seq<Pc>)
    requires MidRound(c) && |pcs| == |c.batch|
  {
    && Valid(f) && |f.parent| == |c.f.parent|
    && (forall x :: 0 <= x < |f.parent| && IsRoot(f, x) ==> IsRoot(c.f, x))
    && (forall x :: 0 <= x < |f.parent| && IsRoot(c.f, x) && !IsRoot(f, x) ==> c.R[x] in LinkedSet(c.batch, pcs))
    && (forall t :: 0 <= t < |pcs| && HasLinked(pcs[t]) ==>
          var (a, b) := c.E[c.batch[t]];
          !IsRoot(f, if c.R[c.f.root[b]] == c.batch[t] then c.f.root[b] else c.f.root[a]))
    && forall x, y :: 0 <= x < |f.parent| && 0 <= y < |f.parent| && c.f.root[x] == c.f.root[y] ==>
      f.root[x] == f.root[y]
  }

  ghost predicate MarksInv(c: Round, inMST: seq<bool>, pcs: seq<Pc>)
    requires MidRound(c) && |pcs| == |c.batch|
  {
    |inMST| == |c.inMST| && forall k :: 0 <= k < |c.E| ==>
      (inMST[c.ids[k]] <==>
        c.inMST[c.ids[k]] || exists t :: 0 <= t < |c.batch| && c.batch[t] == k && pcs[t] == Ended(true))
  }

  ghost predicate CommitInv(c: Round, m: Memory, pcs: seq<Pc>) {
    && MidRound(c) && |pcs| == |c.batch|
    && Matches(c.E, c.n, m.f, c.done * Greedy(c.E, |c.E|) + LinkedSet(c.batch, pcs))
    && RootsInv(c, m.f, pcs)
    && CellsInv(c, m.R, pcs)
    && MarksInv(c, m.inMST, pcs)
    && forall t :: 0 <= t < |pcs| ==> ThreadInv(c, m.f, c.batch[t], pcs[t])
  }

  // ---------- each step keeps the invariant ----------

  lemma Sizes(c: Round)
    requires MidRound(c)
    ensures Valid(c.f) && |c.f.parent| == |c.R| == c.n && EdgesOn(c.E, c.n) && |c.E| <= MAX_IDX
    ensures Numbering(c.ids, |c.E|) && |c.inMST| == |c.E| && |c.keep| == |c.batch|
    ensures BatchOf(c.E, c.n, c.batch)
  {
  }

  /** A held root was reserved by a contender that has it as the root of one of its ends. */
  lemma HeldByContender(c: Round, x: nat)
    requires MidRound(c) && x < |c.R| && IsRoot(c.f, x) && c.R[x] != MAX_IDX
    ensures c.R[x] < |c.E| && Contends(c.E, c.f, c.R[x]) && c.R[x] in c.batch
    ensures c.f.root[c.E[c.R[x]].0] == x || c.f.root[c.E[c.R[x]].1] == x
  {
  }

  /** Linked edges are greedy, so they cannot join the ends of a winner that has not linked. */
  lemma StillApart(c: Round, m: Memory, pcs: seq<Pc>, t: nat)
    requires CommitInv(c, m, pcs) && t < |pcs| && !HasLinked(pcs[t]) && Wins(c, c.batch[t])
    ensures m.f.root[c.E[c.batch[t]].0] != m.f.root[c.E[c.batch[t]].1]
  {
    hide Greedy, RootsInv, CellsInv, MarksInv, AfterReserve, FoundRoot;
    var G, L := Greedy(c.E, |c.E|), LinkedSet(c.batch, pcs);
    GreedySpans(c.E, |c.E|);
    forall k | k in L ensures k in G {
      var s :| 0 <= s < |c.batch| && HasLinked(pcs[s]) && c.batch[s] == k;
      WinnerThread(c, m.f, k, pcs[s]);
    }
    WinnerThread(c, m.f, c.batch[t], Mark);
    assert c.batch[t] !in L && c.batch[t] !in c.done by {
      assert c.batch[t] in c.batch;
    }
    ForestApart(c.E, G, c.done * G + L, c.batch[t]);
  }

  lemma WinnerThread(c: Round, f: Forest, i: nat, pc: Pc)
    requires MidRound(c) && i < |c.E| && HasLinked(pc) && ThreadInv(c, f, i, pc)
    ensures Contends(c.E, c.f, i) && i in Greedy(c.E, |c.E|)
  {
    var (a, b) := c.E[i];
    var r := if c.R[c.f.root[a]] == i then c.f.root[a] else c.f.root[b];
    HeldByContender(c, r);
    WinnerIsGreedy(c, i, r);
  }

  /** A root that edge i holds stands until i links it. */
  lemma HeldRootStands(c: Round, m: Memory, pcs: seq<Pc>, t: nat, x: nat)
    requires CommitInv(c, m, pcs) && t < |pcs| && !HasLinked(pcs[t])
    requires x < |c.R| && c.R[c.f.root[x]] == c.batch[t]
    ensures IsRoot(m.f, c.f.root[x]) && m.f.root[x] == c.f.root[x]
  {
    hide Greedy, CellsInv, MarksInv, ThreadInv, AfterReserve, BetweenRounds, Matches;
    Sizes(c);
    NotLinkedYet(c.E, c.n, c.batch, pcs, t);
    assert c.f.root[x] == c.f.root[c.f.root[x]];
  }

  lemma NotLinkedYet(E: Edges, n: nat, batch: seq<nat>, pcs: seq<Pc>, t: nat)
    requires BatchOf(E, n, batch) && |pcs| == |batch| && t < |pcs| && !HasLinked(pcs[t])
    ensures batch[t] !in LinkedSet(batch, pcs)
  {
  }

  /** What find returns in the commit phase. */
  lemma FindInCommit(c: Round, m: Memory, pcs: seq<Pc>, t: nat, x: nat, y: nat)
    requires CommitInv(c, m, pcs) && t < |pcs| && !HasLinked(pcs[t]) && Contends(c.E, c.f, c.batch[t])
    requires (x, y) == c.E[c.batch[t]] || (y, x) == c.E[c.batch[t]]
    ensures FoundRoot(c, m.f, c.batch[t], x, m.f.root[x])
  {
    hide Greedy, CellsInv, MarksInv, ThreadInv;
    var i := c.batch[t];
    var u := m.f.root[x];
    if c.R[c.f.root[x]] == i {
      HeldRootStands(c, m, pcs, t, x);
    } else if c.R[u] == i {
      HeldByContender(c, u);
      HeldRootStands(c, m, pcs, t, y);
      StillApart(c, m, pcs, t);
    }
  }

  /** A cell that edge i's own end can hold is still held, or was never. */
  lemma CheckInCommit(c: Round, m: Memory, pcs: seq<Pc>, t: nat, x: nat, u: nat)
    requires CommitInv(c, m, pcs) && t < |pcs| && !HasReset(pcs[t])
    requires x < |c.f.root| && FoundRoot(c, m.f, c.batch[t], x, u)
    ensures u < |m.R| && (m.R[u] == c.batch[t] <==> c.R[c.f.root[x]] == c.batch[t])
  {
    hide Greedy, RootsInv, MarksInv, ThreadInv;
    assert c.batch[t] < MAX_IDX;
  }

  /** The thread's own knowledge after its step, when the forest stays. */
  lemma OwnThreadStep(c: Round, m: Memory, pcs: seq<Pc>, t: nat)
    requires CommitInv(c, m, pcs) && t < |pcs| && CanCommit(c.E, c.ids, c.batch[t], m, pcs[t]) && !pcs[t].Linking?
    ensures
      var (m', pc') := CommitStep(c.E, c.ids, c.batch[t], m, pcs[t]);
      ThreadInv(c, m.f, c.batch[t], pc')
  {
    hide Greedy, RootsInv, CellsInv, MarksInv, AfterReserve;
    var i := c.batch[t];
    assert ThreadInv(c, m.f, i, pcs[t]);
    var (a, b) := c.E[i];
    match pcs[t] {
      case GetU => FindInCommit(c, m, pcs, t, a, b);
      case GetV(u) => FindInCommit(c, m, pcs, t, b, a);
      case CheckV(u, v) => CheckInCommit(c, m, pcs, t, b, v);
      case ResetU(u, v) =>
      case CheckU(u, v) => CheckInCommit(c, m, pcs, t, a, u);
      case Mark =>
      case Ended(_) =>
    }
  }

  /** The cells that edge i holds, after a step of its own thread. */
  lemma OwnCells(c: Round, m: Memory, pcs: seq<Pc>, t: nat, x: nat)
    requires CommitInv(c, m, pcs) && t < |pcs| && CanCommit(c.E, c.ids, c.batch[t], m, pcs[t])
    requires x < |c.R| && IsRoot(c.f, x) && c.R[x] == c.batch[t]
    ensures
      var (m', pc') := CommitStep(c.E, c.ids, c.batch[t], m, pcs[t]);
      |m'.R| == |m.R| && m'.R[x] == if WasReset(c, x, pc') then MAX_IDX else c.R[x]
  {
    hide Greedy, RootsInv, MarksInv, AfterReserve;
    var i := c.batch[t];
    var (a, b) := c.E[i];
    assert ThreadInv(c, m.f, i, pcs[t]);
    HeldByContender(c, x);
    match pcs[t] {
      case GetU =>
      case GetV(u) =>
      case CheckV(u, v) =>
      case ResetU(u, v) => CheckInCommit(c, m, pcs, t, a, u);
      case CheckU(u, v) =>
      case Linking(_, _) =>
      case Mark =>
      case Ended(_) =>
    }
  }

  lemma CellsStep(c: Round, m: Memory, pcs: seq<Pc>, t: nat)
    requires CommitInv(c, m, pcs) && t < |pcs| && CanCommit(c.E, c.ids, c.batch[t], m, pcs[t])
    ensures
      var (m', pc') := CommitStep(c.E, c.ids, c.batch[t], m, pcs[t]);
      CellsInv(c, m'.R, pcs[t := pc'])
  {
    hide Greedy, RootsInv, MarksInv, AfterReserve, ThreadInv, WasReset, Matches;
    Sizes(c);
    var i := c.batch[t];
    var (m', pc') := CommitStep(c.E, c.ids, i, m, pcs[t]);
    assert forall s :: 0 <= s < |c.batch| && s != t ==> c.batch[s] != i;
    // only the thread's own cell can change, and only when it holds i
    assert m'.R == m.R || (pcs[t].ResetU? && pcs[t].u < |m.R| && m.R[pcs[t].u] == i
      && m'.R == m.R[pcs[t].u := MAX_IDX]);
    assert i < MAX_IDX;
    forall x | 0 <= x < |c.R| && IsRoot(c.f, x) && c.R[x] == i
      ensures m'.R[x] == if WasReset(c, x, pc') then MAX_IDX else c.R[x]
    {
      OwnCells(c, m, pcs, t, x);
    }
  }

  lemma MarksStep(c: Round, m: Memory, pcs: seq<Pc>, t: nat)
    requires CommitInv(c, m, pcs) && t < |pcs| && CanCommit(c.E, c.ids, c.batch[t], m, pcs[t])
    ensures
      var (m', pc') := CommitStep(c.E, c.ids, c.batch[t], m, pcs[t]);
      MarksInv(c, m'.inMST, pcs[t := pc'])
  {
    hide Greedy, RootsInv, CellsInv, AfterReserve, FoundRoot, Matches;
    var i := c.batch[t];
    var (m', pc') := CommitStep(c.E, c.ids, i, m, pcs[t]);
    var pcs' := pcs[t := pc'];
    forall k | 0 <= k < |c.E|
      ensures m'.inMST[c.ids[k]] <==>
        c.inMST[c.ids[k]] || exists s :: 0 <= s < |c.batch| && c.batch[s] == k && pcs'[s] == Ended(true)
    {
      if s :| 0 <= s < |c.batch| && c.batch[s] == k && pcs[s] == Ended(true) {
        assert pcs'[s] == Ended(true);
      }
      if k == i && pcs[t].Mark? {
        assert pcs'[t] == Ended(true);
      }
    }
  }

  lemma LinkedSetStays(batch: seq<nat>, pcs: seq<Pc>, t: nat, pc: Pc)
    requires |pcs| == |batch| && t < |batch| && HasLinked(pc) == HasLinked(pcs[t])
    ensures LinkedSet(batch, pcs[t := pc]) == LinkedSet(batch, pcs)
  {
  }

  lemma LinkedSetGrows(batch: seq<nat>, pcs: seq<Pc>, t: nat, pc: Pc)
    requires |pcs| == |batch| && t < |batch| && HasLinked(pc)
    requires forall s :: 0 <= s < |batch| && s != t ==> batch[s] != batch[t]
    ensures LinkedSet(batch, pcs[t := pc]) == LinkedSet(batch, pcs) + {batch[t]}
  {
  }

  /** Every step of any thread but a link. */
  lemma OtherStepKeepsInv(c: Round, m: Memory, pcs: seq<Pc>, t: nat)
    requires CommitInv(c, m, pcs) && t < |pcs| && CanCommit(c.E, c.ids, c.batch[t], m, pcs[t]) && !pcs[t].Linking?
    ensures
      var (m', pc') := CommitStep(c.E, c.ids, c.batch[t], m, pcs[t]);
      CommitInv(c, m', pcs[t := pc'])
  {
    hide Greedy, CellsInv, MarksInv, ThreadInv, MidRound, Matches;
    var (m', pc') := CommitStep(c.E, c.ids, c.batch[t], m, pcs[t]);
    OwnThreadStep(c, m, pcs, t);
    CellsStep(c, m, pcs, t);
    MarksStep(c, m, pcs, t);
    LinkedSetStays(c.batch, pcs, t, pc');
    RootsStay(c, m.f, pcs, t, pc');
  }

  lemma RootsStay(c: Round, f: Forest, pcs: seq<Pc>, t: nat, pc: Pc)
    requires MidRound(c) && |pcs| == |c.batch| && t < |pcs| && RootsInv(c, f, pcs) && HasLinked(pc) == HasLinked(pcs[t])
    ensures RootsInv(c, f, pcs[t := pc])
  {
  }

  /** The link: the held root still stands, and the other end is still in another tree, so the link
      makes no cycle whatever was linked since the finds. */
  lemma LinkStepKeepsInv(c: Round, m: Memory, pcs: seq<Pc>, t: nat)
    requires t < |c.batch| == |pcs| && pcs[t].Linking? && CanCommit(c.E, c.ids, c.batch[t], m, pcs[t])
    requires Valid(m.f) && pcs[t].from < |m.f.parent| == |m.f.root| && pcs[t].to < |m.f.root|
    requires CommitInv(c, m, pcs)
    ensures IsRoot(m.f, pcs[t].from) && m.f.root[pcs[t].to] != pcs[t].from
    ensures CommitInv(c, CommitStep(c.E, c.ids, c.batch[t], m, pcs[t]).0, pcs[t := Mark])
  {
    hide Greedy, CellsInv, MarksInv, AfterReserve, FoundRoot;
    var i := c.batch[t];
    var (a, b) := c.E[i];
    var x, y := pcs[t].from, pcs[t].to;
    assert ThreadInv(c, m.f, i, pcs[t]);
    var end := if c.R[c.f.root[b]] == i then b else a;
    HeldRootStands(c, m, pcs, t, end);
    StillApart(c, m, pcs, t);
    var T := c.done * Greedy(c.E, |c.E|) + LinkedSet(c.batch, pcs);
    LinkMatches(c.E, c.n, m.f, T, i, x, y);
    LinkedSetGrows(c.batch, pcs, t, Mark);
    assert T + {i} == c.done * Greedy(c.E, |c.E|) + LinkedSet(c.batch, pcs[t := Mark]);
    CellsStep(c, m, pcs, t);
    MarksStep(c, m, pcs, t);
    RootsAfterLink(c, m.f, pcs, t);
    forall s | 0 <= s < |pcs| ensures ThreadInv(c, LinkTo(m.f, x, y), c.batch[s], pcs[t := Mark][s]) {
      ThreadAfterLink(c, m.f, x, y, c.batch[s], pcs[s]);
    }
  }

  lemma RootsAfterLink(c: Round, f: Forest, pcs: seq<Pc>, t: nat)
    requires t < |c.batch| == |pcs| && c.batch[t] < |c.E| && pcs[t].Linking?
    requires Valid(f) && pcs[t].from < |f.parent| == |f.root| && pcs[t].to < |f.parent|
    requires MidRound(c) && RootsInv(c, f, pcs)
    requires ThreadInv(c, f, c.batch[t], pcs[t]) && pcs[t].from < |c.R| && IsRoot(f, pcs[t].from)
      && f.root[pcs[t].to] != pcs[t].from
    ensures RootsInv(c, LinkTo(f, pcs[t].from, pcs[t].to), pcs[t := Mark])
  {
    hide Greedy, AfterReserve, SmallestUnfinished, Matches, LinkTo, Valid, LinkedSet;
    Sizes(c);
    var x, y := pcs[t].from, pcs[t].to;
    LinkKeepsForest(f, x, y);
    RootsOfLink(f, x, y);
    assert forall s :: 0 <= s < |c.batch| && s != t ==> c.batch[s] != c.batch[t];
    LinkedSetGrows(c.batch, pcs, t, Mark);
    RootsSurviveLink(f, x, y);
  }

  lemma RootsOfLink(f: Forest, x: nat, y: nat)
    requires Valid(f) && x < |f.parent| && y < |f.parent|
    ensures |LinkTo(f, x, y).parent| == |f.parent|
    ensures forall z :: 0 <= z < |f.parent| ==> IsRoot(LinkTo(f, x, y), z) == (IsRoot(f, z) && z != x)
  {
  }

  lemma FoundAfterLink(c: Round, f: Forest, x: nat, y: nat, i: nat, a: nat, u: nat)
    requires Valid(c.f) && |c.f.parent| == |c.R| && a < |c.f.root| && FoundRoot(c, f, i, a, u)
    requires Valid(f) && |f.parent| == |c.R| && x < |c.R| && y < |c.R| && IsRoot(f, x) && f.root[y] != x
    ensures FoundRoot(c, LinkTo(f, x, y), i, a, u)
  {
  }

  lemma ThreadAfterLink(c: Round, f: Forest, x: nat, y: nat, i: nat, pc: Pc)
    requires MidRound(c) && i < |c.E| && ThreadInv(c, f, i, pc)
    requires Valid(f) && |f.parent| == |c.R| && x < |c.R| && y < |c.R| && IsRoot(f, x) && f.root[y] != x
    ensures ThreadInv(c, LinkTo(f, x, y), i, pc)
    ensures pc.Linking? ==> ThreadInv(c, LinkTo(f, x, y), i, Mark)
  {
    hide Greedy, AfterReserve, SmallestUnfinished, FoundRoot;
    Sizes(c);
    var (a, b) := c.E[i];
    match pc {
      case GetU =>
      case GetV(u) => FoundAfterLink(c, f, x, y, i, a, u);
      case CheckV(u, v) => FoundAfterLink(c, f, x, y, i, a, u); FoundAfterLink(c, f, x, y, i, b, v);
      case ResetU(u, v) => FoundAfterLink(c, f, x, y, i, a, u); FoundAfterLink(c, f, x, y, i, b, v);
      case CheckU(u, v) => FoundAfterLink(c, f, x, y, i, a, u); FoundAfterLink(c, f, x, y, i, b, v);
      case Linking(_, _) => RootsSurviveLink(f, x, y);
      case Mark =>
      case Ended(_) =>
    }
  }

  lemma InvMeansCanCommit(c: Round, m: Memory, pcs: seq<Pc>, t: nat)
    requires CommitInv(c, m, pcs) && t < |pcs|
    ensures CanCommit(c.E, c.ids, c.batch[t], m, pcs[t])
  {
  }

  // ---------- the ends of the commit phase ----------

  function Entering(keep: seq<Status>): seq<Pc> {
    seq(|keep|, t requires 0 <= t < |keep| => if keep[t] == TryCommit then GetU else Ended(false))
  }

  function Leaving(keep: seq<Status>, pcs: seq<Pc>): seq<Status>
    requires |keep| == |pcs|
  {
    seq(|pcs|, t requires 0 <= t < |pcs| => if keep[t] == Done || pcs[t] == Ended(true) then Done else TryAgain)
  }

  /** An edge that did not contend holds no root. */
  lemma EntersRight(c: Round, t: nat)
    requires MidRound(c) && t < |c.batch| == |c.keep|
    ensures c.batch[t] < |c.E| && ThreadInv(c, c.f, c.batch[t], Entering(c.keep)[t])
  {
  }

  lemma KeepTells(c: Round, t: nat)
    requires MidRound(c) && t < |c.batch| == |c.keep| && c.batch[t] < |c.E|
    ensures c.keep[t] == if Contends(c.E, c.f, c.batch[t]) then TryCommit else Done
  {
  }

  lemma CommitPhaseBegins(c: Round)
    requires MidRound(c)
    ensures |c.keep| == |c.batch| && CommitInv(c, Memory(c.f, c.R, c.inMST), Entering(c.keep))
  {
    hide Greedy, AfterReserve, SmallestUnfinished;
    Sizes(c);
    var pcs := Entering(c.keep);
    assert LinkedSet(c.batch, pcs) == {};
    assert c.done * Greedy(c.E, |c.E|) + LinkedSet(c.batch, pcs) == c.done * Greedy(c.E, |c.E|);
    forall t | 0 <= t < |pcs| ensures ThreadInv(c, c.f, c.batch[t], pcs[t]) {
      EntersRight(c, t);
    }
  }

  /** A round whose commit phase has ended. */
  ghost predicate Ending(c: Round, m: Memory, pcs: seq<Pc>) {
    && CommitInv(c, m, pcs) && |c.keep| == |pcs|
    && forall t :: 0 <= t < |pcs| ==> pcs[t].Ended? && (c.keep[t] == Done ==> !pcs[t].ok)
  }

  /** The least pending edge is dropped or wins. */
  lemma LowestIsDecided(c: Round, m: Memory, pcs: seq<Pc>)
    requires Ending(c, m, pcs) && pcs != []
    ensures c.keep[0] == Done || pcs[0].ok
  {
    hide Greedy, CellsInv, MarksInv, RootsInv, Matches, MidRound;
    Sizes(c);
    KeepTells(c, 0);
    assert ThreadInv(c, m.f, c.batch[0], pcs[0]);
    if Contends(c.E, c.f, c.batch[0]) {
      LowestHolds(c);
    }
  }

  lemma LowestHolds(c: Round)
    requires MidRound(c) && c.batch != [] && c.batch[0] < |c.E| && Contends(c.E, c.f, c.batch[0])
    ensures c.R[c.f.root[c.E[c.batch[0]].0]] == c.batch[0]
  {
  }

  /** What the round finished: greedy edges, now linked, and edges that are not greedy. */
  lemma EdgeDecided(c: Round, m: Memory, pcs: seq<Pc>, t: nat)
    requires Ending(c, m, pcs) && t < |pcs|
    ensures pcs[t].ok ==> c.batch[t] in Greedy(c.E, |c.E|)
    ensures c.keep[t] == Done ==> c.batch[t] !in Greedy(c.E, |c.E|)
    ensures pcs[t].ok || c.keep[t] == Done ==> m.f.root[c.E[c.batch[t]].0] == m.f.root[c.E[c.batch[t]].1]
  {
    hide Greedy, CellsInv, MarksInv;
    var i := c.batch[t];
    assert i in c.batch;
    assert ThreadInv(c, m.f, i, pcs[t]);
    if pcs[t].ok {
      WinnerThread(c, m.f, i, pcs[t]);
      var T := c.done * Greedy(c.E, |c.E|) + LinkedSet(c.batch, pcs);
      assert i in T by { assert HasLinked(pcs[t]); }
      EdgeConnects(c.E, T, i);
    } else if c.keep[t] == Done {
      DroppedIsNotGreedy(c, i);
    }
  }

  lemma TakenNow(c: Round, m: Memory, pcs: seq<Pc>)
    requires Ending(c, m, pcs)
    ensures (c.done + FinishedBy(c.batch, Leaving(c.keep, pcs))) * Greedy(c.E, |c.E|)
         == c.done * Greedy(c.E, |c.E|) + LinkedSet(c.batch, pcs)
    ensures pcs != [] ==> Leaving(c.keep, pcs)[0] == Done
    ensures forall k :: k in FinishedBy(c.batch, Leaving(c.keep, pcs)) && k < |c.E| ==>
      m.f.root[c.E[k].0] == m.f.root[c.E[k].1]
  {
    hide Greedy, MidRound, CellsInv, MarksInv, RootsInv, ThreadInv;
    Sizes(c);
    if pcs != [] {
      LowestIsDecided(c, m, pcs);
    }
    forall t | 0 <= t < |pcs|
      ensures pcs[t].ok ==> c.batch[t] in Greedy(c.E, |c.E|)
      ensures c.keep[t] == Done ==> c.batch[t] !in Greedy(c.E, |c.E|)
      ensures pcs[t].ok || c.keep[t] == Done ==> m.f.root[c.E[c.batch[t]].0] == m.f.root[c.E[c.batch[t]].1]
    {
      EdgeDecided(c, m, pcs, t);
    }
    assert forall t :: 0 <= t < |pcs| ==> (HasLinked(pcs[t]) <==> pcs[t].ok);
    assert forall t :: 0 <= t < |pcs| ==> (Leaving(c.keep, pcs)[t] == Done <==> pcs[t].ok || c.keep[t] == Done);
  }

  /** Every remaining root's reservation is clear when the round ends. */
  lemma RootIsFree(c: Round, m: Memory, pcs: seq<Pc>, x: nat)
    requires Ending(c, m, pcs) && x < |m.f.parent| && IsRoot(m.f, x)
    ensures x < |m.R| && m.R[x] == MAX_IDX
  {
    hide Greedy, MarksInv, AfterReserve, SmallestUnfinished, BetweenRounds, LinkedSet;
    Sizes(c);
    if c.R[x] != MAX_IDX {
      HeldByContender(c, x);
      var s :| 0 <= s < |c.batch| && c.batch[s] == c.R[x];
      assert ThreadInv(c, m.f, c.batch[s], pcs[s]);
      assert HasLinked(pcs[s]);
      assert WasReset(c, x, pcs[s]);
    }
  }

  lemma MarkedNow(c: Round, m: Memory, pcs: seq<Pc>, k: nat)
    requires Ending(c, m, pcs) && k < |c.E|
    ensures |m.inMST| == |c.E| && c.ids[k] < |c.E|
    ensures m.inMST[c.ids[k]] <==> k in c.done * Greedy(c.E, |c.E|) + LinkedSet(c.batch, pcs)
  {
  }

  /** A phase that has ended stands between rounds again. */
  lemma CommitPhaseEnds(c: Round, m: Memory, pcs: seq<Pc>)
    requires Ending(c, m, pcs)
    ensures BetweenRounds(c.E, c.n, c.ids, m.f, m.R, m.inMST, c.done + FinishedBy(c.batch, Leaving(c.keep, pcs)))
    ensures pcs != [] ==> Leaving(c.keep, pcs)[0] == Done
  {
    hide Greedy, MarksInv, AfterReserve, SmallestUnfinished, ThreadInv, FinishedBy, Leaving, LinkedSet;
    Sizes(c);
    TakenNow(c, m, pcs);
    forall x | 0 <= x < c.n && IsRoot(m.f, x) ensures m.R[x] == MAX_IDX {
      RootIsFree(c, m, pcs, x);
    }
    assert |m.inMST| == |c.E| by {
      if |c.E| > 0 { MarkedNow(c, m, pcs, 0); } else { MarksSize(c, m.inMST, pcs); }
    }
    forall k | 0 <= k < |c.E| ensures m.inMST[c.ids[k]]
      <==> k in c.done * Greedy(c.E, |c.E|) + LinkedSet(c.batch, pcs)
    {
      MarkedNow(c, m, pcs, k);
    }
  }

  lemma MarksSize(c: Round, inMST: seq<bool>, pcs: seq<Pc>)
    requires MidRound(c) && |pcs| == |c.batch| && MarksInv(c, inMST, pcs)
    ensures |inMST| == |c.E|
  {
  }

  // ---------- the algorithm, under any schedule ----------

  /** A thread in one of its finds is somewhere inside it. */
  ghost predicate ReserveFinds(E: Edges, f: Forest, i: nat, pc: ReservePc, find: Find) {
    i < |E| && (pc.FindU? ==> Finding(f, E[i].0, find)) && (pc.FindV? ==> Finding(f, E[i].1, find))
  }

  ghost predicate AllReserveFind(E: Edges, f: Forest, batch: seq<nat>, pcs: seq<ReservePc>, finds: seq<Find>) {
    |pcs| == |finds| == |batch| && forall t :: 0 <= t < |batch| ==> ReserveFinds(E, f, batch[t], pcs[t], finds[t])
  }

  /** One memory access of the reserve body of edge i: a step of it, or an access inside a find. */
  method ReserveAccess(E: Edges, P: array<int>, R: array<nat>, i: nat, pc: ReservePc, find: Find, ghost f: Forest)
    returns (next: ReservePc, find': Find)
    requires P as object != R && Represents(P[..], f) && ReserveFinds(E, f, i, pc, find)
    requires E[i].0 < |f.root| && E[i].1 < |f.root| == |f.parent|
    requires (pc.ReserveV? ==> pc.v < R.Length) && (pc.ReserveU? ==> pc.u < R.Length)
    modifies P, R
    ensures Represents(P[..], f) && ReserveFinds(E, f, i, next, find')
    ensures (R[..], next) == ReserveStep(E, f, i, old(R[..]), pc)
      || (R[..] == old(R[..]) && next == pc && FindWork(f)(find') < FindWork(f)(find))
  {
    hide Represents, FindWork;
    next, find' := pc, find;
    match pc {
      case FindU =>
        find' := FindMore(P, find, f, E[i].0);
        if find'.Found? {
          next, find' := FindV(find'.r), Start(E[i].1);
        }
      case FindV(u) =>
        find' := FindMore(P, find, f, E[i].1);
        if find'.Found? {
          next := if u != find'.r then ReserveV(u, find'.r) else Answered(Done);
        }
      case ReserveV(u, v) => WriteMinAt(R, v, i); next := ReserveU(u);
      case ReserveU(u) => WriteMinAt(R, u, i); next := Answered(TryCommit);
      case Answered(_) =>
    }
  }

  method ReserveOne(E: Edges, n: nat, P: array<int>, R: array<nat>, batch: seq<nat>, pcs: seq<ReservePc>,
      finds: seq<Find>, t: nat, ghost f: Forest, ghost R0: seq<nat>)
    returns (pcs': seq<ReservePc>, finds': seq<Find>)
    requires P as object != R && Represents(P[..], f) && |f.root| == |f.parent| == R.Length == n && BatchOf(E, n, batch)
    requires ReserveInv(E, n, f, batch, R0, R[..], pcs) && AllReserveFind(E, f, batch, pcs, finds)
    requires t < |batch| == |pcs| == |finds| && !pcs[t].Answered?
    modifies P, R
    ensures Represents(P[..], f) && |pcs'| == |finds'| == |batch|
    ensures ReserveInv(E, n, f, batch, R0, R[..], pcs') && AllReserveFind(E, f, batch, pcs', finds')
    ensures Work(ReserveWork, pcs') < Work(ReserveWork, pcs)
      || (Work(ReserveWork, pcs') == Work(ReserveWork, pcs) && Work(FindWork(f), finds') < Work(FindWork(f), finds))
  {
    ReserveStepKnows(E, n, f, batch, R0, R[..], pcs, t);
    ReserveStepKeepsInv(E, n, f, batch, R0, R[..], pcs, t);
    hide ReserveInv, Work, Valid, IsRoot, LinkTo, Contends, BatchOf, EdgesOn, Represents, FindWork, Finding;
    var pc, find := ReserveAccess(E, P, R, batch[t], pcs[t], finds[t], f);
    WorkAfterStep(ReserveWork, pcs, t, pc);
    WorkAfterStep(FindWork(f), finds, t, find);
    pcs', finds' := pcs[t := pc], finds[t := find];
    if pc == pcs[t] {
      assert pcs' == pcs;
    }
  }

  method ReservePhase(E: Edges, n: nat, P: array<int>, R: array<nat>, batch: seq<nat>, ghost f: Forest)
    returns (keep: seq<Status>)
    requires P as object != R && Represents(P[..], f) && |f.root| == |f.parent| == R.Length == n && BatchOf(E, n, batch)
    modifies P, R
    ensures Represents(P[..], f)
    ensures AfterReserve(E, n, f, batch, old(R[..]), R[..], keep)
  {
    var pcs := seq(|batch|, _ => FindU);
    var finds := seq(|batch|, t requires 0 <= t < |batch| => assert batch[t] < |E|; Start(E[batch[t]].0));
    assert ReserveInv(E, n, f, batch, R[..], R[..], pcs);
    assert AllReserveFind(E, f, batch, pcs, finds);
    hide ReserveInv, AllReserveFind, Work, AfterReserve, Valid, BatchOf, Represents;
    while exists t :: 0 <= t < |pcs| && !pcs[t].Answered?
      invariant |pcs| == |finds| == |batch| && Represents(P[..], f)
      invariant ReserveInv(E, n, f, batch, old(R[..]), R[..], pcs) && AllReserveFind(E, f, batch, pcs, finds)
      decreases Work(ReserveWork, pcs), Work(FindWork(f), finds)
    {
      var t: nat :| t < |pcs| && !pcs[t].Answered?;
      pcs, finds := ReserveOne(E, n, P, R, batch, pcs, finds, t, f, old(R[..]));
    }
    ReservePhaseEnds(E, n, f, batch, old(R[..]), R[..], pcs);
    keep := seq(|pcs|, t requires 0 <= t < |pcs| => pcs[t].status);
  }

  ghost predicate CommitFinds(E: Edges, f: Forest, i: nat, pc: Pc, find: Find) {
    i < |E| && (pc.GetU? ==> Finding(f, E[i].0, find)) && (pc.GetV? ==> Finding(f, E[i].1, find))
  }

  ghost predicate AllCommitFind(E: Edges, f: Forest, batch: seq<nat>, pcs: seq<Pc>, finds: seq<Find>) {
    |pcs| == |finds| == |batch| && forall t :: 0 <= t < |batch| ==> CommitFinds(E, f, batch[t], pcs[t], finds[t])
  }

  /** One memory access of the commit body of edge i: a step of it, or an access inside a find. */
  method CommitAccess(E: Edges, ids: seq<nat>, P: array<int>, R: array<nat>, inMST: array<bool>, i: nat, pc: Pc,
      find: Find, ghost f: Forest)
    returns (next: Pc, find': Find, ghost f': Forest)
    requires P as object != R && Represents(P[..], f) && CanCommit(E, ids, i, Memory(f, R[..], inMST[..]), pc)
      && CommitFinds(E, f, i, pc, find)
    requires pc.Linking? ==> pc.from < |f.parent| && IsRoot(f, pc.from) && f.root[pc.to] != pc.from
    modifies P, R, inMST
    ensures Represents(P[..], f') && CommitFinds(E, f', i, next, find')
    ensures (Memory(f', R[..], inMST[..]), next) == CommitStep(E, ids, i, old(Memory(f, R[..], inMST[..])), pc)
      || (Memory(f', R[..], inMST[..]) == old(Memory(f, R[..], inMST[..])) && next == pc && !pc.Linking?
        && FindWork(f)(find') < FindWork(f)(find))
  {
    hide FindWork, Above;
    next, find', f' := pc, find, f;
    match pc {
      case GetU =>
        find' := FindMore(P, find, f, E[i].0);
        if find'.Found? {
          next, find' := GetV(find'.r), Start(E[i].1);
        }
      case GetV(u) =>
        find' := FindMore(P, find, f, E[i].1);
        if find'.Found? {
          next := CheckV(u, find'.r);
        }
      case CheckV(u, v) => next := if R[v] == i then ResetU(u, v) else CheckU(u, v);
      case ResetU(u, v) =>
        if R[u] == i {
          R[u] := MAX_IDX;
        }
        next := Linking(v, u);
      case CheckU(u, v) => next := if R[u] == i then Linking(u, v) else Ended(false);
      case Linking(x, y) =>
        LinkStep(P[..], f, x, y);
        P[x] := y;
        f' := LinkTo(f, x, y);
        next := Mark;
      case Mark => inMST[ids[i]] := true; next := Ended(true);
      case Ended(_) =>
    }
  }

  /** The finds under way survive a link. */
  lemma FindsSurvive(E: Edges, f: Forest, batch: seq<nat>, pcs: seq<Pc>, finds: seq<Find>, x: nat, y: nat)
    requires Valid(f) && AllCommitFind(E, f, batch, pcs, finds) && x < |f.parent| && y < |f.parent| && IsRoot(f, x)
    ensures AllCommitFind(E, LinkTo(f, x, y), batch, pcs, finds)
  {
    hide FindInv, Valid, LinkTo;
    forall t | 0 <= t < |batch| ensures CommitFinds(E, LinkTo(f, x, y), batch[t], pcs[t], finds[t]) {
      assert CommitFinds(E, f, batch[t], pcs[t], finds[t]);
      if pcs[t].GetU? {
        FindInvSurvivesLink(f, x, y, E[batch[t]].0, finds[t]);
      } else if pcs[t].GetV? {
        FindInvSurvivesLink(f, x, y, E[batch[t]].1, finds[t]);
      }
    }
  }

  lemma FindsStep(E: Edges, f: Forest, batch: seq<nat>, pcs: seq<Pc>, finds: seq<Find>, t: nat, pc: Pc, find: Find)
    requires AllCommitFind(E, f, batch, pcs, finds) && t < |batch| && CommitFinds(E, f, batch[t], pc, find)
    ensures AllCommitFind(E, f, batch, pcs[t := pc], finds[t := find])
  {
  }

  /** Step t of a round whose commit phase is under way. */
  method CommitOne(ghost c: Round, E: Edges, ids: seq<nat>, P: array<int>, R: array<nat>, inMST: array<bool>,
      batch: seq<nat>, pcs: seq<Pc>, finds: seq<Find>, t: nat, ghost f: Forest)
    returns (pcs': seq<Pc>, finds': seq<Find>, ghost f': Forest)
    requires P as object != R && Represents(P[..], f) && c.E == E && c.ids == ids && c.batch == batch
    requires CommitInv(c, Memory(f, R[..], inMST[..]), pcs) && AllCommitFind(E, f, batch, pcs, finds)
    requires t < |batch| == |pcs| == |finds| && !pcs[t].Ended?
    modifies P, R, inMST
    ensures Represents(P[..], f') && |pcs'| == |finds'| == |batch|
    ensures CommitInv(c, Memory(f', R[..], inMST[..]), pcs') && AllCommitFind(E, f', batch, pcs', finds')
    ensures Work(CommitWork, pcs') < Work(CommitWork, pcs)
      || (Work(CommitWork, pcs') == Work(CommitWork, pcs) && f' == f
        && Work(FindWork(f), finds') < Work(FindWork(f), finds))
    ensures forall s :: 0 <= s < |batch| && pcs[s].Ended? ==> pcs'[s] == pcs[s]
  {
    hide *;
    ghost var m := Memory(f, R[..], inMST[..]);
    InvMeansCanCommit(c, m, pcs, t);
    if pcs[t].Linking? {
      LinkInRange(E, ids, batch[t], m, pcs[t]);
      LinkStepKeepsInv(c, m, pcs, t);
      LinkIs(E, ids, batch[t], m, pcs[t]);
      FindsSurvive(E, f, batch, pcs, finds, pcs[t].from, pcs[t].to);
    } else {
      OtherStepKeepsInv(c, m, pcs, t);
      ForestStays(E, ids, batch[t], m, pcs[t]);
    }
    CommitWorkFalls(E, ids, batch[t], m, pcs[t]);
    FindsOf(E, f, batch, pcs, finds, t);
    var pc, find;
    pc, find, f' := CommitAccess(E, ids, P, R, inMST, batch[t], pcs[t], finds[t], f);
    WorkAfterStep(CommitWork, pcs, t, pc);
    WorkAfterStep(FindWork(f), finds, t, find);
    FindsStep(E, f', batch, pcs, finds, t, pc, find);
    pcs', finds' := pcs[t := pc], finds[t := find];
    if pc == pcs[t] {
      assert pcs' == pcs;
    }
  }

  lemma FindsOf(E: Edges, f: Forest, batch: seq<nat>, pcs: seq<Pc>, finds: seq<Find>, t: nat)
    requires AllCommitFind(E, f, batch, pcs, finds) && t < |batch|
    ensures |pcs| == |finds| == |batch| && CommitFinds(E, f, batch[t], pcs[t], finds[t])
  {
  }

  lemma ForestStays(E: Edges, ids: seq<nat>, i: nat, m: Memory, pc: Pc)
    requires CanCommit(E, ids, i, m, pc) && !pc.Linking?
    ensures CommitStep(E, ids, i, m, pc).0.f == m.f
  {
  }

  lemma LinkIs(E: Edges, ids: seq<nat>, i: nat, m: Memory, pc: Pc)
    requires CanCommit(E, ids, i, m, pc) && pc.Linking?
    ensures Valid(m.f) && pc.from < |m.f.parent| == |m.f.root| && pc.to < |m.f.root|
    ensures CommitStep(E, ids, i, m, pc) == (m.(f := LinkTo(m.f, pc.from, pc.to)), Mark)
  {
  }

  lemma BatchEnds(c: Round)
    requires MidRound(c)
    ensures forall t :: 0 <= t < |c.batch| ==> c.batch[t] < |c.E|
    ensures |Entering(c.keep)| == |c.keep|
    ensures forall t :: 0 <= t < |c.keep| && c.keep[t] == Done ==> Entering(c.keep)[t] == Ended(false)
  {
  }

  lemma EndingIs(c: Round, m: Memory, pcs: seq<Pc>)
    requires CommitInv(c, m, pcs) && (forall t :: 0 <= t < |pcs| ==> pcs[t].Ended?)
    requires |pcs| == |c.keep| && forall t :: 0 <= t < |pcs| && c.keep[t] == Done ==> pcs[t] == Ended(false)
    ensures Ending(c, m, pcs) && |Leaving(c.keep, pcs)| == |pcs|
  {
  }

  lemma FindsBegin(c: Round, finds: seq<Find>)
    requires MidRound(c) && |finds| == |c.batch| == |c.keep| && (forall t :: 0 <= t < |c.batch| ==> c.batch[t] < |c.E|)
    requires forall t :: 0 <= t < |c.batch| ==> finds[t] == Start(c.E[c.batch[t]].0)
    ensures AllCommitFind(c.E, c.f, c.batch, Entering(c.keep), finds)
  {
    Sizes(c);
    hide MidRound, Valid, Numbering;
  }

  method CommitPhase(ghost c: Round, E: Edges, ids: seq<nat>, P: array<int>, R: array<nat>, inMST: array<bool>,
      batch: seq<nat>, keep: seq<Status>)
    returns (keep': seq<Status>, ghost f: Forest)
    requires MidRound(c) && P as object != R && Represents(P[..], c.f)
    requires c.E == E && c.ids == ids && c.batch == batch && c.keep == keep
    requires c.R == R[..] && c.inMST == inMST[..]
    modifies P, R, inMST
    ensures Represents(P[..], f) && |keep'| == |batch| && (batch != [] ==> keep'[0] == Done)
    ensures BetweenRounds(E, c.n, ids, f, R[..], inMST[..], c.done + FinishedBy(batch, keep'))
  {
    hide *;
    CommitPhaseBegins(c);
    f := c.f;
    var pcs := Entering(keep);
    BatchEnds(c);
    var finds := seq(|batch|, t requires 0 <= t < |batch| => Start(E[batch[t]].0));
    FindsBegin(c, finds);
    while exists t :: 0 <= t < |pcs| && !pcs[t].Ended?
      invariant |pcs| == |finds| == |keep| == |batch| && Represents(P[..], f)
      invariant CommitInv(c, Memory(f, R[..], inMST[..]), pcs) && AllCommitFind(E, f, batch, pcs, finds)
      invariant forall t :: 0 <= t < |pcs| && keep[t] == Done ==> pcs[t] == Ended(false)
      decreases Work(CommitWork, pcs), Work(FindWork(f), finds)
    {
      var t: nat :| t < |pcs| && !pcs[t].Ended?;
      pcs, finds, f := CommitOne(c, E, ids, P, R, inMST, batch, pcs, finds, t, f);
    }
    EndingIs(c, Memory(f, R[..], inMST[..]), pcs);
    keep' := Leaving(keep, pcs);
    CommitPhaseEnds(c, Memory(f, R[..], inMST[..]), pcs);
  }

  lemma LinkInRange(E: Edges, ids: seq<nat>, i: nat, m: Memory, pc: Pc)
    requires CanCommit(E, ids, i, m, pc) && pc.Linking?
    ensures Valid(m.f) && |m.f.parent| == |m.f.root| && pc.from < |m.f.root| && pc.to < |m.f.root|
  {
  }

  lemma CommitWorkFalls(E: Edges, ids: seq<nat>, i: nat, m: Memory, pc: Pc)
    requires CanCommit(E, ids, i, m, pc) && !pc.Ended?
    ensures CommitWork(CommitStep(E, ids, i, m, pc).1) < CommitWork(pc)
    ensures pc.Linking? ==> CommitStep(E, ids, i, m, pc).1 == Mark
  {
  }

  /** The edges marked are those of the sequential loop, in whatever order the threads' accesses take place. */
  method MinSpanningForest(E: Edges, n: nat, ids: seq<nat>) returns (inMST: array<bool>)
    requires Input(E, n, ids)
    ensures fresh(inMST) && inMST.Length == |E|
    ensures forall k :: 0 <= k < |E| ==> (inMST[ids[k]] <==> k in Greedy(E, |E|))
  {
    hide Greedy, Matches, AfterReserve, SmallestUnfinished;
    inMST := new bool[|E|](_ => false);
    var P := new int[n](_ => -1);
    ghost var f := Singletons(n);
    SingletonsRepresent(n);
    assert P[..] == seq(n, _ => -1);
    var R := new nat[n](_ => MAX_IDX);
    var driver := new Driver(0, |E|, 1);
    assert driver.finished * Greedy(E, |E|) == {};
    SingletonsMatch(E, n);
    while driver.numberDone < |E|
      invariant driver.Valid() && driver.start == 0 && driver.end == |E|
      invariant fresh(driver) && fresh(P) && fresh(R) && fresh(inMST) && P as object != R && R.Length == n
      invariant Represents(P[..], f) && BetweenRounds(E, n, ids, f, R[..], inMST[..], driver.finished)
      decreases |E| - driver.numberDone
    {
      driver.NextBatchIsSmallest();
      var batch := driver.NextBatch();
      BatchInRange(E, n, batch, driver.finished);
      ghost var R0 := R[..];
      MatchesSize(E, n, f, driver.finished * Greedy(E, |E|));
      var keep := ReservePhase(E, n, P, R, batch, f);
      ghost var c := Round(E, n, ids, driver.finished, batch, f, R0, R[..], inMST[..], keep);
      keep, f := CommitPhase(c, E, ids, P, R, inMST, batch, keep);
      driver.EndRound(keep);
    }
    driver.AllFinished();
    assert driver.finished * Greedy(E, |E|) == Greedy(E, |E|);
  }

  lemma MatchesSize(E: Edges, n: nat, f: Forest, T: set<nat>)
    requires Matches(E, n, f, T)
    ensures |f.parent| == |f.root| == n
  {
  }

  lemma BatchInRange(E: Edges, n: nat, batch: seq<nat>, done: set<nat>)
    requires EdgesOn(E, n) && SmallestUnfinished(batch, 0, |E|, done)
    ensures BatchOf(E, n, batch)
  {
    assert forall t :: 0 <= t < |batch| ==> batch[t] in batch;
  }

  /** The marked edges are a spanning forest, and no spanning forest of the sorted edges is lighter. */
  lemma SequentialIsMinimum(E: Edges, w: seq<int>, S: set<nat>)
    requires |w| == |E| && forall i, j :: 0 <= i < j < |E| ==> w[i] <= w[j]
    ensures Spans(E, Greedy(E, |E|), |E|)
    ensures Spans(E, S, |E|) && (forall i :: i in S ==> i < |E|) ==> Weight(w, Greedy(E, |E|), |E|) <= Weight(w, S, |E|)
  {
    GreedySpans(E, |E|);
    if Spans(E, S, |E|) && forall i :: i in S ==> i < |E| {
      assert UpTo(S, 0) == {};
      GreedyIsLightest(E, w, S, 0);
    }
  }

  // ---------- from the input to the indices returned ----------

  datatype Tagged = Tagged(w: int, id: nat, u: nat, v: nat)

  predicate NotAfter(a: Tagged, b: Tagged) {
    a.w < b.w || (a.w == b.w && a.id <= b.id)
  }

  /** E, w and ids list the input edges by weight, equal weights in input order. */
  ghost predicate InSortedOrder(input: seq<(nat, nat, int)>, E: Edges, w: seq<int>, ids: seq<nat>) {
    && |E| == |w| == |input| && Numbering(ids, |input|)
    && (forall k :: 0 <= k < |E| ==> (E[k].0, E[k].1, w[k]) == input[ids[k]])
    && forall j, k :: 0 <= j < k < |E| ==> w[j] < w[k] || (w[j] == w[k] && ids[j] < ids[k])
  }

  method SortEdges(input: seq<(nat, nat, int)>) returns (E: Edges, w: seq<int>, ids: seq<nat>)
    ensures InSortedOrder(input, E, w, ids)
  {
    var tagged := seq(|input|, i requires 0 <= i < |input| => Tagged(input[i].2, i, input[i].0, input[i].1));
    var sorted := Sort(tagged, NotAfter);
    SameMembers(sorted, tagged);
    forall k | 0 <= k < |sorted| ensures sorted[k].id < |input| && sorted[k] == tagged[sorted[k].id] {
      assert sorted[k] in tagged;
    }
    assert forall i, j :: 0 <= i < j < |tagged| ==> tagged[i].id != tagged[j].id;
    StaysDistinct(tagged, sorted);
    E := seq(|sorted|, k requires 0 <= k < |sorted| => (sorted[k].u, sorted[k].v));
    w := seq(|sorted|, k requires 0 <= k < |sorted| => sorted[k].w);
    ids := seq(|sorted|, k requires 0 <= k < |sorted| => sorted[k].id);
  }

  /** The indices of the forest edges in the input, in order. */
  method KruskalForest(input: seq<(nat, nat, int)>, n: nat)
    returns (indices: seq<nat>, ghost E: Edges, ghost w: seq<int>, ghost ids: seq<nat>)
    requires |input| <= MAX_IDX && forall i :: 0 <= i < |input| ==> input[i].0 < n && input[i].1 < n
    ensures InSortedOrder(input, E, w, ids)
    ensures Increasing(indices)
    ensures forall k :: 0 <= k < |E| ==> (ids[k] in indices <==> k in Greedy(E, |E|))
  {
    var order: Edges, weights, numbers := SortEdges(input);
    E, w, ids := order, weights, numbers;
    assert EdgesOn(E, n) by {
      forall k | 0 <= k < |E| ensures E[k].0 < n && E[k].1 < n {
        assert (E[k].0, E[k].1, w[k]) == input[ids[k]];
      }
    }
    var inMST := MinSpanningForest(order, n, numbers);
    indices := [];
    for i := 0 to inMST.Length
      invariant Increasing(indices)
      invariant forall x :: x in indices <==> 0 <= x < i && inMST[x]
    {
      if inMST[i] {
        assert forall k :: 0 <= k < |indices| ==> indices[k] in indices;
        indices := indices + [i];
      }
    }
  }
}
