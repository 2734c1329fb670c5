/** Maximal independent set by three-outcome speculation.
    Whatever the schedule, the set returned is the lexicographically first maximal independent set. */
module IndependentSet {
  import opened Graphs
  import opened Schedule
  import opened SpeculativeFor

  // ---------- the sequential greedy set ----------

  /** The sequential loop takes u exactly if it has taken no earlier neighbour. */
  ghost predicate Greedy(G: Graph, u: nat)
    requires Closed(G) && u < |G|
  {
    forall k :: 0 <= k < |G[u]| && G[u][k] < u ==> !Greedy(G, G[u][k])
  }

  ghost predicate Independent(G: Graph, s: seq<bool>)
    requires Closed(G) && |s| == |G|
  {
    forall u, k :: 0 <= u < |G| && 0 <= k < |G[u]| && G[u][k] != u ==> !(s[u] && s[G[u][k]])
  }

  /** The greedy set is independent, and every vertex outside it has a neighbour inside. */
  lemma GreedyIsMaximalIndependent(G: Graph, s: seq<bool>)
    requires Closed(G) && Symmetric(G) && |s| == |G| && forall u :: 0 <= u < |G| ==> s[u] == Greedy(G, u)
    ensures Independent(G, s)
    ensures forall u :: 0 <= u < |G| && !s[u] ==> exists k :: 0 <= k < |G[u]| && s[G[u][k]]
  {
  }

  /** First in lexicographic order: an independent set that agrees with the greedy one below u has
      u only if the greedy one does. */
  lemma GreedyIsLexicographicallyFirst(G: Graph, s: seq<bool>, u: nat)
    requires Closed(G) && |s| == |G| && Independent(G, s) && u < |G|
    requires forall v :: 0 <= v < u ==> s[v] == Greedy(G, v)
    ensures s[u] ==> Greedy(G, u)
  {
  }

  // ---------- the phases ----------

  ghost predicate BetweenRounds(G: Graph, inSet: seq<bool>, decided: seq<bool>, done: set<nat>)
    requires Closed(G)
  {
    && |inSet| == |decided| == |G|
    && forall u :: 0 <= u < |G| ==> decided[u] == (u in done) && inSet[u] == (u in done && Greedy(G, u))
  }

  /** Where a thread stands in check_if_ready: about to read decided, then in_set, of its next
      neighbour; about to join the set; or answered. */
  datatype Pc = AskDecided(k: nat) | AskInSet(k: nat) | Join | Answered(status: Status)

  function ReserveStep(G: Graph, decided: seq<bool>, u: nat, inSet: seq<bool>, pc: Pc): (seq<bool>, Pc)
    requires Closed(G) && |inSet| == |decided| == |G| && u < |G|
    requires pc.AskInSet? ==> pc.k < |G[u]|
  {
    match pc
    case AskDecided(k) =>
      if k >= |G[u]| then (inSet, Join)
      else if G[u][k] >= u then (inSet, AskDecided(k + 1))
      else if decided[G[u][k]] then (inSet, AskInSet(k))
      else (inSet, Answered(TryAgain))
    case AskInSet(k) => (inSet, if inSet[G[u][k]] then Answered(TryCommit) else AskDecided(k + 1))
    case Join => (inSet[u := true], Answered(TryCommit))
    case Answered(_) => (inSet, pc)
  }

  function ReserveWork(degree: nat, pc: Pc): nat {
    match pc
    case AskDecided(k) => if k <= degree then 2 * (degree - k) + 2 else 2
    case AskInSet(k) => if k < degree then 2 * (degree - k) + 1 else 2
    case Join => 1
    case Answered(_) => 0
  }

  /** No neighbour among the first k that precedes u is in the greedy set, and all are decided. */
  ghost predicate ClearUpTo(G: Graph, done: set<nat>, u: nat, k: nat)
    requires Closed(G) && u < |G| && k <= |G[u]|
  {
    forall j :: 0 <= j < k && G[u][j] < u ==> G[u][j] in done && !Greedy(G, G[u][j])
  }

  /** What thread u knows, and what it has written. */
  ghost predicate ThreadInv(G: Graph, done: set<nat>, u: nat, inSet: seq<bool>, pc: Pc)
    requires Closed(G) && |inSet| == |G| && u < |G|
  {
    match pc
    case AskDecided(k) => !inSet[u] && k <= |G[u]| && ClearUpTo(G, done, u, k)
    case AskInSet(k) => !inSet[u] && k < |G[u]| && ClearUpTo(G, done, u, k) && G[u][k] < u && G[u][k] in done
    case Join => !inSet[u] && ClearUpTo(G, done, u, |G[u]|)
    case Answered(TryCommit) => inSet[u] == Greedy(G, u)
    case Answered(TryAgain) => !inSet[u] && exists j :: 0 <= j < |G[u]| && G[u][j] < u && G[u][j] !in done
    case Answered(Done) => false
  }

  ghost predicate BatchOf(G: Graph, batch: seq<nat>, done: set<nat>) {
    Increasing(batch) && forall t :: 0 <= t < |batch| ==> batch[t] < |G| && batch[t] !in done
  }

  ghost predicate ReserveInv(G: Graph, done: set<nat>, batch: seq<nat>, inSet: seq<bool>, pcs: seq<Pc>)
    requires Closed(G) && BatchOf(G, batch, done)
  {
    && |inSet| == |G| && |pcs| == |batch|
    && (forall u :: 0 <= u < |G| && u in done ==> inSet[u] == Greedy(G, u))
    && (forall u :: 0 <= u < |G| && u !in done && inSet[u] ==> u in batch)
    && forall t :: 0 <= t < |batch| ==> ThreadInv(G, done, batch[t], inSet, pcs[t])
  }

  lemma ReserveStepKeepsInv(G: Graph, decided: seq<bool>, done: set<nat>, batch: seq<nat>, inSet: seq<bool>,
      pcs: seq<Pc>, t: nat)
    requires Closed(G) && BatchOf(G, batch, done) && ReserveInv(G, done, batch, inSet, pcs) && t < |batch|
    requires |decided| == |G| && forall u :: 0 <= u < |G| ==> decided[u] == (u in done)
    ensures
      var (inSet', pc') := ReserveStep(G, decided, batch[t], inSet, pcs[t]);
      && ReserveInv(G, done, batch, inSet', pcs[t := pc'])
      && (!pcs[t].Answered? ==> ReserveWork(|G[batch[t]]|, pc') < ReserveWork(|G[batch[t]]|, pcs[t]))
  {
    var (inSet', pc') := ReserveStep(G, decided, batch[t], inSet, pcs[t]);
    assert ThreadInv(G, done, batch[t], inSet, pcs[t]);
    assert batch[t] in batch;
    assert ThreadInv(G, done, batch[t], inSet', pc');
    forall u | 0 <= u < |batch| && u != t ensures ThreadInv(G, done, batch[u], inSet', pcs[u]) {
      assert ThreadInv(G, done, batch[u], inSet, pcs[u]);
    }
  }

  /** The remaining work of each thread; its bound depends on the thread's vertex. */
  ghost function WorkList(G: Graph, batch: seq<nat>, pcs: seq<Pc>): seq<nat>
    requires |pcs| == |batch| && forall t :: 0 <= t < |batch| ==> batch[t] < |G|
  {
    seq(|pcs|, t requires 0 <= t < |pcs| => ReserveWork(|G[batch[t]]|, pcs[t]))
  }

  method ReservePhase(G: Graph, inSet: array<bool>, decided: array<bool>, batch: seq<nat>, ghost done: set<nat>)
    returns (keep: seq<Status>)
    requires Closed(G) && BetweenRounds(G, inSet[..], decided[..], done)
    requires BatchOf(G, batch, done) && inSet != decided
    modifies inSet
    ensures |keep| == |batch|
    ensures forall u :: 0 <= u < |G| && u in done ==> inSet[u] == Greedy(G, u)
    ensures forall u :: 0 <= u < |G| && u !in done && u !in batch ==> !inSet[u]
    ensures forall t :: 0 <= t < |batch| ==> ThreadInv(G, done, batch[t], inSet[..], Answered(keep[t]))
  {
    var pcs := seq(|batch|, _ => AskDecided(0));
    while exists t :: 0 <= t < |pcs| && !pcs[t].Answered?
      invariant ReserveInv(G, done, batch, inSet[..], pcs)
      decreases Work(Itself, WorkList(G, batch, pcs))
    {
      hide Greedy;
      var t: nat :| t < |pcs| && !pcs[t].Answered?;
      ReserveStepKeepsInv(G, decided[..], done, batch, inSet[..], pcs, t);
      var pc := ReserveAccess(G, inSet, decided, batch[t], pcs[t]);
      WorkAfterStep(Itself, WorkList(G, batch, pcs), t, ReserveWork(|G[batch[t]]|, pc));
      assert WorkList(G, batch, pcs[t := pc]) == WorkList(G, batch, pcs)[t := ReserveWork(|G[batch[t]]|, pc)];
      pcs := pcs[t := pc];
    }
    keep := seq(|pcs|, t requires 0 <= t < |pcs| => pcs[t].status);
    forall t | 0 <= t < |batch| ensures ThreadInv(G, done, batch[t], inSet[..], Answered(keep[t])) {
      assert pcs[t] == Answered(keep[t]);
    }
  }

  method ReserveAccess(G: Graph, inSet: array<bool>, decided: array<bool>, u: nat, pc: Pc) returns (next: Pc)
    requires Closed(G) && inSet.Length == decided.Length == |G| && u < |G|
    requires pc.AskInSet? ==> pc.k < |G[u]|
    modifies inSet
    ensures (inSet[..], next) == ReserveStep(G, old(decided[..]), u, old(inSet[..]), pc)
  {
    match pc {
      case AskDecided(k) =>
        if k >= |G[u]| {
          next := Join;
        } else if G[u][k] >= u {
          next := AskDecided(k + 1);
        } else {
          next := if decided[G[u][k]] then AskInSet(k) else Answered(TryAgain);
        }
      case AskInSet(k) => next := if inSet[G[u][k]] then Answered(TryCommit) else AskDecided(k + 1);
      case Join => inSet[u] := true; next := Answered(TryCommit);
      case Answered(_) => next := pc;
    }
  }

  /** Every commit succeeds; the commits of a round may run in any order. */
  method CommitPhase(decided: array<bool>, batch: seq<nat>, keep: seq<Status>) returns (keep': seq<Status>)
    requires |keep| == |batch| && forall t :: 0 <= t < |batch| ==> batch[t] < decided.Length
    modifies decided
    ensures |keep'| == |keep|
      && forall t :: 0 <= t < |keep| ==> keep'[t] == if keep[t] == TryCommit then Done else keep[t]
    ensures forall u :: 0 <= u < decided.Length ==>
      decided[u] == (old(decided[u]) || exists t :: 0 <= t < |batch| && keep[t] == TryCommit && batch[t] == u)
  {
    keep' := keep;
    while exists t :: 0 <= t < |keep'| && keep'[t] == TryCommit
      invariant |keep'| == |keep|
      invariant forall t :: 0 <= t < |keep| && keep[t] != TryCommit ==> keep'[t] == keep[t]
      invariant forall t :: 0 <= t < |keep| && keep[t] == TryCommit ==> keep'[t] != TryAgain
      invariant forall u :: 0 <= u < decided.Length ==>
        decided[u] == (old(decided[u])
          || exists t :: 0 <= t < |batch| && keep[t] == TryCommit && keep'[t] == Done && batch[t] == u)
      decreases Work(Pending, keep')
    {
      var t: nat :| t < |keep'| && keep'[t] == TryCommit;
      WorkAfterStep(Pending, keep', t, Done);
      ghost var before := keep';
      decided[batch[t]], keep' := true, keep'[t := Done];
      forall u | 0 <= u < decided.Length
        ensures decided[u] == (old(decided[u])
          || exists t :: 0 <= t < |batch| && keep[t] == TryCommit && keep'[t] == Done && batch[t] == u)
      {
        if s :| 0 <= s < |batch| && keep[s] == TryCommit && before[s] == Done && batch[s] == u {
          assert keep'[s] == Done;
        }
      }
    }
  }

  ghost function Pending(status: Status): nat { if status == TryCommit then 1 else 0 }

  method OneRound(G: Graph, inSet: array<bool>, decided: array<bool>, batch: seq<nat>, ghost done: set<nat>)
    returns (keep: seq<Status>)
    requires Closed(G) && BetweenRounds(G, inSet[..], decided[..], done) && inSet != decided
    requires SmallestUnfinished(batch, 0, |G|, done) && batch != []
    modifies inSet, decided
    ensures |keep| == |batch| && keep[0] == Done
    ensures BetweenRounds(G, inSet[..], decided[..], done + FinishedBy(batch, keep))
  {
    assert forall t :: 0 <= t < |batch| ==> batch[t] in batch;
    var reserved := ReservePhase(G, inSet, decided, batch, done);
    keep := CommitPhase(decided, batch, reserved);
    RoundEnds(G, done, batch, reserved, keep, inSet[..], decided[..]);
  }

  /** The set returned is the greedy one: maximal, independent, lexicographically first. */
  method MaximalIndependentSet(G: Graph) returns (inSet: array<bool>)
    requires Closed(G)
    ensures fresh(inSet) && inSet.Length == |G|
    ensures forall u :: 0 <= u < |G| ==> inSet[u] == Greedy(G, u)
    ensures Symmetric(G) ==> Independent(G, inSet[..])
  {
    inSet := new bool[|G|](_ => false);
    var decided := new bool[|G|](_ => false);
    var driver := new Driver(0, |G|, 1);
    while driver.numberDone < |G|
      invariant driver.Valid() && driver.start == 0 && driver.end == |G| && fresh(driver)
      invariant BetweenRounds(G, inSet[..], decided[..], driver.finished)
      decreases |G| - driver.numberDone
    {
      hide *;
      driver.NextBatchIsSmallest();
      var keep := OneRound(G, inSet, decided, driver.NextBatch(), driver.finished);
      driver.EndRound(keep);
    }
    driver.AllFinished();
    if Symmetric(G) {
      GreedyIsMaximalIndependent(G, inSet[..]);
    }
  }

  /** A round ends between rounds, and its lowest vertex, all of whose earlier neighbours were
      decided, is now decided. */
  lemma RoundEnds(G: Graph, done: set<nat>, batch: seq<nat>, reserved: seq<Status>, keep: seq<Status>,
      inSet: seq<bool>, decided: seq<bool>)
    requires Closed(G) && |inSet| == |decided| == |G| && |reserved| == |keep| == |batch|
    requires BatchOf(G, batch, done) && SmallestUnfinished(batch, 0, |G|, done) && batch != []
    requires forall u :: 0 <= u < |G| && u in done ==> inSet[u] == Greedy(G, u)
    requires forall u :: 0 <= u < |G| && u !in done && u !in batch ==> !inSet[u]
    requires forall t :: 0 <= t < |batch| ==> ThreadInv(G, done, batch[t], inSet, Answered(reserved[t]))
    requires forall t :: 0 <= t < |keep| ==> keep[t] == if reserved[t] == TryCommit then Done else reserved[t]
    requires forall u :: 0 <= u < |G| ==>
      decided[u] == (u in done || exists t :: 0 <= t < |batch| && reserved[t] == TryCommit && batch[t] == u)
    ensures BetweenRounds(G, inSet, decided, done + FinishedBy(batch, keep))
    ensures keep[0] == Done
  {
  }
}
