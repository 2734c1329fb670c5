/** The round bookkeeping of speculative_for.
    An ordered loop start..end runs in rounds.  Each round takes a batch of iterations, lets them
    reserve and then commit, and carries the unfinished ones into the next batch.  What reserve and
    commit do belongs to the loop at hand; this module is about which iterations a batch holds. */
module SpeculativeFor {
  import opened Powers

  /** The three answers of reserve; a successful commit turns TryCommit into Done, a failed one
      into TryAgain. */
  datatype Status = Done | TryCommit | TryAgain

  /** The value of a free reservation of long iterations. */
  const MAX_IDX: nat := 0x7FFF_FFFF_FFFF_FFFF

  /** Reserving cell x for iteration i: the least iteration wins. */
  function WriteMin(R: seq<nat>, x: nat, i: nat): seq<nat>
    requires x < |R|
  {
    if i < R[x] then R[x := i] else R
  }

  method WriteMinAt(R: array<nat>, x: nat, i: nat)
    requires x < R.Length
    modifies R
    ensures R[..] == WriteMin(old(R[..]), x, i)
  {
    if i < R[x] {
      R[x] := i;
    }
  }

  ghost predicate Increasing(q: seq<nat>) {
    forall i, j :: 0 <= i < j < |q| ==> q[i] < q[j]
  }

  /** The entries of a batch that are not done, in order. */
  function Pack(batch: seq<nat>, keep: seq<Status>): seq<nat>
    requires |batch| == |keep|
  {
    if batch == [] then []
    else
      var last := |batch| - 1;
      Pack(batch[..last], keep[..last]) + if keep[last] != Done then [batch[last]] else []
  }

  lemma {:induction false} PackMembers(batch: seq<nat>, keep: seq<Status>, x: nat)
    requires |batch| == |keep|
    ensures x in Pack(batch, keep) <==> exists i :: 0 <= i < |batch| && batch[i] == x && keep[i] != Done
  {
    if batch != [] {
      var last := |batch| - 1;
      PackMembers(batch[..last], keep[..last], x);
      assert forall i :: 0 <= i < last ==> batch[..last][i] == batch[i] && keep[..last][i] == keep[i];
    }
  }

  lemma {:induction false} PackIncreasing(batch: seq<nat>, keep: seq<Status>)
    requires |batch| == |keep| && Increasing(batch)
    ensures Increasing(Pack(batch, keep))
  {
    if batch != [] {
      var last := |batch| - 1;
      var front := Pack(batch[..last], keep[..last]);
      PackIncreasing(batch[..last], keep[..last]);
      forall k | 0 <= k < |front| ensures front[k] < batch[last] {
        PackMembers(batch[..last], keep[..last], front[k]);
        assert front[k] in front;
        var i :| 0 <= i < last && batch[..last][i] == front[k];
        assert batch[i] < batch[last];
      }
    }
  }

  lemma {:induction false} PackLength(batch: seq<nat>, keep: seq<Status>)
    requires |batch| == |keep|
    ensures |Pack(batch, keep)| <= |batch|
    ensures forall i :: 0 <= i < |keep| && keep[i] == Done ==> |Pack(batch, keep)| < |batch|
  {
    if batch != [] {
      var last := |batch| - 1;
      PackLength(batch[..last], keep[..last]);
      forall i | 0 <= i < |keep| && keep[i] == Done ensures |Pack(batch, keep)| < |batch| {
        assert i < last ==> keep[..last][i] == Done;
      }
    }
  }

  /** The iterations finished by a round. */
  ghost function FinishedBy(batch: seq<nat>, keep: seq<Status>): set<nat>
    requires |batch| == |keep|
  {
    set i | 0 <= i < |batch| && keep[i] == Done :: batch[i]
  }

  /** Where the loop stands: the iterations before numberDone + |carry| have been tried; those in
      `carry` are the unfinished ones among them. */
  ghost predicate Frontier(start: nat, end: nat, numberDone: nat, carry: seq<nat>, finished: set<nat>) {
    && start <= numberDone
    && (numberDone + |carry| <= end || (numberDone == start && carry == []))
    && Increasing(carry)
    && (forall x :: x in carry ==> start <= x < numberDone + |carry|)
    && forall x :: x in finished <==> start <= x < numberDone + |carry| && x !in carry
  }

  /** The batch of the next round. */
  function Batch(numberDone: nat, carry: seq<nat>, size: nat): (batch: seq<nat>)
    ensures |batch| == size
  {
    seq(size, i requires 0 <= i => if i < |carry| then carry[i] else numberDone + i)
  }

  /** A batch is the increasing list of the smallest unfinished iterations. */
  ghost predicate SmallestUnfinished(batch: seq<nat>, start: nat, end: nat, finished: set<nat>) {
    && Increasing(batch)
    && (forall x :: x in batch ==> start <= x < end && x !in finished)
    && forall x, i :: start <= x < end && x !in finished && x !in batch && 0 <= i < |batch| ==> batch[i] < x
  }

  /** Every iteration tried so far or in the batch is finished or in the batch, not both. */
  lemma BatchCovers(start: nat, end: nat, numberDone: nat, carry: seq<nat>, finished: set<nat>, size: nat)
    requires Frontier(start, end, numberDone, carry, finished)
    requires |carry| <= size && numberDone + size <= end
    ensures
      var batch := Batch(numberDone, carry, size);
      && Increasing(batch)
      && forall x :: start <= x < numberDone + size <==> x in finished || x in batch
    ensures forall x :: x in Batch(numberDone, carry, size) ==> x !in finished
  {
    var batch := Batch(numberDone, carry, size);
    assert forall k :: 0 <= k < |carry| ==> carry[k] in carry;
    assert forall k :: 0 <= k < |carry| ==> batch[k] == carry[k];
    assert forall k :: |carry| <= k < size ==> batch[k] == numberDone + k;
    forall x | numberDone + |carry| <= x < numberDone + size ensures x in batch {
      assert batch[x - numberDone] == x;
    }
    forall x | x in carry ensures x in batch {
      var k :| 0 <= k < |carry| && carry[k] == x;
      assert batch[k] == x;
    }
    forall x | x in batch ensures start <= x < numberDone + size && x !in finished {
      var i :| 0 <= i < size && batch[i] == x;
    }
  }

  lemma BatchIsSmallestUnfinished(start: nat, end: nat, numberDone: nat, carry: seq<nat>, finished: set<nat>, size: nat)
    requires Frontier(start, end, numberDone, carry, finished)
    requires |carry| <= size && numberDone + size <= end
    ensures SmallestUnfinished(Batch(numberDone, carry, size), start, end, finished)
  {
    var batch := Batch(numberDone, carry, size);
    BatchCovers(start, end, numberDone, carry, finished, size);
    forall i | 0 <= i < |batch| ensures batch[i] < numberDone + size {
      assert batch[i] in batch;
    }
  }

  /** An increasing batch lists each of its iterations once, so what a round does not finish is
      exactly what it packs. */
  lemma FinishedOrPacked(batch: seq<nat>, keep: seq<Status>, x: nat)
    requires |batch| == |keep| && Increasing(batch)
    ensures x in batch <==> x in FinishedBy(batch, keep) || x in Pack(batch, keep)
    ensures x in FinishedBy(batch, keep) ==> x !in Pack(batch, keep)
  {
  }

  /** Closing a round: what it finished is finished for the first time, and the loop stands again
      at a frontier. */
  lemma RoundAdvances(start: nat, end: nat, numberDone: nat, carry: seq<nat>, finished: set<nat>, size: nat,
      keep: seq<Status>)
    requires Frontier(start, end, numberDone, carry, finished)
    requires |carry| <= size && numberDone + size <= end && |keep| == size
    ensures
      var batch := Batch(numberDone, carry, size);
      var carry' := Pack(batch, keep);
      && |carry'| <= size
      && Frontier(start, end, numberDone + size - |carry'|, carry', finished + FinishedBy(batch, keep))
      && finished !! FinishedBy(batch, keep)
      && (size > 0 && keep[0] == Done ==> |carry'| < size)
  {
    var batch := Batch(numberDone, carry, size);
    BatchCovers(start, end, numberDone, carry, finished, size);
    PackIncreasing(batch, keep);
    PackLength(batch, keep);
    forall x ensures x in batch <==> x in FinishedBy(batch, keep) || x in Pack(batch, keep)
      ensures x in FinishedBy(batch, keep) ==> x !in Pack(batch, keep)
    {
      if x >= 0 { FinishedOrPacked(batch, keep, x); }
    }
  }

  // ---------- the bookkeeping of both drivers ----------

  /** How the round size changes: it doubles when few iterations are carried, or moves between
      maxRoundSize/64 + 1 and maxRoundSize. */
  datatype Rule = Doubling | Adapting(maxRoundSize: nat)

  datatype State = State(numberDone: nat, carry: seq<nat>, roundSize: nat)

  function Max(a: nat, b: nat): nat {
    if a < b then b else a
  }

  /** The round size after a round of `size` iterations that carries `carried` of them. */
  function NextSize(rule: Rule, current: nat, size: nat, carried: nat): nat {
    match rule
    case Doubling => if 5 * carried < size then 2 * current else current
    case Adapting(most) =>
      if 5 * carried > size then Max(current / 2, Max(most / 64 + 1, carried))
      else if 10 * carried < size then (if 2 * current <= most then 2 * current else most)
      else current
  }

  /** The batch of the round that starts in a state. */
  function BatchOf(st: State, end: nat): seq<nat> {
    Batch(st.numberDone, st.carry,
      if st.numberDone + st.roundSize <= end then st.roundSize
      else if st.numberDone <= end then end - st.numberDone else 0)
  }

  /** The state after a round with one status for each position of its batch. */
  function NextState(rule: Rule, st: State, end: nat, keep: seq<Status>): State
    requires |keep| == |BatchOf(st, end)|
  {
    var batch := BatchOf(st, end);
    var carry := Pack(batch, keep);
    PackLength(batch, keep);
    State(st.numberDone + |batch| - |carry|, carry, NextSize(rule, st.roundSize, |batch|, |carry|))
  }

  /** The state stands at a frontier, and its batch has room for all that is carried. */
  ghost predicate Standing(rule: Rule, st: State, start: nat, end: nat, finished: set<nat>) {
    && Frontier(start, end, st.numberDone, st.carry, finished) && |st.carry| <= st.roundSize
    && (rule.Adapting? ==> st.roundSize <= rule.maxRoundSize)
  }

  /** The next size has room for what is carried, and is positive if this one is and it can be. */
  lemma SizeHasRoom(rule: Rule, current: nat, size: nat, carried: nat)
    requires carried <= size <= current && (rule.Adapting? ==> current <= rule.maxRoundSize)
    ensures
      var next := NextSize(rule, current, size, carried);
      && carried <= next && (rule.Adapting? ==> next <= rule.maxRoundSize)
      && (current >= 1 && (rule.Adapting? ==> rule.maxRoundSize >= 4) ==> next >= 1)
      && (current == 0 ==> next == 0)
  {
  }

  /** A round from a standing state: its batch, what it finishes, and the state it leaves. */
  lemma RoundOf(rule: Rule, st: State, start: nat, end: nat, finished: set<nat>, keep: seq<Status>)
    requires Standing(rule, st, start, end, finished) && st.numberDone < end && |keep| == |BatchOf(st, end)|
    ensures
      var batch := BatchOf(st, end);
      var st' := NextState(rule, st, end, keep);
      && SmallestUnfinished(batch, start, end, finished) && finished !! FinishedBy(batch, keep)
      && Standing(rule, st', start, end, finished + FinishedBy(batch, keep))
      && st.numberDone <= st'.numberDone <= end && (st.roundSize > 0 ==> batch != [])
      && (batch != [] && keep[0] == Done ==> st.numberDone < st'.numberDone)
  {
    var batch := BatchOf(st, end);
    BatchIsSmallestUnfinished(start, end, st.numberDone, st.carry, finished, |batch|);
    RoundAdvances(start, end, st.numberDone, st.carry, finished, |batch|, keep);
    SizeHasRoom(rule, st.roundSize, |batch|, |Pack(batch, keep)|);
    hide Pack, Batch, FinishedBy, SmallestUnfinished, NextSize;
  }

  /** When the loop ends, every iteration has finished. */
  lemma AllFinish(rule: Rule, st: State, start: nat, end: nat, finished: set<nat>)
    requires Standing(rule, st, start, end, finished) && st.numberDone >= end
    ensures forall x :: x in finished <==> start <= x < end
  {
  }

  /** The loop state of speculative_for with three-valued reserve. */
  class Driver {
    const start: nat
    const end: nat
    var numberDone: nat
    var carryForward: seq<nat>
    var currentRoundSize: nat
    ghost var finished: set<nat>

    ghost predicate Valid()
      reads this
    {
      Standing(Doubling, Now(), start, end, finished) && 1 <= currentRoundSize
    }

    function Now(): State
      reads this
    {
      State(numberDone, carryForward, currentRoundSize)
    }

    constructor (start: nat, end: nat, startSize: int)
      ensures Valid() && finished == {} && this.start == start && this.end == end
      ensures Now() == State(start, [], if startSize < 1 then 1 else startSize)
    {
      this.start, this.end := start, end;
      numberDone, carryForward := start, [];
      currentRoundSize := if startSize < 1 then 1 else startSize;
      finished := {};
    }

    function NextBatch(): seq<nat>
      reads this
    {
      BatchOf(Now(), end)
    }

    /** The batch of a round that runs is nonempty and holds the smallest unfinished iterations. */
    lemma NextBatchIsSmallest()
      requires Valid() && numberDone < end
      ensures NextBatch() != [] && SmallestUnfinished(NextBatch(), start, end, finished)
    {
      BatchIsSmallestUnfinished(start, end, numberDone, carryForward, finished, |NextBatch()|);
    }

    /** Closes a round with one status for each position of its batch. */
    method EndRound(keep: seq<Status>)
      requires Valid() && numberDone < end && |keep| == |NextBatch()|
      modifies this
      ensures Valid() && Now() == NextState(Doubling, old(Now()), end, keep)
      ensures finished == old(finished) + FinishedBy(old(NextBatch()), keep)
      ensures old(finished) !! FinishedBy(old(NextBatch()), keep)
      ensures keep[0] == Done ==> numberDone > old(numberDone)
    {
      RoundOf(Doubling, Now(), start, end, finished, keep);
      var batch := NextBatch();
      var size := |batch|;
      finished := finished + FinishedBy(batch, keep);
      carryForward := Pack(batch, keep);
      PackLength(batch, keep);
      numberDone := numberDone + size - |carryForward|;
      // few iterations carried forward: double the round size
      if 5 * |carryForward| < size {
        currentRoundSize := currentRoundSize * 2;
      }
    }

    /** When the loop ends, every iteration has finished. */
    lemma AllFinished()
      requires Valid() && numberDone >= end
      ensures forall x :: x in finished <==> start <= x < end
    {
      AllFinish(Doubling, Now(), start, end, finished);
    }
  }

  // ---------- whole runs ----------

  /** The answers of a whole round, as a function of the round number and its batch: any program's
      reserve and commit, under any schedule. */
  type Outcome = (nat, seq<nat>) -> seq<Status>

  ghost predicate LowestFinishes(outcome: Outcome) {
    forall round: nat, batch: seq<nat> :: |outcome(round, batch)| == |batch|
      && (batch != [] ==> outcome(round, batch)[0] == Done)
  }

  /** The state of a run after k rounds. */
  ghost function StateAfter(rule: Rule, first: State, end: nat, outcome: Outcome, k: nat): State
    requires LowestFinishes(outcome)
  {
    if k == 0 then first
    else
      var st := StateAfter(rule, first, end, outcome, k - 1);
      NextState(rule, st, end, outcome(k - 1, BatchOf(st, end)))
  }

  /** What each round finished. */
  ghost function Rounds(batches: seq<seq<nat>>, outcome: Outcome): (rounds: seq<set<nat>>)
    requires LowestFinishes(outcome)
    ensures |rounds| == |batches|
  {
    seq(|batches|, k requires 0 <= k < |batches| => FinishedBy(batches[k], outcome(k, batches[k])))
  }

  /** What the first k rounds finished. */
  ghost function FinishedBefore(rounds: seq<set<nat>>, k: nat): set<nat>
    requires k <= |rounds|
  {
    if k == 0 then {} else FinishedBefore(rounds, k - 1) + rounds[k - 1]
  }

  /** The rounds finish disjoint sets of iterations that together are all of them. */
  ghost predicate Partitions(rounds: seq<set<nat>>, start: nat, end: nat) {
    && (forall i, j :: 0 <= i < j < |rounds| ==> rounds[i] !! rounds[j])
    && (forall i, x :: 0 <= i < |rounds| && x in rounds[i] ==> start <= x < end)
    && forall x :: start <= x < end ==> InSome(rounds, x)
  }

  ghost predicate InSome(rounds: seq<set<nat>>, x: nat) {
    exists i :: 0 <= i < |rounds| && x in rounds[i]
  }

  /** Batch k is that of round k of the run: the smallest iterations that earlier rounds have left. */
  ghost predicate IsRound(rule: Rule, first: State, end: nat, outcome: Outcome, batches: seq<seq<nat>>, k: nat)
    requires LowestFinishes(outcome)
  {
    var st := StateAfter(rule, first, end, outcome, k);
    && k < |batches| && batches[k] == BatchOf(st, end) && st.numberDone < end
    && SmallestUnfinished(batches[k], first.numberDone, end, FinishedBefore(Rounds(batches, outcome), k))
  }

  /** The batches are those of the first rounds of the run. */
  ghost predicate RunSoFar(rule: Rule, first: State, end: nat, outcome: Outcome, batches: seq<seq<nat>>)
    requires LowestFinishes(outcome)
  {
    forall k :: 0 <= k < |batches| ==> IsRound(rule, first, end, outcome, batches, k)
  }

  lemma RoundsGrow(batches: seq<seq<nat>>, outcome: Outcome, batch: seq<nat>)
    requires LowestFinishes(outcome)
    ensures |outcome(|batches|, batch)| == |batch|
    ensures Rounds(batches + [batch], outcome) == Rounds(batches, outcome)
      + [FinishedBy(batch, outcome(|batches|, batch))]
  {
    var longer := batches + [batch];
    assert |outcome(|batches|, batch)| == |batch|;
    hide FinishedBy;
    forall k | 0 <= k < |longer|
      ensures Rounds(longer, outcome)[k]
        == (Rounds(batches, outcome) + [FinishedBy(batch, outcome(|batches|, batch))])[k]
    {
      assert longer[k] == if k < |batches| then batches[k] else batch;
    }
  }

  lemma {:induction false} BeforeIsPrefix(rounds: seq<set<nat>>, more: set<nat>, k: nat)
    requires k <= |rounds|
    ensures FinishedBefore(rounds + [more], k) == FinishedBefore(rounds, k)
  {
    if k > 0 {
      BeforeIsPrefix(rounds, more, k - 1);
    }
  }

  /** Each finished iteration is in just one of the rounds. */
  ghost predicate Recorded(rounds: seq<set<nat>>, finished: set<nat>) {
    && finished == FinishedBefore(rounds, |rounds|)
    && (forall i, j :: 0 <= i < j < |rounds| ==> rounds[i] !! rounds[j])
    && (forall i, x :: 0 <= i < |rounds| && x in rounds[i] ==> x in finished)
    && forall x :: x in finished ==> InSome(rounds, x)
  }

  lemma OneRoundMore(rounds: seq<set<nat>>, finished: set<nat>, more: set<nat>)
    requires Recorded(rounds, finished) && finished !! more
    ensures Recorded(rounds + [more], finished + more)
  {
    var longer := rounds + [more];
    BeforeIsPrefix(rounds, more, |rounds|);
    forall x | x in finished + more ensures InSome(longer, x) {
      if x in finished {
        var i :| 0 <= i < |rounds| && x in rounds[i];
        assert x in longer[i];
      } else {
        assert x in longer[|rounds|];
      }
    }
  }

  lemma AllRecorded(rounds: seq<set<nat>>, finished: set<nat>, start: nat, end: nat)
    requires Recorded(rounds, finished) && forall x :: x in finished <==> start <= x < end
    ensures Partitions(rounds, start, end)
  {
    forall i, x | 0 <= i < |rounds| && x in rounds[i] ensures start <= x < end {
      assert x in finished;
    }
  }

  /** A longer list of batches has the same rounds before. */
  lemma RoundStays(rule: Rule, first: State, end: nat, outcome: Outcome, batches: seq<seq<nat>>, batch: seq<nat>,
      k: nat)
    requires LowestFinishes(outcome) && IsRound(rule, first, end, outcome, batches, k)
    ensures IsRound(rule, first, end, outcome, batches + [batch], k)
  {
    RoundsGrow(batches, outcome, batch);
    hide LowestFinishes, FinishedBy, BatchOf, StateAfter, Rounds, FinishedBefore, SmallestUnfinished;
    BeforeIsPrefix(Rounds(batches, outcome), FinishedBy(batch, outcome(|batches|, batch)), k);
  }

  lemma RoundAdded(rule: Rule, first: State, end: nat, outcome: Outcome, batches: seq<seq<nat>>, batch: seq<nat>)
    requires LowestFinishes(outcome)
    requires
      var k := |batches|;
      var st := StateAfter(rule, first, end, outcome, k);
      && batch == BatchOf(st, end) && st.numberDone < end
      && SmallestUnfinished(batch, first.numberDone, end, FinishedBefore(Rounds(batches, outcome), k))
    ensures IsRound(rule, first, end, outcome, batches + [batch], |batches|)
  {
    RoundsGrow(batches, outcome, batch);
    hide LowestFinishes, FinishedBy, BatchOf, StateAfter, Rounds, FinishedBefore, SmallestUnfinished;
    BeforeIsPrefix(Rounds(batches, outcome), FinishedBy(batch, outcome(|batches|, batch)), |batches|);
  }

  lemma RunAdded(rule: Rule, first: State, end: nat, outcome: Outcome, batches: seq<seq<nat>>, batch: seq<nat>)
    requires LowestFinishes(outcome) && RunSoFar(rule, first, end, outcome, batches)
    requires
      var st := StateAfter(rule, first, end, outcome, |batches|);
      && batch == BatchOf(st, end) && st.numberDone < end
      && SmallestUnfinished(batch, first.numberDone, end, FinishedBefore(Rounds(batches, outcome), |batches|))
    ensures RunSoFar(rule, first, end, outcome, batches + [batch])
  {
    hide LowestFinishes, IsRound, StateAfter, BatchOf, SmallestUnfinished, FinishedBefore, Rounds;
    RoundAdded(rule, first, end, outcome, batches, batch);
    forall j | 0 <= j < |batches| ensures IsRound(rule, first, end, outcome, batches + [batch], j) {
      RoundStays(rule, first, end, outcome, batches, batch, j);
    }
  }

  lemma RecordedIs(rounds: seq<set<nat>>, finished: set<nat>)
    requires Recorded(rounds, finished)
    ensures finished == FinishedBefore(rounds, |rounds|)
  {
  }

  /** The run with one batch more. */
  lemma OneBatchMore(rule: Rule, first: State, end: nat, outcome: Outcome, batches: seq<seq<nat>>, finished: set<nat>)
    requires LowestFinishes(outcome) && RunSoFar(rule, first, end, outcome, batches)
      && Recorded(Rounds(batches, outcome), finished)
    requires
      var st := StateAfter(rule, first, end, outcome, |batches|);
      Standing(rule, st, first.numberDone, end, finished) && st.numberDone < end
    ensures
      var k := |batches|;
      var batch := BatchOf(StateAfter(rule, first, end, outcome, k), end);
      && |outcome(k, batch)| == |batch| && RunSoFar(rule, first, end, outcome, batches + [batch])
      && Recorded(Rounds(batches + [batch], outcome), finished + FinishedBy(batch, outcome(k, batch)))
  {
    var k := |batches|;
    var st := StateAfter(rule, first, end, outcome, k);
    var batch := BatchOf(st, end);
    RoundsGrow(batches, outcome, batch);
    hide LowestFinishes, Recorded, Standing, SmallestUnfinished, FinishedBy, BatchOf, NextState, IsRound, Rounds,
      FinishedBefore, StateAfter, RunSoFar;
    RoundOf(rule, st, first.numberDone, end, finished, outcome(k, batch));
    OneRoundMore(Rounds(batches, outcome), finished, FinishedBy(batch, outcome(k, batch)));
    RecordedIs(Rounds(batches, outcome), finished);
    RunAdded(rule, first, end, outcome, batches, batch);
  }

  /** The state after one round more, and that its lowest iteration finished. */
  lemma StateSteps(rule: Rule, first: State, end: nat, outcome: Outcome, k: nat)
    requires LowestFinishes(outcome)
    ensures
      var st := StateAfter(rule, first, end, outcome, k);
      var batch := BatchOf(st, end);
      var keep := outcome(k, batch);
      && |keep| == |batch| && (batch != [] ==> keep[0] == Done)
      && StateAfter(rule, first, end, outcome, k + 1) == NextState(rule, st, end, keep)
  {
    hide NextState, BatchOf;
  }

  /** Between rounds: the batches are those of the run, and the state is the one after them. */
  ghost predicate InRun(rule: Rule, first: State, end: nat, outcome: Outcome, batches: seq<seq<nat>>, st: State,
      finished: set<nat>)
    requires LowestFinishes(outcome)
  {
    && st == StateAfter(rule, first, end, outcome, |batches|)
    && Standing(rule, st, first.numberDone, end, finished)
    && RunSoFar(rule, first, end, outcome, batches) && Recorded(Rounds(batches, outcome), finished)
  }

  lemma RunStarts(rule: Rule, first: State, end: nat, outcome: Outcome)
    requires LowestFinishes(outcome) && first.carry == [] && (rule.Adapting? ==> first.roundSize <= rule.maxRoundSize)
    ensures InRun(rule, first, end, outcome, [], first, {})
  {
  }

  lemma RunStands(rule: Rule, first: State, end: nat, outcome: Outcome, batches: seq<seq<nat>>, st: State,
      finished: set<nat>)
    requires LowestFinishes(outcome) && InRun(rule, first, end, outcome, batches, st, finished)
    ensures Standing(rule, st, first.numberDone, end, finished)
  {
  }

  lemma RunSteps(rule: Rule, first: State, end: nat, outcome: Outcome, batches: seq<seq<nat>>, st: State,
      finished: set<nat>)
    requires LowestFinishes(outcome) && InRun(rule, first, end, outcome, batches, st, finished) && st.numberDone < end
    ensures
      var batch := BatchOf(st, end);
      var keep := outcome(|batches|, batch);
      && |keep| == |batch| && (batch != [] ==> keep[0] == Done)
      && InRun(rule, first, end, outcome, batches + [batch], NextState(rule, st, end, keep),
        finished + FinishedBy(batch, keep))
  {
    hide LowestFinishes, Recorded, RunSoFar, Standing, NextState, BatchOf, SmallestUnfinished, FinishedBy, Rounds,
      StateAfter;
    var batch := BatchOf(st, end);
    StateSteps(rule, first, end, outcome, |batches|);
    OneBatchMore(rule, first, end, outcome, batches, finished);
    RoundOf(rule, st, first.numberDone, end, finished, outcome(|batches|, batch));
  }

  lemma RunEnds(rule: Rule, first: State, end: nat, outcome: Outcome, batches: seq<seq<nat>>, st: State,
      finished: set<nat>)
    requires LowestFinishes(outcome) && InRun(rule, first, end, outcome, batches, st, finished)
    ensures RunSoFar(rule, first, end, outcome, batches) && StateAfter(rule, first, end, outcome, |batches|) == st
    ensures first.numberDone <= end <= st.numberDone ==> Partitions(Rounds(batches, outcome), first.numberDone, end)
  {
    hide LowestFinishes, Recorded, RunSoFar, Standing, NextState, BatchOf, SmallestUnfinished, FinishedBy, Rounds,
      StateAfter, Partitions;
    if first.numberDone <= end <= st.numberDone {
      AllFinish(rule, st, first.numberDone, end, finished);
      AllRecorded(Rounds(batches, outcome), finished, first.numberDone, end);
    }
  }

  // ---------- round sizes ----------

  /** Every iteration finishes in its first round. */
  ghost predicate FinishesAll(outcome: Outcome) {
    forall round: nat, batch: seq<nat> :: |outcome(round, batch)| == |batch|
      && forall i :: 0 <= i < |batch| ==> outcome(round, batch)[i] == Done
  }

  lemma {:induction false} NothingPacked(batch: seq<nat>, keep: seq<Status>)
    requires |batch| == |keep| && forall i :: 0 <= i < |keep| ==> keep[i] == Done
    ensures Pack(batch, keep) == []
    decreases |batch|
  {
    if batch != [] {
      NothingPacked(batch[..|batch| - 1], keep[..|batch| - 1]);
    }
  }

  /** How the share of carried iterations decides about the next size.  Below .2 the doubling driver doubles
      it.  Above .2 the adapting one halves it, but not below what is carried or maxRoundSize/64 + 1; below .1
      it doubles it, up to maxRoundSize. */
  lemma SizesOfRun(rule: Rule, first: State, end: nat, outcome: Outcome, k: nat)
    requires LowestFinishes(outcome)
    ensures
      var st, st' := StateAfter(rule, first, end, outcome, k), StateAfter(rule, first, end, outcome, k + 1);
      var carried, size := |st'.carry| as real, |BatchOf(st, end)| as real;
      match rule
      case Doubling => st'.roundSize == if carried < 0.2 * size then 2 * st.roundSize else st.roundSize
      case Adapting(most) =>
        && (carried > 0.2 * size ==> st'.roundSize == Greatest([st.roundSize / 2, most / 64 + 1, |st'.carry|]))
        && (0.1 * size <= carried <= 0.2 * size ==> st'.roundSize == st.roundSize)
        && (carried < 0.1 * size && 2 * st.roundSize <= most ==> st'.roundSize == 2 * st.roundSize)
        && (carried < 0.1 * size && 2 * st.roundSize > most ==> st'.roundSize == most)
  {
    StateSteps(rule, first, end, outcome, k);
    var st, st' := StateAfter(rule, first, end, outcome, k), StateAfter(rule, first, end, outcome, k + 1);
    hide BatchOf, StateAfter, LowestFinishes, Pack;
    assert |st'.carry| as real * 10.0 == (10 * |st'.carry|) as real;
  }

  /** The greatest of three. */
  function Greatest(sizes: seq<nat>): (g: nat)
    requires |sizes| == 3
    ensures g in sizes && forall x :: x in sizes ==> x <= g
  {
    var a, b, c := sizes[0], sizes[1], sizes[2];
    if a >= b && a >= c then a else if b >= c then b else c
  }

  /** A round of which all finishes, with room before the end. */
  lemma WholeRound(rule: Rule, first: State, end: nat, outcome: Outcome, k: nat)
    requires FinishesAll(outcome) && LowestFinishes(outcome)
    requires StateAfter(rule, first, end, outcome, k).carry == []
    ensures
      var st, st' := StateAfter(rule, first, end, outcome, k), StateAfter(rule, first, end, outcome, k + 1);
      && st'.carry == [] && st'.numberDone >= st.numberDone && (st.numberDone >= end ==> st'.numberDone >= end)
      && st'.roundSize == NextSize(rule, st.roundSize, |BatchOf(st, end)|, 0)
      && (st'.numberDone < end ==> |BatchOf(st, end)| == st.roundSize && st'.numberDone == st.numberDone + st.roundSize)
  {
    StateSteps(rule, first, end, outcome, k);
    var st := StateAfter(rule, first, end, outcome, k);
    var batch := BatchOf(st, end);
    NothingPacked(batch, outcome(k, batch));
  }

  /** Then the doubling driver has taken k rounds of doubling sizes. */
  lemma {:induction false} SizesDouble(first: State, end: nat, outcome: Outcome, k: nat)
    requires FinishesAll(outcome) && LowestFinishes(outcome) && first.carry == [] && first.roundSize > 0
    ensures
      var st := StateAfter(Doubling, first, end, outcome, k);
      st.carry == [] && (st.numberDone < end ==>
        st.roundSize == first.roundSize * Pow2(k)
        && st.numberDone == first.numberDone + first.roundSize * (Pow2(k) - 1))
  {
    if k > 0 {
      SizesDouble(first, end, outcome, k - 1);
      Pow2Positive(k - 1);
      WholeRound(Doubling, first, end, outcome, k - 1);
      hide StateAfter, FinishesAll, LowestFinishes, BatchOf;
      Twice(first.roundSize, Pow2(k - 1));
    }
  }

  lemma Twice(a: nat, b: nat)
    requires a > 0 && b > 0
    ensures a * (2 * b) == 2 * (a * b) && a * (2 * b - 1) == a * (b - 1) + a * b && a * b > 0
  {
  }

  /** Batch k of rounds of sizes first, 2 first, 4 first and so on, up to the end. */
  ghost predicate DoublingSize(start: nat, end: nat, first: nat, k: nat, size: nat) {
    var done := start + first * (Pow2(k) - 1);
    done < end && size == if done + first * Pow2(k) <= end then first * Pow2(k) else end - done
  }

  /** The batches of a doubling run that carries nothing. */
  lemma DoublingBatch(first: State, end: nat, outcome: Outcome, batches: seq<seq<nat>>, k: nat)
    requires FinishesAll(outcome) && LowestFinishes(outcome) && first.carry == [] && first.roundSize > 0
    requires k < |batches| && RunSoFar(Doubling, first, end, outcome, batches)
    ensures DoublingSize(first.numberDone, end, first.roundSize, k, |batches[k]|)
  {
    SizesDouble(first, end, outcome, k);
    assert IsRound(Doubling, first, end, outcome, batches, k);
  }

  /** The adapting driver has grown to its largest size after three rounds, which are together as large. */
  lemma {:induction false} SizesAdapt(most: nat, start: nat, end: nat, outcome: Outcome, k: nat)
    requires FinishesAll(outcome) && LowestFinishes(outcome) && most >= 4
    ensures
      var q, st := most / 4, StateAfter(Adapting(most), State(start, [], most / 4), end, outcome, k);
      st.carry == [] && (st.numberDone < end ==>
        && (k == 0 ==> st.roundSize == q && st.numberDone == start)
        && (k == 1 ==> st.roundSize == 2 * q && st.numberDone == start + q)
        && (k == 2 ==> st.roundSize == 4 * q && st.numberDone == start + 3 * q)
        && (k >= 3 ==> st.roundSize == most && st.numberDone == start + 7 * q + (k - 3) * most))
    decreases k
  {
    hide StateAfter, FinishesAll, LowestFinishes, BatchOf, NextSize;
    if k == 0 {
      StateAtFirst(Adapting(most), State(start, [], most / 4), end, outcome);
    } else {
      SizesAdapt(most, start, end, outcome, k - 1);
      WholeRound(Adapting(most), State(start, [], most / 4), end, outcome, k - 1);
      SizeGrows(most, StateAfter(Adapting(most), State(start, [], most / 4), end, outcome, k - 1).roundSize);
      if k > 3 {
        OneMore(k - 4, most);
      }
    }
  }

  lemma StateAtFirst(rule: Rule, first: State, end: nat, outcome: Outcome)
    requires LowestFinishes(outcome)
    ensures StateAfter(rule, first, end, outcome, 0) == first
  {
  }

  lemma SizeGrows(most: nat, current: nat)
    ensures current > 0 ==>
      NextSize(Adapting(most), current, current, 0) == if 2 * current <= most then 2 * current else most
  {
  }

  lemma OneMore(k: nat, c: nat)
    ensures (k + 1) * c == k * c + c
  {
  }

  /** So a range that is not done after k rounds needs more than k - 2 of the largest. */
  lemma StillRunning(start: nat, end: nat, granularity: nat, outcome: Outcome, k: nat)
    requires granularity > 0 && FinishesAll(outcome) && LowestFinishes(outcome)
    requires start <= end && (end - start) / granularity >= 3
    requires
      var most := (end - start) / granularity + 1;
      StateAfter(Adapting(most), State(start, [], most / 4), end, outcome, k).numberDone < end
    ensures k <= granularity + 1
  {
    var n := end - start;
    var most := n / granularity + 1;
    SizesAdapt(most, start, end, outcome, k);
    hide *;
    if k >= 3 {
      assert (k - 3) * most + most <= (k - 3) * most + 7 * (most / 4);
      assert (k - 2) * most == (k - 3) * most + most;
      FitsIn(n, granularity);
      Cancel(k - 2, granularity, most);
    }
  }

  lemma FitsIn(n: nat, g: nat)
    requires g > 0
    ensures n < g * (n / g + 1)
  {
    assert n == g * (n / g) + n % g;
    assert g * (n / g + 1) == g * (n / g) + g;
  }

  lemma Cancel(a: nat, g: nat, c: nat)
    ensures a >= g ==> a * c >= g * c
  {
    if a >= g {
      assert a * c == g * c + (a - g) * c;
    }
  }

  /** If the lowest pending iteration always finishes, the loop ends within one round per iteration
      and every iteration finishes in exactly one round. */
  method Run(start: nat, end: nat, startSize: int, outcome: Outcome) returns (batches: seq<seq<nat>>)
    requires start <= end && LowestFinishes(outcome)
    ensures |batches| <= end - start && forall k :: 0 <= k < |batches| ==> batches[k] != []
    ensures
      var first := State(start, [], if startSize < 1 then 1 else startSize);
      && RunSoFar(Doubling, first, end, outcome, batches)
      && StateAfter(Doubling, first, end, outcome, |batches|).numberDone >= end
    ensures Partitions(Rounds(batches, outcome), start, end)
    ensures FinishesAll(outcome) ==> forall k :: 0 <= k < |batches| ==>
      DoublingSize(start, end, if startSize < 1 then 1 else startSize, k, |batches[k]|)
  {
    var driver := new Driver(start, end, startSize);
    ghost var first := driver.Now();
    batches := [];
    RunStarts(Doubling, first, end, outcome);
    hide InRun, Partitions, RunSoFar, SmallestUnfinished, StateAfter, LowestFinishes, Rounds, Standing, BatchOf,
      NextState, FinishedBy, FinishesAll, DoublingSize;
    while driver.numberDone < end
      invariant driver.Valid() && driver.start == start && driver.end == end
      invariant InRun(Doubling, first, end, outcome, batches, driver.Now(), driver.finished)
      invariant |batches| <= driver.numberDone - start && driver.numberDone <= end
      invariant forall k :: 0 <= k < |batches| ==> batches[k] != []
      decreases end - driver.numberDone
    {
      driver.NextBatchIsSmallest();
      RunSteps(Doubling, first, end, outcome, batches, driver.Now(), driver.finished);
      var batch := driver.NextBatch();
      driver.EndRound(outcome(|batches|, batch));
      batches := batches + [batch];
    }
    RunEnds(Doubling, first, end, outcome, batches, driver.Now(), driver.finished);
    AllDouble(first, end, outcome, batches);
  }

  lemma AllDouble(first: State, end: nat, outcome: Outcome, batches: seq<seq<nat>>)
    requires LowestFinishes(outcome) && first.carry == [] && first.roundSize > 0
    requires RunSoFar(Doubling, first, end, outcome, batches)
    ensures FinishesAll(outcome) ==> forall k :: 0 <= k < |batches| ==>
      DoublingSize(first.numberDone, end, first.roundSize, k, |batches[k]|)
  {
    hide *;
    if FinishesAll(outcome) {
      forall k | 0 <= k < |batches| ensures DoublingSize(first.numberDone, end, first.roundSize, k, |batches[k]|) {
        DoublingBatch(first, end, outcome, batches, k);
      }
    }
  }

  /** How a call of the block-granular loop ends: `assert(false)` once too many rounds have run. */
  datatype BlockedEnd = Completed(processed: nat) | TooManyRounds

  function Tries(granularity: nat, maxTries: int): nat {
    if maxTries < 0 then 100 + 200 * granularity else maxTries
  }

  /** The largest round of the block-granular loop. */
  function Blocks(start: nat, end: nat, granularity: nat): (most: nat)
    requires granularity > 0
  {
    if start <= end then (end - start) / granularity + 1 else 1
  }

  function Total(batches: seq<seq<nat>>): nat {
    if batches == [] then 0 else Total(batches[..|batches| - 1]) + |batches[|batches| - 1]|
  }

  /** Between rounds of the block-granular loop: each batch has advanced it, unless the largest round is
      too small to start. */
  ghost predicate BlockedShape(most: nat, start: nat, end: nat, batches: seq<seq<nat>>, st: State, processed: nat) {
    && start <= st.numberDone && (start <= end ==> st.numberDone <= end)
    && (if most >= 4 then 1 <= st.roundSize && |batches| <= st.numberDone - start
      else st.roundSize == 0 && st.numberDone == start)
    && (forall k :: 0 <= k < |batches| ==> (batches[k] == [] <==> most < 4))
    && processed == Total(batches)
  }

  lemma ShapeStarts(most: nat, start: nat, end: nat)
    requires most > 0
    ensures BlockedShape(most, start, end, [], State(start, [], most / 4), 0)
  {
  }

  lemma BlockedAdvances(most: nat, start: nat, end: nat, batches: seq<seq<nat>>, st: State, finished: set<nat>,
      processed: nat, keep: seq<Status>)
    requires BlockedShape(most, start, end, batches, st, processed)
    requires Standing(Adapting(most), st, start, end, finished) && st.numberDone < end
    requires |keep| == |BatchOf(st, end)| && (keep != [] ==> keep[0] == Done)
    ensures BlockedShape(most, start, end, batches + [BatchOf(st, end)], NextState(Adapting(most), st, end, keep),
      processed + |keep|)
  {
    hide Standing, NextState, BatchOf, SmallestUnfinished, FinishedBy, Total;
    RoundOf(Adapting(most), st, start, end, finished, keep);
    SizeAfter(Adapting(most), st, start, end, finished, keep);
    TotalGrows(batches, BatchOf(st, end));
  }

  lemma ShapeIs(most: nat, start: nat, end: nat, batches: seq<seq<nat>>, st: State, processed: nat)
    requires BlockedShape(most, start, end, batches, st, processed)
    ensures processed == Total(batches) && (start <= end ==> st.numberDone <= end)
    ensures if most < 4 then st.numberDone == start else |batches| <= st.numberDone - start
    ensures forall k :: 0 <= k < |batches| ==> (batches[k] == [] <==> most < 4)
  {
  }

  /** The block-granular loop, from a quarter of the largest round size on.  A range whose largest
      round is below 4 starts from 0 and never takes an iteration. */
  method RunBlocked(start: nat, end: nat, granularity: nat, maxTries: int, outcome: Outcome)
    returns (result: BlockedEnd, batches: seq<seq<nat>>)
    requires granularity > 0 && LowestFinishes(outcome)
    ensures
      var most := if start <= end then (end - start) / granularity + 1 else 1;
      var limit := if maxTries < 0 then 100 + 200 * granularity else maxTries;
      var first, n := State(start, [], most / 4), |batches|;
      && RunSoFar(Adapting(most), first, end, outcome, batches)
      && (result.Completed? <==> StateAfter(Adapting(most), first, end, outcome, n).numberDone >= end)
      && (result.TooManyRounds? ==> n == limit + 1) && n <= limit + 1
    ensures result.Completed? ==> result.processed == Total(batches)
    ensures result.Completed? && start <= end ==> Partitions(Rounds(batches, outcome), start, end)
    ensures start < end && (end - start) / granularity < 3 ==>
      result.TooManyRounds? && forall k :: 0 <= k < |batches| ==> batches[k] == []
    ensures start <= end && (end - start) / granularity >= 3 ==>
      |batches| <= end - start && forall k :: 0 <= k < |batches| ==> batches[k] != []
    ensures start >= end || ((end - start) / granularity >= 3 && end - start <= Tries(granularity, maxTries) + 1) ==>
      result.Completed?
    ensures FinishesAll(outcome) && start <= end && (end - start) / granularity >= 3 ==>
      |batches| <= granularity + 2 && (maxTries < 0 || maxTries > granularity ==> result.Completed?)
  {
    var tries, most := Tries(granularity, maxTries), Blocks(start, end, granularity);
    var st := State(start, [], most / 4);
    var round: nat, processed: nat := 0, 0;
    ghost var finished: set<nat> := {};
    batches := [];
    ghost var rule, first := Adapting(most), st;
    BlocksIs(start, end, granularity);
    RunStarts(rule, first, end, outcome);
    ShapeStarts(most, start, end);
    hide *;
    while st.numberDone < end
      invariant InRun(rule, first, end, outcome, batches, st, finished)
      invariant BlockedShape(most, start, end, batches, st, processed)
      invariant |batches| == round <= tries + 1
      decreases tries + 1 - round
    {
      RunEnds(rule, first, end, outcome, batches, st, finished);
      ShapeIs(most, start, end, batches, st, processed);
      if round > tries {
        WholeIsShort(start, end, granularity, outcome, batches, st);
        return TooManyRounds, batches;
      }
      var batch := BatchOf(st, end);
      var keep := outcome(round, batch);
      RunStands(rule, first, end, outcome, batches, st, finished);
      RunSteps(rule, first, end, outcome, batches, st, finished);
      BlockedAdvances(most, start, end, batches, st, finished, processed, keep);
      processed := processed + |batch|;
      finished := finished + FinishedBy(batch, keep);
      st := NextState(Adapting(most), st, end, keep);
      batches, round := batches + [batch], round + 1;
    }
    RunEnds(rule, first, end, outcome, batches, st, finished);
    ShapeIs(most, start, end, batches, st, processed);
    WholeIsShort(start, end, granularity, outcome, batches, st);
    result := Completed(processed);
  }

  /** A run that carries nothing has few rounds. */
  lemma WholeIsShort(start: nat, end: nat, granularity: nat, outcome: Outcome, batches: seq<seq<nat>>, st: State)
    requires granularity > 0 && LowestFinishes(outcome)
    requires
      var most := Blocks(start, end, granularity);
      var first := State(start, [], most / 4);
      && RunSoFar(Adapting(most), first, end, outcome, batches)
      && st == StateAfter(Adapting(most), first, end, outcome, |batches|)
    ensures FinishesAll(outcome) && start <= end && (end - start) / granularity >= 3 ==>
      |batches| <= granularity + 2 && (st.numberDone < end ==> |batches| <= granularity + 1)
  {
    hide *;
    if FinishesAll(outcome) && start <= end && (end - start) / granularity >= 3 {
      BlocksIs(start, end, granularity);
      var most, k := (end - start) / granularity + 1, |batches|;
      if st.numberDone < end {
        StillRunning(start, end, granularity, outcome, k);
      } else if k > 0 {
        RoundRan(Adapting(most), State(start, [], most / 4), end, outcome, batches, k - 1);
        StillRunning(start, end, granularity, outcome, k - 1);
      }
    }
  }

  lemma RoundRan(rule: Rule, first: State, end: nat, outcome: Outcome, batches: seq<seq<nat>>, k: nat)
    requires LowestFinishes(outcome) && RunSoFar(rule, first, end, outcome, batches) && k < |batches|
    ensures StateAfter(rule, first, end, outcome, k).numberDone < end
  {
    assert IsRound(rule, first, end, outcome, batches, k);
  }

  lemma TotalGrows(batches: seq<seq<nat>>, batch: seq<nat>)
    ensures Total(batches + [batch]) == Total(batches) + |batch|
  {
    assert (batches + [batch])[..|batches|] == batches;
  }

  lemma BlocksIs(start: nat, end: nat, granularity: nat)
    requires granularity > 0
    ensures start <= end ==> Blocks(start, end, granularity) == (end - start) / granularity + 1
    ensures Blocks(start, end, granularity) > 0
  {
  }

  /** The size after a round, and that a batch is empty only if the size is 0. */
  lemma SizeAfter(rule: Rule, st: State, start: nat, end: nat, finished: set<nat>, keep: seq<Status>)
    requires Standing(rule, st, start, end, finished) && st.numberDone < end && |keep| == |BatchOf(st, end)|
    ensures
      var st' := NextState(rule, st, end, keep);
      && (BatchOf(st, end) == [] <==> st.roundSize == 0)
      && (st.roundSize >= 1 && (rule.Adapting? ==> rule.maxRoundSize >= 4) ==> st'.roundSize >= 1)
      && (st.roundSize == 0 ==> st'.roundSize == 0 && st'.numberDone == st.numberDone)
  {
    PackLength(BatchOf(st, end), keep);
    SizeHasRoom(rule, st.roundSize, |BatchOf(st, end)|, |Pack(BatchOf(st, end), keep)|);
    hide Pack, Batch, NextSize;
  }
}
