/** Parallel Knuth shuffle by deterministic reservations.
    Whatever the schedule of the reserve and commit phases, the array ends as the sequential loop
    "for i = 0..n-1, swap s[i] with s[rand[i]]" leaves it. */
module Shuffle {
  import opened Schedule
  import opened SpeculativeFor

  // ---------- the sequential loop ----------

  ghost predicate Targets(rand: seq<nat>, n: nat) {
    |rand| == n && forall i :: 0 <= i < n ==> rand[i] <= i
  }

  function Swap<T>(s: seq<T>, i: nat, j: nat): seq<T>
    requires i < |s| && j < |s|
  {
    s[i := s[j]][j := s[i]]
  }

  /** The array after the first k iterations of the sequential loop. */
  ghost function SequentialShuffle<T>(s: seq<T>, rand: seq<nat>, k: nat): (r: seq<T>)
    requires Targets(rand, |s|) && k <= |s|
    ensures |r| == |s|
  {
    if k == 0 then s else Swap(SequentialShuffle(s, rand, k - 1), k - 1, rand[k - 1])
  }

  /** The array after those of the first k iterations that are in `done`, in order. */
  ghost function Partial<T>(s: seq<T>, rand: seq<nat>, done: set<nat>, k: nat): (r: seq<T>)
    requires Targets(rand, |s|) && k <= |s|
    ensures |r| == |s|
  {
    if k == 0 then s
    else
      var r := Partial(s, rand, done, k - 1);
      if k - 1 in done then Swap(r, k - 1, rand[k - 1]) else r
  }

  /** A later iteration `later` touches a position that `earlier` touches. */
  predicate Conflict(rand: seq<nat>, earlier: nat, later: nat)
    requires earlier < later < |rand|
  {
    rand[later] == earlier || rand[later] == rand[earlier]
  }

  /** No iteration is done before an earlier one it conflicts with. */
  ghost predicate Ordered(rand: seq<nat>, done: set<nat>) {
    forall i, k :: 0 <= i < k < |rand| && k in done && Conflict(rand, i, k) ==> i in done
  }

  lemma SwapsCommute<T>(s: seq<T>, a: nat, b: nat, c: nat, d: nat)
    requires a < |s| && b < |s| && c < |s| && d < |s|
    requires {a, b} !! {c, d}
    ensures Swap(Swap(s, a, b), c, d) == Swap(Swap(s, c, d), a, b)
  {
  }

  lemma {:induction false} PartialIgnoresLater<T>(s: seq<T>, rand: seq<nat>, done: set<nat>, k: nat, i: nat)
    requires Targets(rand, |s|) && k <= |s| && k <= i
    ensures Partial(s, rand, done + {i}, k) == Partial(s, rand, done, k)
  {
    if k > 0 {
      PartialIgnoresLater(s, rand, done, k - 1, i);
    }
  }

  /** Running iteration i last is the same as having run it in its place, when nothing done after it
      conflicts with it. */
  lemma {:induction false} RunLastIsRunInPlace<T>(s: seq<T>, rand: seq<nat>, done: set<nat>, i: nat, k: nat)
    requires Targets(rand, |s|) && i < k <= |s| && i !in done
    requires forall later :: i < later < k && later in done ==> !Conflict(rand, i, later)
    ensures Partial(s, rand, done + {i}, k) == Swap(Partial(s, rand, done, k), i, rand[i])
  {
    if k - 1 == i {
      PartialIgnoresLater(s, rand, done, i, i);
    } else {
      RunLastIsRunInPlace(s, rand, done, i, k - 1);
      if k - 1 in done {
        SwapsCommute(Partial(s, rand, done, k - 1), i, rand[i], k - 1, rand[k - 1]);
      }
    }
  }

  lemma {:induction false} PartialOfAll<T>(s: seq<T>, rand: seq<nat>, done: set<nat>, k: nat)
    requires Targets(rand, |s|) && k <= |s|
    requires forall i :: 0 <= i < k ==> i in done
    ensures Partial(s, rand, done, k) == SequentialShuffle(s, rand, k)
  {
    if k > 0 {
      PartialOfAll(s, rand, done, k - 1);
    }
  }

  lemma {:induction false} PartialOfNone<T>(s: seq<T>, rand: seq<nat>, k: nat)
    requires Targets(rand, |s|) && k <= |s|
    ensures Partial(s, rand, {}, k) == s
  {
    if k > 0 {
      PartialOfNone(s, rand, k - 1);
    }
  }

  lemma SwapPermutes<T>(s: seq<T>, i: nat, j: nat)
    requires i < |s| && j < |s|
    ensures multiset(Swap(s, i, j)) == multiset(s)
  {
  }

  lemma SwapLeavesRest<T>(r: seq<T>, s: seq<T>, i: nat, j: nat)
    requires j <= i < |r| == |s| && r[i..] == s[i..]
    ensures Swap(r, i, j)[i + 1..] == s[i + 1..]
  {
    assert r[i + 1..] == r[i..][1..] && s[i + 1..] == s[i..][1..];
  }

  /** What has not been reached is untouched. */
  lemma {:induction false} RestIsUntouched<T>(s: seq<T>, rand: seq<nat>, k: nat)
    requires Targets(rand, |s|) && k <= |s|
    ensures SequentialShuffle(s, rand, k)[k..] == s[k..]
  {
    if k > 0 {
      RestIsUntouched(s, rand, k - 1);
      SwapLeavesRest(SequentialShuffle(s, rand, k - 1), s, k - 1, rand[k - 1]);
    }
  }

  lemma LastSwap<T>(s: seq<T>, rand: seq<nat>, k: nat)
    requires Targets(rand, |s|) && 0 < k <= |s|
    ensures |SequentialShuffle(s, rand, k - 1)| == |s|
    ensures SequentialShuffle(s, rand, k) == Swap(SequentialShuffle(s, rand, k - 1), k - 1, rand[k - 1])
  {
  }

  ghost predicate Rearranges<T>(a: seq<T>, b: seq<T>) {
    multiset(a) == multiset(b)
  }

  lemma SwapRearranges<T>(r: seq<T>, s: seq<T>, i: nat, j: nat)
    requires i < |r| && j < |r| && Rearranges(r, s)
    ensures Rearranges(Swap(r, i, j), s)
  {
    SwapPermutes(r, i, j);
  }

  lemma NothingShuffled<T>(s: seq<T>, rand: seq<nat>)
    requires Targets(rand, |s|)
    ensures Rearranges(SequentialShuffle(s, rand, 0), s)
  {
  }

  /** The shuffle only rearranges. */
  lemma {:induction false} ShuffleIsPermutation<T>(s: seq<T>, rand: seq<nat>, k: nat)
    requires Targets(rand, |s|) && k <= |s|
    ensures Rearranges(SequentialShuffle(s, rand, k), s)
    decreases k
  {
    hide Rearranges, SequentialShuffle, Swap;
    if k == 0 {
      NothingShuffled(s, rand);
    } else {
      LastSwap(s, rand, k);
      ShuffleIsPermutation(s, rand, k - 1);
      SwapRearranges(SequentialShuffle(s, rand, k - 1), s, k - 1, rand[k - 1]);
    }
  }

  lemma SwapBack<T>(r: seq<T>, i: nat, j: nat)
    requires i < |r| && j < |r|
    ensures Swap(Swap(r, i, j), i, j) == r && Swap(r, i, j)[j] == r[i]
  {
  }

  /** Different choices of targets give different arrangements of distinct elements, so the n! choices
      give all n! arrangements, each once. */
  lemma {:induction false} ShuffleIsInjective<T>(s: seq<T>, rand: seq<nat>, rand': seq<nat>, k: nat)
    requires Targets(rand, |s|) && Targets(rand', |s|) && k <= |s|
    requires forall i, j :: 0 <= i < j < |s| ==> s[i] != s[j]
    requires SequentialShuffle(s, rand, k) == SequentialShuffle(s, rand', k)
    ensures rand[..k] == rand'[..k]
    decreases k
  {
    if k > 0 {
      var r, r' := SequentialShuffle(s, rand, k - 1), SequentialShuffle(s, rand', k - 1);
      var out := SequentialShuffle(s, rand, k);
      LastSwap(s, rand, k);
      LastSwap(s, rand', k);
      hide Swap, SequentialShuffle;
      RestIsUntouched(s, rand, k - 1);
      RestIsUntouched(s, rand', k - 1);
      DistinctAfterShuffle(s, rand, k);
      // the last element not yet chosen sits where the last iteration sent it
      assert r[k - 1] == r[k - 1..][0] == s[k - 1];
      assert r'[k - 1] == r'[k - 1..][0] == s[k - 1];
      SwapBack(r, k - 1, rand[k - 1]);
      SwapBack(r', k - 1, rand'[k - 1]);
      assert rand[k - 1] == rand'[k - 1];
      ShuffleIsInjective(s, rand, rand', k - 1);
      assert rand[..k] == rand[..k - 1] + [rand[k - 1]];
      assert rand'[..k] == rand'[..k - 1] + [rand'[k - 1]];
    }
  }

  lemma {:induction false} DistinctAfterShuffle<T>(s: seq<T>, rand: seq<nat>, k: nat)
    requires Targets(rand, |s|) && k <= |s|
    requires forall i, j :: 0 <= i < j < |s| ==> s[i] != s[j]
    ensures forall i, j :: 0 <= i < j < |s| ==> SequentialShuffle(s, rand, k)[i] != SequentialShuffle(s, rand, k)[j]
  {
    if k > 0 {
      DistinctAfterShuffle(s, rand, k - 1);
    }
  }

  // ---------- the reserve phase ----------

  /** Between rounds: a cell is -1 until its iteration is done and n afterwards. */
  ghost predicate Settled(res: seq<int>, n: nat, done: set<nat>) {
    |res| == n && forall x :: 0 <= x < n ==> res[x] == if x in done then n else -1
  }

  /** The reserve body of iteration i: one atomic write_min on the target's cell. */
  function Reserve(rand: seq<nat>, res: seq<int>, i: nat): (seq<int>, Status)
    requires i < |rand| == |res| && rand[i] <= i
  {
    var j := rand[i];
    if j == i then (res, TryCommit)
    else if i < res[j] then (res[j := i], TryCommit)
    else (res, TryAgain)
  }

  ghost predicate HasRun(batch: seq<nat>, ran: seq<bool>, i: int)
    requires |ran| == |batch|
  {
    exists t :: 0 <= t < |batch| && ran[t] && batch[t] == i
  }

  /** After the threads in `ran` have reserved, a cell is free or holds a contender that ran... */
  ghost predicate Held(rand: seq<nat>, batch: seq<nat>, done: set<nat>, res: seq<int>, ran: seq<bool>)
    requires |rand| == |res| && |ran| == |batch|
  {
    forall x :: 0 <= x < |res| ==>
      if x in done then res[x] == |res|
        || (0 <= res[x] < |res| && Contends(rand, res[x], x) && HasRun(batch, ran, res[x]))
      else res[x] == -1
  }

  /** ... and the least of them; and the thread it holds was told to try to commit. */
  ghost predicate Least(rand: seq<nat>, batch: seq<nat>, done: set<nat>, res: seq<int>, keep: seq<Status>,
      ran: seq<bool>)
    requires Targets(rand, |res|) && |keep| == |ran| == |batch| && forall t :: 0 <= t < |batch| ==> batch[t] < |rand|
  {
    forall t :: 0 <= t < |batch| && ran[t] ==>
      && keep[t] != Done
      && (rand[batch[t]] in done && rand[batch[t]] != batch[t] ==> res[rand[batch[t]]] <= batch[t])
      && (Holds(rand, res, batch[t]) ==> keep[t] == TryCommit)
  }

  predicate Contends(rand: seq<nat>, i: nat, x: nat)
    requires i < |rand|
  {
    rand[i] == x && i != x
  }

  /** Iteration i holds what it needs to commit. */
  predicate Holds(rand: seq<nat>, res: seq<int>, i: nat)
    requires i < |rand| == |res| && rand[i] <= i
  {
    rand[i] == i || res[rand[i]] == i
  }

  lemma HeldAfterReserve(rand: seq<nat>, batch: seq<nat>, done: set<nat>, res: seq<int>, ran: seq<bool>, t: nat)
    requires Targets(rand, |res|) && |ran| == |batch| && forall u :: 0 <= u < |batch| ==> batch[u] < |rand|
    requires Held(rand, batch, done, res, ran) && t < |batch|
    ensures Held(rand, batch, done, Reserve(rand, res, batch[t]).0, ran[t := true])
  {
  }

  lemma LeastAfterReserve(rand: seq<nat>, batch: seq<nat>, done: set<nat>, res: seq<int>, keep: seq<Status>,
      ran: seq<bool>, t: nat)
    requires Targets(rand, |res|) && Increasing(batch) && |keep| == |ran| == |batch|
    requires forall u :: 0 <= u < |batch| ==> batch[u] < |rand|
    requires Held(rand, batch, done, res, ran) && Least(rand, batch, done, res, keep, ran) && t < |batch| && !ran[t]
    ensures
      var (res', status) := Reserve(rand, res, batch[t]);
      Least(rand, batch, done, res', keep[t := status], ran[t := true])
  {
  }

  // ---------- the commit phase ----------

  /** Where a thread stands in the commit body: the check, the three moves of std::swap, the two
      stores that free the cells. */
  datatype Pc<T> = Check | LoadI | StoreI(tmp: T) | StoreJ(tmp: T) | FreeJ | FreeI | Ended(ok: bool)

  datatype Memory<T> = Memory(s: seq<T>, res: seq<int>)

  /** One memory access of the commit of iteration i. */
  function CommitStep<T>(rand: seq<nat>, i: nat, m: Memory<T>, pc: Pc<T>): (Memory<T>, Pc<T>)
    requires i < |rand| == |m.res| == |m.s| && rand[i] <= i
  {
    var j := rand[i];
    match pc
    case Check => (m, if Holds(rand, m.res, i) then LoadI else Ended(false))
    case LoadI => (m, StoreI(m.s[i]))
    case StoreI(tmp) => (m.(s := m.s[i := m.s[j]]), StoreJ(tmp))
    case StoreJ(tmp) => (m.(s := m.s[j := tmp]), FreeJ)
    case FreeJ => (m.(res := m.res[j := |m.res|]), FreeI)
    case FreeI => (m.(res := m.res[i := |m.res|]), Ended(true))
    case Ended(_) => (m, pc)
  }

  function Remaining<T>(pc: Pc<T>): nat {
    match pc
    case Check => 6
    case LoadI => 5
    case StoreI(_) => 4
    case StoreJ(_) => 3
    case FreeJ => 2
    case FreeI => 1
    case Ended(_) => 0
  }

  predicate Swapped<T>(pc: Pc<T>) {
    pc.StoreJ? || pc.FreeJ? || pc.FreeI? || (pc.Ended? && pc.ok)
  }

  predicate FreedTarget<T>(pc: Pc<T>) {
    pc.FreeI? || (pc.Ended? && pc.ok)
  }

  ghost function SwappedSet<T>(batch: seq<nat>, pcs: seq<Pc<T>>): set<nat>
    requires |pcs| == |batch|
  {
    set t | 0 <= t < |batch| && Swapped(pcs[t]) :: batch[t]
  }

  ghost predicate InRange(rand: seq<nat>, batch: seq<nat>, n: nat) {
    Targets(rand, n) && Increasing(batch) && forall t :: 0 <= t < |batch| ==> batch[t] < n
  }

  /** The facts the reserve phase leaves behind. */
  ghost predicate Reserved(rand: seq<nat>, batch: seq<nat>, done: set<nat>, res: seq<int>, keep: seq<Status>)
    requires InRange(rand, batch, |res|)
  {
    && |keep| == |batch|
    && Held(rand, batch, done, res, seq(|batch|, _ => true))
    && Least(rand, batch, done, res, keep, seq(|batch|, _ => true))
    && Ordered(rand, done)
    && SmallestUnfinished(batch, 0, |res|, done)
  }

  /** Iterations that commit in one round touch different positions. */
  lemma WinnersDisjoint(rand: seq<nat>, batch: seq<nat>, done: set<nat>, res: seq<int>, keep: seq<Status>, t: nat,
      u: nat)
    requires InRange(rand, batch, |res|) && Reserved(rand, batch, done, res, keep)
    requires t < |batch| && u < |batch| && t != u
    ensures Holds(rand, res, batch[t]) && Holds(rand, res, batch[u]) ==>
      {batch[t], rand[batch[t]]} !! {batch[u], rand[batch[u]]}
  {
  }

  /** A winner's target is done, or itself, and so is every earlier iteration it conflicts with. */
  lemma WinnersOrdered(rand: seq<nat>, batch: seq<nat>, done: set<nat>, res: seq<int>, keep: seq<Status>, t: nat,
      earlier: nat)
    requires InRange(rand, batch, |res|) && Reserved(rand, batch, done, res, keep)
    requires t < |batch| && Holds(rand, res, batch[t])
    requires earlier < batch[t] && Conflict(rand, earlier, batch[t])
    ensures earlier in done
  {
  }

  /** What holds of the commit phase after any number of steps of any threads, where `start` and
      `res0` are the input array and the cells the phase began with. */
  ghost predicate CommitInv<T>(start: seq<T>, rand: seq<nat>, batch: seq<nat>, done: set<nat>, res0: seq<int>,
      m: Memory<T>, pcs: seq<Pc<T>>)
    requires InRange(rand, batch, |start|)
  {
    var n := |start|;
    && |m.s| == |m.res| == |res0| == n && |pcs| == |batch|
    && ThreadsInv(rand, batch, res0, pcs)
    && CellsInv(rand, batch, res0, m.res, pcs)
    && ArrayInv(rand, batch, Partial(start, rand, done + SwappedSet(batch, pcs), n), m.s, pcs)
  }

  /** A thread is past its check exactly if it holds its target. */
  ghost predicate ThreadsInv<T>(rand: seq<nat>, batch: seq<nat>, res0: seq<int>, pcs: seq<Pc<T>>)
    requires |pcs| == |batch| && InRange(rand, batch, |res0|)
  {
    forall t :: 0 <= t < |pcs| && !pcs[t].Check? ==> Holds(rand, res0, batch[t]) == (pcs[t] != Ended(false))
  }

  ghost predicate FreedBy<T>(rand: seq<nat>, i: nat, x: nat, pc: Pc<T>)
    requires i < |rand|
  {
    (x == rand[i] && FreedTarget(pc)) || (x == i && pc == Ended(true))
  }

  ghost predicate SomeFreed<T>(rand: seq<nat>, batch: seq<nat>, x: nat, pcs: seq<Pc<T>>)
    requires |pcs| == |batch| && forall t :: 0 <= t < |batch| ==> batch[t] < |rand|
  {
    exists t :: 0 <= t < |batch| && FreedBy(rand, batch[t], x, pcs[t])
  }

  /** The cells as they were, but for those that committed iterations have freed. */
  ghost predicate CellsInv<T>(rand: seq<nat>, batch: seq<nat>, res0: seq<int>, res: seq<int>, pcs: seq<Pc<T>>)
    requires |pcs| == |batch| && |res| == |res0| == |rand| && forall t :: 0 <= t < |batch| ==> batch[t] < |rand|
  {
    && (forall x :: 0 <= x < |res| ==> res[x] == res0[x] || res[x] == |res|)
    && (forall x :: 0 <= x < |res| && res[x] != res0[x] ==> SomeFreed(rand, batch, x, pcs))
    && forall t, x :: 0 <= t < |batch| && 0 <= x < |res| && FreedBy(rand, batch[t], x, pcs[t]) ==> res[x] == |res|
  }

  /** The array as the finished swaps leave it, but for swaps caught between their two stores. */
  ghost predicate ArrayInv<T>(rand: seq<nat>, batch: seq<nat>, whole: seq<T>, s: seq<T>, pcs: seq<Pc<T>>)
    requires |pcs| == |batch| && InRange(rand, batch, |s|) && |whole| == |s|
  {
    && (forall x :: 0 <= x < |s| ==>
          s[x] == whole[x] || exists t :: 0 <= t < |batch| && pcs[t].StoreJ? && rand[batch[t]] == x)
    && forall t :: 0 <= t < |batch| ==>
         && (pcs[t].StoreI? ==> pcs[t].tmp == s[batch[t]])
         && (pcs[t].StoreJ? ==> pcs[t].tmp == whole[rand[batch[t]]])
  }

  lemma ThreadsStep<T>(start: seq<T>, rand: seq<nat>, batch: seq<nat>, done: set<nat>, res0: seq<int>,
      keep: seq<Status>, m: Memory<T>, pcs: seq<Pc<T>>, t: nat)
    requires InRange(rand, batch, |start|) && |res0| == |start| && Reserved(rand, batch, done, res0, keep)
    requires CommitInv(start, rand, batch, done, res0, m, pcs) && t < |pcs|
    ensures ThreadsInv(rand, batch, res0, pcs[t := CommitStep(rand, batch[t], m, pcs[t]).1])
    ensures pcs[t].Check? ==> Holds(rand, m.res, batch[t]) == Holds(rand, res0, batch[t])
  {
  }

  lemma CellsStep<T>(start: seq<T>, rand: seq<nat>, batch: seq<nat>, done: set<nat>, res0: seq<int>, m: Memory<T>,
      pcs: seq<Pc<T>>, t: nat)
    requires InRange(rand, batch, |start|) && |res0| == |start|
    requires CommitInv(start, rand, batch, done, res0, m, pcs) && t < |pcs|
    ensures CellsInv(rand, batch, res0, CommitStep(rand, batch[t], m, pcs[t]).0.res,
      pcs[t := CommitStep(rand, batch[t], m, pcs[t]).1])
  {
    var (m', pc') := CommitStep(rand, batch[t], m, pcs[t]);
    var pcs' := pcs[t := pc'];
    ResSize(rand, batch[t], m, pcs[t]);
    hide CommitStep, FreedBy, ThreadsInv, ArrayInv, Partial, SwappedSet;
    forall x | 0 <= x < |m.res|
      ensures m'.res[x] == m.res[x] || m'.res[x] == |m.res|
      ensures FreedBy(rand, batch[t], x, pc') ==> m'.res[x] == |m.res|
      ensures m'.res[x] != res0[x] ==> SomeFreed(rand, batch, x, pcs')
    {
      CellStep(rand, batch, res0, m, pcs, t, x);
      if m.res[x] != res0[x] {
        assert SomeFreed(rand, batch, x, pcs);
        var u :| 0 <= u < |batch| && FreedBy(rand, batch[u], x, pcs[u]);
        assert FreedBy(rand, batch[u], x, pcs'[u]);
      } else if m'.res[x] != res0[x] {
        assert FreedBy(rand, batch[t], x, pcs'[t]);
      }
    }
  }

  lemma ResSize<T>(rand: seq<nat>, i: nat, m: Memory<T>, pc: Pc<T>)
    requires i < |rand| == |m.res| == |m.s| && rand[i] <= i
    ensures |CommitStep(rand, i, m, pc).0.res| == |m.res|
  {
  }

  lemma CellStep<T>(rand: seq<nat>, batch: seq<nat>, res0: seq<int>, m: Memory<T>, pcs: seq<Pc<T>>, t: nat, x: nat)
    requires |pcs| == |batch| && |m.res| == |res0| == |rand| == |m.s|
      && forall u :: 0 <= u < |batch| ==> batch[u] < |rand|
    requires CellsInv(rand, batch, res0, m.res, pcs) && t < |batch| && rand[batch[t]] <= batch[t] && x < |m.res|
    ensures
      var (m', pc') := CommitStep(rand, batch[t], m, pcs[t]);
      && |m'.res| == |m.res|
      && (m'.res[x] == m.res[x] || (m'.res[x] == |m.res| && FreedBy(rand, batch[t], x, pc')))
      && (FreedBy(rand, batch[t], x, pcs[t]) ==> FreedBy(rand, batch[t], x, pc'))
      && (FreedBy(rand, batch[t], x, pc') ==> m'.res[x] == |m.res|)
  {
  }

  /** The footprint of thread t is apart from that of every other thread that holds its target. */
  ghost predicate Apart<T>(rand: seq<nat>, batch: seq<nat>, pcs: seq<Pc<T>>, t: nat)
    requires |pcs| == |batch| && t < |batch| && forall u :: 0 <= u < |batch| ==> batch[u] < |rand|
  {
    forall u :: 0 <= u < |batch| && u != t && (pcs[u].StoreI? || pcs[u].StoreJ?) ==>
      batch[u] != batch[t] && rand[batch[u]] != batch[t] && batch[u] != rand[batch[t]]
        && rand[batch[u]] != rand[batch[t]]
  }

  lemma ArrayStoreI<T>(rand: seq<nat>, batch: seq<nat>, whole: seq<T>, s: seq<T>, pcs: seq<Pc<T>>, t: nat)
    requires |pcs| == |batch| && InRange(rand, batch, |s|) && |whole| == |s| && t < |pcs|
    requires ArrayInv(rand, batch, whole, s, pcs) && Apart(rand, batch, pcs, t) && pcs[t].StoreI?
    ensures
      var i := batch[t];
      ArrayInv(rand, batch, Swap(whole, i, rand[i]), s[i := s[rand[i]]], pcs[t := StoreJ(pcs[t].tmp)])
  {
  }

  lemma ArrayOther<T>(rand: seq<nat>, batch: seq<nat>, whole: seq<T>, m: Memory<T>, pcs: seq<Pc<T>>, t: nat)
    requires |pcs| == |batch| && InRange(rand, batch, |m.s|) && |whole| == |m.s| == |m.res| && t < |pcs|
    requires ArrayInv(rand, batch, whole, m.s, pcs) && !pcs[t].StoreI?
    requires pcs[t].StoreJ? ==> Apart(rand, batch, pcs, t)
    ensures
      var (m', pc') := CommitStep(rand, batch[t], m, pcs[t]);
      ArrayInv(rand, batch, whole, m'.s, pcs[t := pc'])
  {
  }

  lemma ArrayStep<T>(start: seq<T>, rand: seq<nat>, batch: seq<nat>, done: set<nat>, res0: seq<int>, keep: seq<Status>,
      m: Memory<T>, pcs: seq<Pc<T>>, t: nat)
    requires InRange(rand, batch, |start|) && |res0| == |start| && Reserved(rand, batch, done, res0, keep)
    requires CommitInv(start, rand, batch, done, res0, m, pcs) && t < |pcs|
    ensures
      var (m', pc') := CommitStep(rand, batch[t], m, pcs[t]);
      var pcs' := pcs[t := pc'];
      ArrayInv(rand, batch, Partial(start, rand, done + SwappedSet(batch, pcs'), |start|), m'.s, pcs')
  {
    var pc' := CommitStep(rand, batch[t], m, pcs[t]).1;
    var before, after := SwappedSet(batch, pcs), SwappedSet(batch, pcs[t := pc']);
    var whole := Partial(start, rand, done + before, |start|);
    if pcs[t].StoreI? || pcs[t].StoreJ? {
      SwappersApart(rand, batch, done, res0, keep, pcs, t);
    }
    if pcs[t].StoreI? {
      SwapsInPlace(start, rand, batch, done, res0, keep, pcs, t);
      SwappedSetGrows(batch, pcs, t, pc');
      assert done + after == done + before + {batch[t]};
      ArrayStoreI(rand, batch, whole, m.s, pcs, t);
    } else {
      SwappedSetStays(batch, pcs, t, pc');
      ArrayOther(rand, batch, whole, m, pcs, t);
    }
  }

  lemma SwappersApart<T>(rand: seq<nat>, batch: seq<nat>, done: set<nat>, res0: seq<int>, keep: seq<Status>,
      pcs: seq<Pc<T>>, t: nat)
    requires InRange(rand, batch, |res0|) && Reserved(rand, batch, done, res0, keep)
    requires |pcs| == |batch| && ThreadsInv(rand, batch, res0, pcs)
    requires t < |pcs| && (pcs[t].StoreI? || pcs[t].StoreJ?)
    ensures Apart(rand, batch, pcs, t)
  {
  }

  lemma SwappedSetStays<T>(batch: seq<nat>, pcs: seq<Pc<T>>, t: nat, pc: Pc<T>)
    requires |pcs| == |batch| && t < |batch| && Swapped(pc) == Swapped(pcs[t])
    ensures SwappedSet(batch, pcs[t := pc]) == SwappedSet(batch, pcs)
  {
  }

  lemma SwappedSetGrows<T>(batch: seq<nat>, pcs: seq<Pc<T>>, t: nat, pc: Pc<T>)
    requires |pcs| == |batch| && Increasing(batch) && t < |batch| && Swapped(pc)
    ensures SwappedSet(batch, pcs[t := pc]) == SwappedSet(batch, pcs) + {batch[t]}
  {
  }

  /** The swap of a winner, run now, counts as run in its place. */
  lemma SwapsInPlace<T>(start: seq<T>, rand: seq<nat>, batch: seq<nat>, done: set<nat>, res0: seq<int>,
      keep: seq<Status>, pcs: seq<Pc<T>>, t: nat)
    requires InRange(rand, batch, |start|) && |res0| == |start| && Reserved(rand, batch, done, res0, keep)
    requires |pcs| == |batch| && ThreadsInv(rand, batch, res0, pcs) && t < |pcs| && pcs[t].StoreI?
    ensures
      var before := done + SwappedSet(batch, pcs);
      Partial(start, rand, before + {batch[t]}, |start|)
        == Swap(Partial(start, rand, before, |start|), batch[t], rand[batch[t]])
  {
    var i := batch[t];
    var swapped := SwappedSet(batch, pcs);
    assert i in batch;
    assert forall u :: 0 <= u < |batch| && u != t ==> batch[u] != i;
    forall later | i < later < |start| && later in done + swapped ensures !Conflict(rand, i, later) {
      if later in swapped {
        var u :| 0 <= u < |batch| && Swapped(pcs[u]) && batch[u] == later;
        WinnersDisjoint(rand, batch, done, res0, keep, t, u);
      }
    }
    RunLastIsRunInPlace(start, rand, done + swapped, i, |start|);
  }

  /** Every memory access of any thread keeps the invariant. */
  lemma CommitStepKeepsInv<T>(start: seq<T>, rand: seq<nat>, batch: seq<nat>, done: set<nat>, res0: seq<int>,
      keep: seq<Status>, m: Memory<T>, pcs: seq<Pc<T>>, t: nat)
    requires InRange(rand, batch, |start|) && |res0| == |start| && Reserved(rand, batch, done, res0, keep)
    requires CommitInv(start, rand, batch, done, res0, m, pcs) && t < |pcs|
    ensures
      var (m', pc') := CommitStep(rand, batch[t], m, pcs[t]);
      CommitInv(start, rand, batch, done, res0, m', pcs[t := pc'])
  {
    ThreadsStep(start, rand, batch, done, res0, keep, m, pcs, t);
    CellsStep(start, rand, batch, done, res0, m, pcs, t);
    ArrayStep(start, rand, batch, done, res0, keep, m, pcs, t);
  }

  /** A thread told to try again does not enter the commit body. */
  function Entering<T>(keep: seq<Status>): seq<Pc<T>> {
    seq(|keep|, t requires 0 <= t < |keep| => if keep[t] == TryCommit then Check else Ended(false))
  }

  function Leaving<T>(pcs: seq<Pc<T>>): seq<Status> {
    seq(|pcs|, t requires 0 <= t < |pcs| => if pcs[t] == Ended(true) then Done else TryAgain)
  }

  lemma CommitPhaseBegins<T>(start: seq<T>, rand: seq<nat>, batch: seq<nat>, done: set<nat>, keep: seq<Status>,
      m: Memory<T>)
    requires InRange(rand, batch, |start|) && |m.res| == |start| && Reserved(rand, batch, done, m.res, keep)
    requires m.s == Partial(start, rand, done, |start|)
    ensures CommitInv(start, rand, batch, done, m.res, m, Entering(keep))
  {
    var pcs: seq<Pc<T>> := Entering(keep);
    assert SwappedSet(batch, pcs) == {};
    assert done + SwappedSet(batch, pcs) == done;
  }

  lemma LeavingIsSwapped<T>(batch: seq<nat>, pcs: seq<Pc<T>>)
    requires |pcs| == |batch| && forall t :: 0 <= t < |pcs| ==> pcs[t].Ended?
    ensures FinishedBy(batch, Leaving(pcs)) == SwappedSet(batch, pcs)
  {
  }

  /** When all threads have ended, the cells are settled. */
  lemma CellsEnd<T>(rand: seq<nat>, batch: seq<nat>, done: set<nat>, res0: seq<int>, keep: seq<Status>, res: seq<int>,
      pcs: seq<Pc<T>>, x: nat)
    requires InRange(rand, batch, |res0|) && Reserved(rand, batch, done, res0, keep) && |res| == |res0|
      && |pcs| == |batch|
    requires ThreadsInv(rand, batch, res0, pcs) && CellsInv(rand, batch, res0, res, pcs)
    requires (forall t :: 0 <= t < |pcs| ==> pcs[t].Ended?) && x < |res|
    ensures res[x] == if x in done + SwappedSet(batch, pcs) then |res| else -1
  {
  }

  /** The finished iterations stay ordered. */
  lemma OrderEnds<T>(rand: seq<nat>, batch: seq<nat>, done: set<nat>, res0: seq<int>, keep: seq<Status>,
      pcs: seq<Pc<T>>)
    requires InRange(rand, batch, |res0|) && Reserved(rand, batch, done, res0, keep) && |pcs| == |batch|
    requires ThreadsInv(rand, batch, res0, pcs)
    ensures Ordered(rand, done + SwappedSet(batch, pcs))
  {
  }

  lemma CommitPhaseEnds<T>(start: seq<T>, rand: seq<nat>, batch: seq<nat>, done: set<nat>, res0: seq<int>,
      keep: seq<Status>, m: Memory<T>, pcs: seq<Pc<T>>)
    requires InRange(rand, batch, |start|) && |res0| == |start| && Reserved(rand, batch, done, res0, keep)
    requires CommitInv(start, rand, batch, done, res0, m, pcs)
    requires forall t :: 0 <= t < |pcs| ==> pcs[t].Ended?
    ensures
      var after := done + SwappedSet(batch, pcs);
      && Settled(m.res, |start|, after)
      && m.s == Partial(start, rand, after, |start|)
      && Ordered(rand, after)
    ensures batch != [] ==> pcs[0] == Ended(true)
  {
    hide Reserved, CellsInv, SwappedSet, Partial, Holds;
    forall x | 0 <= x < |m.res|
      ensures m.res[x] == if x in done + SwappedSet(batch, pcs) then |m.res| else -1
    {
      CellsEnd(rand, batch, done, res0, keep, m.res, pcs, x);
    }
    OrderEnds(rand, batch, done, res0, keep, pcs);
    if batch != [] {
      LowestWins(rand, batch, done, res0, keep);
    }
  }

  /** The lowest pending iteration always holds its target. */
  lemma LowestWins(rand: seq<nat>, batch: seq<nat>, done: set<nat>, res: seq<int>, keep: seq<Status>)
    requires InRange(rand, batch, |res|) && Reserved(rand, batch, done, res, keep) && batch != []
    ensures Holds(rand, res, batch[0])
  {
  }

  // ---------- the algorithm, in place, under any schedule ----------

  method ReserveAccess(rand: seq<nat>, res: array<int>, i: nat) returns (status: Status)
    requires Targets(rand, res.Length) && i < res.Length
    modifies res
    ensures (res[..], status) == Reserve(rand, old(res[..]), i)
  {
    var j := rand[i];
    if j == i {
      return TryCommit;
    }
    // write_min
    if i < res[j] {
      res[j] := i;
      return TryCommit;
    }
    return TryAgain;
  }

  method CommitAccess<T>(rand: seq<nat>, s: array<T>, res: array<int>, i: nat, pc: Pc<T>) returns (next: Pc<T>)
    requires Targets(rand, s.Length) && res.Length == s.Length && i < s.Length
    requires s as object != res
    modifies s, res
    ensures (Memory(s[..], res[..]), next) == CommitStep(rand, i, old(Memory(s[..], res[..])), pc)
  {
    var j := rand[i];
    match pc {
      case Check => next := if j == i || res[j] == i then LoadI else Ended(false);
      case LoadI => next := StoreI(s[i]);
      case StoreI(tmp) => s[i] := s[j]; next := StoreJ(tmp);
      case StoreJ(tmp) => s[j] := tmp; next := FreeJ;
      case FreeJ => res[j] := s.Length; next := FreeI;
      case FreeI => res[i] := s.Length; next := Ended(true);
      case Ended(_) => next := pc;
    }
  }

  method ReservePhase(rand: seq<nat>, res: array<int>, batch: seq<nat>, ghost done: set<nat>)
    returns (keep: seq<Status>)
    requires InRange(rand, batch, res.Length) && SmallestUnfinished(batch, 0, res.Length, done)
    requires Settled(res[..], res.Length, done) && Ordered(rand, done)
    modifies res
    ensures Reserved(rand, batch, done, res[..], keep)
  {
    keep := seq(|batch|, _ => TryAgain);
    var ran := seq(|batch|, _ => false);
    while exists t :: 0 <= t < |batch| && !ran[t]
      invariant |ran| == |keep| == |batch|
      invariant Held(rand, batch, done, res[..], ran) && Least(rand, batch, done, res[..], keep, ran)
      decreases Work(NotRun, ran)
    {
      var t: nat :| t < |batch| && !ran[t];
      HeldAfterReserve(rand, batch, done, res[..], ran, t);
      LeastAfterReserve(rand, batch, done, res[..], keep, ran, t);
      WorkAfterStep(NotRun, ran, t, true);
      var status := ReserveAccess(rand, res, batch[t]);
      keep, ran := keep[t := status], ran[t := true];
    }
    assert ran == seq(|batch|, _ => true);
  }

  ghost function NotRun(ran: bool): nat { if ran then 0 else 1 }

  method CommitPhase<T>(rand: seq<nat>, s: array<T>, res: array<int>, batch: seq<nat>, keep: seq<Status>,
      ghost done: set<nat>, ghost start: seq<T>)
    returns (keep': seq<Status>)
    requires s as object != res && res.Length == s.Length == |start|
    requires InRange(rand, batch, s.Length) && Reserved(rand, batch, done, res[..], keep)
    requires s[..] == Partial(start, rand, done, |start|)
    modifies s, res
    ensures |keep'| == |batch|
    ensures
      var after := done + FinishedBy(batch, keep');
      Settled(res[..], res.Length, after) && s[..] == Partial(start, rand, after, |start|) && Ordered(rand, after)
    ensures batch != [] ==> keep'[0] == Done
  {
    hide ThreadsInv, CellsInv, ArrayInv, Reserved, SmallestUnfinished;
    ghost var res0 := res[..];
    var pcs: seq<Pc<T>> := Entering(keep);
    CommitPhaseBegins(start, rand, batch, done, keep, Memory(s[..], res[..]));
    while exists t :: 0 <= t < |pcs| && !pcs[t].Ended?
      invariant CommitInv(start, rand, batch, done, res0, Memory(s[..], res[..]), pcs)
      decreases Work(Remaining, pcs)
    {
      var t: nat :| t < |pcs| && !pcs[t].Ended?;
      CommitStepKeepsInv(start, rand, batch, done, res0, keep, Memory(s[..], res[..]), pcs, t);
      var pc := CommitAccess(rand, s, res, batch[t], pcs[t]);
      WorkAfterStep(Remaining, pcs, t, pc);
      pcs := pcs[t := pc];
    }
    keep' := Leaving(pcs);
    LeavingIsSwapped(batch, pcs);
    CommitPhaseEnds(start, rand, batch, done, res0, keep, Memory(s[..], res[..]), pcs);
  }

  /** The parallel shuffle is the sequential one. */
  method RandomShuffle<T>(s: array<T>, rand: seq<nat>)
    requires Targets(rand, s.Length)
    modifies s
    ensures s[..] == SequentialShuffle(old(s[..]), rand, s.Length)
    ensures multiset(s[..]) == multiset(old(s[..]))
  {
    ghost var start := s[..];
    var res := new int[s.Length](_ => -1);
    var driver := new Driver(0, s.Length, 1);
    PartialOfNone(start, rand, s.Length);
    while driver.numberDone < s.Length
      invariant driver.Valid() && driver.start == 0 && driver.end == s.Length && fresh(driver)
      invariant Settled(res[..], res.Length, driver.finished) && Ordered(rand, driver.finished)
      invariant s[..] == Partial(start, rand, driver.finished, |start|)
      decreases s.Length - driver.numberDone
    {
      driver.NextBatchIsSmallest();
      var batch := driver.NextBatch();
      assert forall t :: 0 <= t < |batch| ==> batch[t] in batch;
      var keep := ReservePhase(rand, res, batch, driver.finished);
      keep := CommitPhase(rand, s, res, batch, keep, driver.finished, start);
      driver.EndRound(keep);
    }
    driver.AllFinished();
    PartialOfAll(start, rand, driver.finished, s.Length);
    ShuffleIsPermutation(start, rand, s.Length);
  }
}
