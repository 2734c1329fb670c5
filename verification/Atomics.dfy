/** The compare-and-swap loop behind write_min, run by any number of threads on one cell.
    Every interleaving of the loads and compare-and-swaps is equivalent to running the calls one
    at a time as indivisible minimum updates; the other modules therefore take write_min as one
    atomic step. */
module Atomics {
  import opened Schedule

  function Min(a: int, b: int): int {
    if b < a then b else a
  }

  /** Where one thread stands inside write_min: about to load, about to test and swap with the
      value it loaded, or returned. */
  datatype Pc = Load | Test(loaded: int) | Returned(won: bool)

  /** A sequential execution: thread order[k] runs k-th, on a cell holding cell[k]. */
  datatype Sequential = Sequential(order: seq<nat>, cell: seq<int>)

  /** Every call of the execution is an indivisible minimum update, and no thread calls twice. */
  ghost predicate AtomicRun(initial: int, operands: seq<int>, run: Sequential) {
    && |run.cell| == |run.order| + 1 && run.cell[0] == initial
    && (forall k :: 0 <= k < |run.order| ==> run.order[k] < |operands|)
    && (forall j, k :: 0 <= j < k < |run.order| ==> run.order[j] != run.order[k])
    && forall k :: 0 <= k < |run.order| ==> run.cell[k + 1] == Min(run.cell[k], operands[run.order[k]])
  }

  /** The execution runs every call, ends with the value `final`, and tells each call whether it
      lowered the cell. */
  ghost predicate Linearizes(initial: int, operands: seq<int>, run: Sequential, final: int, won: seq<bool>)
  {
    && |won| == |operands|
    && AtomicRun(initial, operands, run)
    && final == run.cell[|run.order|]
    && (forall t :: 0 <= t < |operands| ==> t in run.order)
    && forall k :: 0 <= k < |run.order| ==> won[run.order[k]] == (operands[run.order[k]] < run.cell[k])
  }

  /** A thread whose answer can no longer change. */
  predicate Settled(b: int, pc: Pc) {
    pc.Returned? || (pc.Test? && b >= pc.loaded)
  }

  predicate Answer(pc: Pc) {
    pc.Returned? && pc.won
  }

  ghost predicate RaceInv(initial: int, operands: seq<int>, value: int, pcs: seq<Pc>, run: Sequential) {
    && |pcs| == |operands|
    && AtomicRun(initial, operands, run)
    && value == run.cell[|run.order|]
    && (forall k :: 0 <= k < |run.order| ==>
          Settled(operands[run.order[k]], pcs[run.order[k]])
          && Answer(pcs[run.order[k]]) == (operands[run.order[k]] < run.cell[k]))
    && (forall t :: 0 <= t < |operands| && Settled(operands[t], pcs[t]) ==> t in run.order)
    && forall t :: 0 <= t < |pcs| && pcs[t].Test? ==> value <= pcs[t].loaded
  }

  function Then(run: Sequential, t: nat, value: int): Sequential {
    Sequential(run.order + [t], run.cell + [value])
  }

  /** A thread whose answer becomes settled runs next in the sequential execution. */
  lemma SettleStep(initial: int, operands: seq<int>, value: int, pcs: seq<Pc>, run: Sequential, t: nat, pc: Pc)
    requires RaceInv(initial, operands, value, pcs, run)
    requires t < |pcs| && !Settled(operands[t], pcs[t]) && Settled(operands[t], pc)
    requires pc.Test? ==> pc.loaded == value
    requires Answer(pc) == (operands[t] < value)
    ensures RaceInv(initial, operands, Min(value, operands[t]), pcs[t := pc], Then(run, t, Min(value, operands[t])))
  {
  }

  /** Along a sequential execution the cell only falls, below every operand that has run, and its
      value is the initial one or that of a call that won. */
  lemma {:induction false} CellFalls(initial: int, operands: seq<int>, run: Sequential, k: nat)
    requires AtomicRun(initial, operands, run) && k <= |run.order|
    ensures run.cell[k] <= initial
    ensures forall j :: 0 <= j < k ==> run.cell[k] <= operands[run.order[j]]
    ensures run.cell[k] != initial ==>
      exists j :: 0 <= j < k && operands[run.order[j]] < run.cell[j] && operands[run.order[j]] == run.cell[k]
  {
    if k > 0 {
      CellFalls(initial, operands, run, k - 1);
      assert run.cell[k - 1 + 1] == Min(run.cell[k - 1], operands[run.order[k - 1]]);
    }
  }

  /** What callers rely on: the cell ends at the least of its first value and all operands; when it
      changed, a call with the final operand was told so; and only lowering calls are told so. */
  lemma WriteMinOutcome(initial: int, operands: seq<int>, run: Sequential, final: int, won: seq<bool>)
    requires Linearizes(initial, operands, run, final, won)
    ensures final <= initial && forall t :: 0 <= t < |operands| ==> final <= operands[t]
    ensures final != initial ==> exists t :: 0 <= t < |operands| && won[t] && operands[t] == final
    ensures forall t :: 0 <= t < |operands| && won[t] ==> operands[t] < initial
  {
    CellFalls(initial, operands, run, |run.order|);
    forall t | 0 <= t < |operands| ensures final <= operands[t] && (won[t] ==> operands[t] < initial) {
      assert t in run.order;
      var k :| 0 <= k < |run.order| && run.order[k] == t;
      CellFalls(initial, operands, run, k);
    }
  }

  /** A step that decides nothing: neither the cell nor the execution changes. */
  lemma KeepStep(initial: int, operands: seq<int>, value: int, pcs: seq<Pc>, run: Sequential, t: nat, pc: Pc)
    requires t < |pcs| == |operands| && RaceInv(initial, operands, value, pcs, run)
    requires Settled(operands[t], pc) == Settled(operands[t], pcs[t]) && Answer(pc) == Answer(pcs[t])
    requires pc.Test? ==> value <= pc.loaded
    ensures RaceInv(initial, operands, value, pcs[t := pc], run)
  {
  }

  lemma LoadedWasHigher(initial: int, operands: seq<int>, value: int, pcs: seq<Pc>, run: Sequential, t: nat)
    requires t < |pcs| == |operands| && RaceInv(initial, operands, value, pcs, run) && pcs[t].Test?
    ensures value <= pcs[t].loaded
  {
  }

  lemma AllReturned(initial: int, operands: seq<int>, value: int, pcs: seq<Pc>, run: Sequential, won: seq<bool>)
    requires |pcs| == |operands| && RaceInv(initial, operands, value, pcs, run)
      && forall t :: 0 <= t < |pcs| ==> pcs[t].Returned?
    requires |won| == |pcs| && forall t :: 0 <= t < |pcs| ==> won[t] == Answer(pcs[t])
    ensures Linearizes(initial, operands, run, value, won)
  {
  }

  /** Bound on the remaining steps of a thread while the cell holds `value`. */
  ghost function Steps(value: int, b: int, pc: Pc): nat {
    match pc
    case Returned(_) => 0
    case Load => 2
    case Test(c) => if b >= c || c == value then 1 else 3
  }

  ghost function Budget(value: int, operands: seq<int>, pcs: seq<Pc>): seq<nat>
    requires |operands| == |pcs|
  {
    seq(|pcs|, t requires 0 <= t < |pcs| => Steps(value, operands[t], pcs[t]))
  }

  ghost function Running(pc: Pc): nat { if pc.Returned? then 0 else 1 }

  /** A step that leaves the cell alone lowers the total budget by what it lowers the thread's. */
  lemma BudgetAfterStep(value: int, operands: seq<int>, pcs: seq<Pc>, t: nat, pc: Pc)
    requires |operands| == |pcs| && t < |pcs|
    ensures Work(Itself, Budget(value, operands, pcs[t := pc]))
         == Work(Itself, Budget(value, operands, pcs)) - Steps(value, operands[t], pcs[t])
           + Steps(value, operands[t], pc)
  {
    WorkAfterStep(Itself, Budget(value, operands, pcs), t, Steps(value, operands[t], pc));
    assert Budget(value, operands, pcs[t := pc]) == Budget(value, operands, pcs)[t := Steps(value, operands[t], pc)];
  }

  class Cell {
    var value: int

    constructor (v: int)
      ensures value == v
    {
      value := v;
    }

    /** Thread t calls write_min with operands[t], for all t at once, under any schedule. */
    method WriteMin(operands: seq<int>) returns (won: seq<bool>, ghost run: Sequential)
      modifies this
      ensures Linearizes(old(value), operands, run, value, won)
    {
      var pcs: seq<Pc> := seq(|operands|, _ => Load);
      run := Sequential([], [value]);
      while exists t :: 0 <= t < |pcs| && !pcs[t].Returned?
        invariant |pcs| == |operands| && RaceInv(old(value), operands, value, pcs, run)
        decreases Work(Running, pcs), Work(Itself, Budget(value, operands, pcs))
      {
        var t: nat :| t < |pcs| && !pcs[t].Returned?;
        var pc: Pc;
        hide RaceInv, Work, Budget, Then;
        match pcs[t] {
          case Load =>
            pc := Test(value);
            BudgetAfterStep(value, operands, pcs, t, pc);
            if operands[t] >= value {
              SettleStep(old(value), operands, value, pcs, run, t, pc);
              run := Then(run, t, value);
            } else {
              KeepStep(old(value), operands, value, pcs, run, t, pc);
            }
          case Test(c) =>
            if operands[t] >= c {
              pc := Returned(false);
              KeepStep(old(value), operands, value, pcs, run, t, pc);
            } else if value == c {
              pc := Returned(true);
              SettleStep(old(value), operands, value, pcs, run, t, pc);
              run := Then(run, t, operands[t]);
              value := operands[t];
            } else {
              pc := Load;
              KeepStep(old(value), operands, value, pcs, run, t, pc);
              LoadedWasHigher(old(value), operands, value, pcs, run, t);
              BudgetAfterStep(value, operands, pcs, t, pc);
            }
        }
        WorkAfterStep(Running, pcs, t, pc);
        pcs := pcs[t := pc];
      }
      won := seq(|pcs|, t requires 0 <= t < |pcs| => Answer(pcs[t]));
      AllReturned(old(value), operands, value, pcs, run, won);
    }
  }
}
