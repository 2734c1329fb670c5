/** Termination measure shared by every interleaved phase.
    A phase runs one thread per batch position.  Which thread takes the next atomic step is an
    arbitrary choice, so a phase terminates because the work left over all threads decreases. */
module Schedule {

  /** The total over all threads of the steps each one has left. */
  ghost function Work<P>(steps: P -> nat, pcs: seq<P>): nat {
    if pcs == [] then 0 else steps(pcs[0]) + Work(steps, pcs[1..])
  }

  /** One thread's step changes the total by that thread's own change. */
  lemma {:induction false} WorkAfterStep<P>(steps: P -> nat, pcs: seq<P>, t: nat, pc: P)
    requires t < |pcs|
    ensures Work(steps, pcs[t := pc]) == Work(steps, pcs) - steps(pcs[t]) + steps(pc)
  {
    if t == 0 {
      assert pcs[t := pc][1..] == pcs[1..];
    } else {
      assert pcs[t := pc][1..] == pcs[1..][t - 1 := pc];
      WorkAfterStep(steps, pcs[1..], t - 1, pc);
    }
  }

  ghost function Itself(n: nat): nat { n }
}
