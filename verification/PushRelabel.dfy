/** Synchronous push-relabel rounds for maximum flow.  In a round every active vertex pushes its excess
    along its edges, to neighbours of lower label, into a shadow of their excess, and may take a new
    label in a shadow of its label; then the shadows are folded in.  The threads of both phases
    interleave arbitrarily, one memory access at a time. */
module PushRelabel {
  import opened Schedule

  // ---------- the network ----------

  /** Edge e goes from[e] to to[e]; its partner is the edge back.  out[u] lists the edges from u. */
  datatype Net = Net(n: nat, from: seq<nat>, to: seq<nat>, cap: seq<int>, partner: seq<nat>, out: seq<seq<nat>>) {

    ghost predicate EdgeOk(e: nat) {
      && e < |from| == |to| == |cap| == |partner|
      && from[e] < n && to[e] < n && cap[e] >= 0
      && partner[e] < |partner| && partner[e] != e && partner[partner[e]] == e
      && from[partner[e]] == to[e] && to[partner[e]] == from[e]
    }

    ghost predicate OutOk(u: nat) {
      && u < |out| && (forall i :: 0 <= i < |out[u]| ==> out[u][i] < |from| && from[out[u][i]] == u)
      && (forall i, j :: 0 <= i < j < |out[u]| ==> out[u][i] != out[u][j])
      && forall e :: 0 <= e < |from| && from[e] == u ==> e in out[u]
    }

    ghost predicate Valid() {
      && |out| == n && |from| == |to| == |cap| == |partner|
      && (forall e :: 0 <= e < |from| ==> EdgeOk(e)) && forall u :: 0 <= u < n ==> OutOk(u)
    }
  }

  // ---------- sums ----------

  function Sum(s: seq<int>): int {
    if s == [] then 0 else s[0] + Sum(s[1..])
  }

  lemma {:induction false} SumUpdate(s: seq<int>, i: nat, x: int)
    requires i < |s|
    ensures Sum(s[i := x]) == Sum(s) - s[i] + x
  {
    if i == 0 {
      assert s[0 := x][1..] == s[1..];
    } else {
      assert s[i := x][1..] == s[1..][i - 1 := x];
      SumUpdate(s[1..], i - 1, x);
    }
  }

  lemma {:induction false} SumBounds(s: seq<int>, i: nat)
    requires (forall k :: 0 <= k < |s| ==> s[k] >= 0) && i < |s|
    ensures s[i] <= Sum(s)
    decreases |s|
  {
    SumNonnegative(s[1..]);
    if i > 0 {
      SumBounds(s[1..], i - 1);
    }
  }

  lemma {:induction false} SumNonnegative(s: seq<int>)
    requires forall k :: 0 <= k < |s| ==> s[k] >= 0
    ensures Sum(s) >= 0
  {
    if s != [] {
      SumNonnegative(s[1..]);
    }
  }

  /** The flow over the listed edges. */
  function FlowOver(flow: seq<int>, es: seq<nat>): int
    requires forall i :: 0 <= i < |es| ==> es[i] < |flow|
  {
    if es == [] then 0 else flow[es[0]] + FlowOver(flow, es[1..])
  }

  lemma {:induction false} FlowOverUpdate(flow: seq<int>, es: seq<nat>, e: nat, x: int)
    requires (forall i :: 0 <= i < |es| ==> es[i] < |flow|) && e < |flow|
    requires forall i, j :: 0 <= i < j < |es| ==> es[i] != es[j]
    ensures FlowOver(flow[e := x], es) == FlowOver(flow, es) + if e in es then x - flow[e] else 0
  {
    if es != [] {
      FlowOverUpdate(flow, es[1..], e, x);
      assert e in es[1..] ==> es[0] != e;
    }
  }

  // ---------- the push phase ----------

  /** What the threads of the push phase write.  arrived is the shadow of excess, newLabel that of labels. */
  datatype Memory = Memory(flow: seq<int>, excess: seq<int>, arrived: seq<int>, current: seq<nat>,
    newLabel: seq<int>, pushed: seq<bool>, pushes: seq<seq<nat>>)

  /** Where a thread stands.  Choose decides about the current edge; then the four writes of a push of r
      over e; then the target is put on the list unless it is on one; self: the vertex itself is. */
  datatype Pc =
    | Begin
    | Choose
    | AddFlow(e: nat, r: int)
    | SubPartner(e: nat, r: int)
    | SubExcess(e: nat, r: int)
    | Deliver(e: nat, r: int)
    | LoadFlag(v: nat, self: bool)
    | CasFlag(v: nat, self: bool)
    | Check
    | Scan(i: nat, least: int)
    | Ended

  const MAX_INT := 0x7fff_ffff

  function Min(a: int, b: int): int {
    if b < a then b else a
  }

  predicate InRange(net: Net, labels: seq<int>, u: nat)
    requires u < |labels|
  {
    0 < labels[u] < net.n
  }

  ghost predicate Sized(net: Net, labels: seq<int>, m: Memory) {
    && net.Valid() && |labels| == net.n && |m.flow| == |net.from|
    && |m.excess| == |m.arrived| == |m.current| == |m.newLabel| == |m.pushed| == net.n
  }

  ghost predicate CanStep(net: Net, labels: seq<int>, m: Memory, t: nat, u: nat, pc: Pc) {
    && Sized(net, labels, m) && u < net.n && t < |m.pushes|
    && (pc.AddFlow? || pc.SubPartner? || pc.SubExcess? || pc.Deliver? ==> pc.e < |net.from|)
    && (pc.LoadFlag? || pc.CasFlag? ==> pc.v < net.n)
  }

  /** One step of thread t, which works for vertex u. */
  function Step(net: Net, labels: seq<int>, m: Memory, t: nat, u: nat, pc: Pc): (Memory, Pc)
    requires CanStep(net, labels, m, t, u, pc)
  {
    match pc
    case Begin => (m, if InRange(net, labels, u) then Choose else Ended)
    case Choose =>
      assert net.OutOk(u);
      if m.excess[u] > 0 && m.current[u] < |net.out[u]| then
        var e := net.out[u][m.current[u]];
        assert net.EdgeOk(e);
        if m.flow[e] < net.cap[e] && labels[u] > labels[net.to[e]] then
          var r := Min(net.cap[e] - m.flow[e], m.excess[u]);
          (if r == net.cap[e] - m.flow[e] then m.(current := m.current[u := m.current[u] + 1]) else m, AddFlow(e, r))
        else (m.(current := m.current[u := m.current[u] + 1]), Choose)
      else (m, if m.excess[u] > 0 then LoadFlag(u, true) else Check)
    case AddFlow(e, r) => (m.(flow := m.flow[e := m.flow[e] + r]), SubPartner(e, r))
    case SubPartner(e, r) =>
      assert net.EdgeOk(e);
      var p := net.partner[e];
      (m.(flow := m.flow[p := m.flow[p] - r]), SubExcess(e, r))
    case SubExcess(e, r) => (m.(excess := m.excess[u := m.excess[u] - r]), Deliver(e, r))
    case Deliver(e, r) =>
      assert net.EdgeOk(e);
      var v := net.to[e];
      (m.(arrived := m.arrived[v := m.arrived[v] + r]), LoadFlag(v, false))
    case LoadFlag(v, self) => (m, if m.pushed[v] then After(self) else CasFlag(v, self))
    case CasFlag(v, self) =>
      if m.pushed[v] then (m, After(self))
      else (m.(pushed := m.pushed[v := true], pushes := m.pushes[t := m.pushes[t] + [v]]), After(self))
    case Check =>
      if m.current[u] == |net.out[u]| then (m.(current := m.current[u := 0]), Scan(0, MAX_INT)) else (m, Ended)
    case Scan(i, least) =>
      assert net.OutOk(u);
      if i < |net.out[u]| then
        var e := net.out[u][i];
        assert net.EdgeOk(e);
        (m, Scan(i + 1, Min(least, if m.flow[e] < net.cap[e] then labels[net.to[e]] else net.n)))
      else (m.(newLabel := m.newLabel[u := Min(net.n, least + 1)]), Ended)
    case Ended => (m, Ended)
  }

  function After(self: bool): Pc {
    if self then Check else Choose
  }

  // ---------- what a thread holds ----------

  ghost function GapAt(net: Net, e: nat): Pc -> nat {
    (pc: Pc) => if pc.SubPartner? && pc.r >= 0
      && (pc.e == e || (pc.e < |net.partner| && net.partner[pc.e] == e)) then pc.r else 0
  }

  /** Pushed by v, but still in its excess. */
  ghost function OwnAt(net: Net, v: nat): Pc -> nat {
    (pc: Pc) => if (pc.SubPartner? || pc.SubExcess?) && pc.r >= 0 && pc.e < |net.from| && net.from[pc.e] == v then pc.r
      else 0
  }

  /** Pushed to v, but not yet in its shadow excess. */
  ghost function ToAt(net: Net, v: nat): Pc -> nat {
    (pc: Pc) => if (pc.SubExcess? || pc.Deliver?) && pc.r >= 0 && pc.e < |net.to| && net.to[pc.e] == v then pc.r else 0
  }

  ghost function InTransit(): Pc -> nat {
    (pc: Pc) => if pc.Deliver? && pc.r >= 0 then pc.r else 0
  }

  /** What a thread knows.  The pair of an edge it pushes over is its own: its vertex has the higher
      label. */
  ghost predicate ThreadOk(net: Net, labels: seq<int>, m: Memory, u: nat, pc: Pc)
    requires Sized(net, labels, m) && u < net.n
  {
    && (pc.AddFlow? || pc.SubPartner? || pc.SubExcess? || pc.Deliver? ==>
      pc.e < |net.from| && net.EdgeOk(pc.e) && net.from[pc.e] == u && pc.r > 0 && labels[u] > labels[net.to[pc.e]])
    && (pc.AddFlow? ==> m.flow[pc.e] + pc.r <= net.cap[pc.e])
    && (pc.AddFlow? || pc.SubPartner? || pc.SubExcess? ==> pc.r <= m.excess[u])
    && (pc.LoadFlag? || pc.CasFlag? ==> pc.v < net.n && (pc.self ==> pc.v == u))
    && (pc.Check? || pc.Scan? || pc.Ended? ==> InRange(net, labels, u) && m.excess[u] > 0 ==> m.pushed[u])
    && (!pc.Begin? && !pc.Ended? ==> InRange(net, labels, u))
    && (pc.Scan? ==> 0 <= pc.least && pc.i <= |net.out[u]|)
    && (!pc.Scan? && !pc.Ended? ==> m.current[u] <= |net.out[u]|)
  }

  /** How many steps a thread has left at most. */
  ghost function Left(net: Net, m: Memory, u: nat, pc: Pc): int
    requires u < |net.out| && u < |m.current| && u < |m.excess|
  {
    var end := |net.out[u]| + 5;
    var push := end + 10 * (|net.out[u]| - m.current[u]);
    match pc
    case Begin => push + 30
    case Choose => push + More(m.excess[u])
    case AddFlow(_, r) => push + 6 + More(m.excess[u] - r)
    case SubPartner(_, r) => push + 5 + More(m.excess[u] - r)
    case SubExcess(_, r) => push + 4 + More(m.excess[u] - r)
    case Deliver(_, _) => push + 3 + More(m.excess[u])
    case LoadFlag(_, self) => if self then end + 2 else push + 2 + More(m.excess[u])
    case CasFlag(_, self) => if self then end + 1 else push + 1 + More(m.excess[u])
    case Check => end - 1
    case Scan(i, _) => |net.out[u]| - i + 2
    case Ended => 0
  }

  ghost function More(excess: int): nat {
    if excess > 0 then 20 else 0
  }

  // ---------- the invariant ----------

  /** The vertices the threads work for. */
  ghost predicate Actives(net: Net, active: seq<nat>) {
    (forall t :: 0 <= t < |active| ==> active[t] < net.n) && forall t, t' :: 0 <= t < t' < |active| ==>
      active[t] != active[t']
  }

  ghost predicate Threads(net: Net, labels: seq<int>, m: Memory, active: seq<nat>, pcs: seq<Pc>)
    requires Sized(net, labels, m) && Actives(net, active)
  {
    |pcs| == |active| && forall t :: 0 <= t < |pcs| ==> ThreadOk(net, labels, m, active[t], pcs[t])
  }

  /** Flows are opposite, but for what is being written, and within capacity. */
  ghost predicate FlowsOk(net: Net, m: Memory, pcs: seq<Pc>)
    requires net.Valid() && |m.flow| == |net.from|
  {
    forall e :: 0 <= e < |m.flow| ==> FlowOk(net, m, pcs, e)
  }

  ghost predicate FlowOk(net: Net, m: Memory, pcs: seq<Pc>, e: nat)
    requires net.Valid() && |m.flow| == |net.from| && e < |m.flow|
  {
    assert net.EdgeOk(e);
    m.flow[e] <= net.cap[e] && m.flow[e] + m.flow[net.partner[e]] == Work(GapAt(net, e), pcs)
  }

  /** The excess of a vertex, with its shadow, is what came in and did not go out, but for what is in
      transit. */
  ghost predicate Balanced(net: Net, base: seq<int>, m: Memory, pcs: seq<Pc>, v: nat)
    requires net.Valid() && v < net.n == |base| == |m.excess| == |m.arrived| && |m.flow| == |net.from|
  {
    assert net.OutOk(v);
    m.excess[v] + m.arrived[v] + FlowOver(m.flow, net.out[v])
      == base[v] + Work(OwnAt(net, v), pcs) - Work(ToAt(net, v), pcs)
  }

  ghost predicate ExcessOk(net: Net, labels: seq<int>, base: seq<int>, m: Memory, pcs: seq<Pc>)
    requires Sized(net, labels, m) && |base| == net.n
  {
    && (forall v :: 0 <= v < net.n ==> m.excess[v] >= 0 && m.arrived[v] >= 0)
    && (forall v :: 0 <= v < net.n ==> Balanced(net, base, m, pcs, v))
    && Sum(m.excess) + Sum(m.arrived) + Work(InTransit(), pcs) == Sum(base)
  }

  /** The lists hold the flagged vertices, each once. */
  ghost predicate ListsOk(net: Net, m: Memory) {
    && (forall t, i :: 0 <= t < |m.pushes| && 0 <= i < |m.pushes[t]| ==>
      m.pushes[t][i] < |m.pushed| && m.pushed[m.pushes[t][i]])
    && (forall t, i, t', i' ::
      0 <= t < |m.pushes| && 0 <= i < |m.pushes[t]| && 0 <= t' < |m.pushes| && 0 <= i' < |m.pushes[t']| ==>
      m.pushes[t][i] == m.pushes[t'][i'] ==> t == t' && i == i')
    && forall v :: 0 <= v < |m.pushed| && m.pushed[v] ==> Listed(m.pushes, v)
  }

  ghost predicate Listed(pushes: seq<seq<nat>>, v: nat) {
    exists t :: 0 <= t < |pushes| && v in pushes[t]
  }

  /** A thread is about to put v on its list. */
  ghost predicate Announced(pcs: seq<Pc>, v: nat) {
    exists t :: 0 <= t < |pcs| && (pcs[t].LoadFlag? || pcs[t].CasFlag?) && pcs[t].v == v
  }

  ghost predicate NewsOk(m: Memory, pcs: seq<Pc>)
    requires |m.arrived| == |m.pushed|
  {
    forall v :: 0 <= v < |m.arrived| && m.arrived[v] > 0 ==> m.pushed[v] || Announced(pcs, v)
  }

  /** Only an active vertex takes a new label; labels are from 0 to n. */
  ghost predicate LabelsOk(net: Net, labels: seq<int>, active: seq<nat>, m: Memory)
    requires Sized(net, labels, m)
  {
    forall v :: 0 <= v < net.n ==>
      && 0 <= labels[v] <= net.n && 0 <= m.newLabel[v] <= net.n && m.current[v] <= |net.out[v]|
      && (m.newLabel[v] != labels[v] ==> v in active && InRange(net, labels, v))
  }

  /** Every vertex with excess and a label in range is active. */
  ghost predicate AllActive(net: Net, labels: seq<int>, excess: seq<int>, active: seq<nat>)
    requires |labels| == |excess| == net.n
  {
    forall v :: 0 <= v < net.n && InRange(net, labels, v) && excess[v] > 0 ==> v in active
  }

  ghost predicate PushInv(net: Net, labels: seq<int>, base: seq<int>, active: seq<nat>, m: Memory, pcs: seq<Pc>) {
    && Sized(net, labels, m) && |base| == net.n && Actives(net, active) && |m.pushes| == |active|
    && Threads(net, labels, m, active, pcs) && FlowsOk(net, m, pcs) && ExcessOk(net, labels, base, m, pcs)
    && ListsOk(net, m) && NewsOk(m, pcs) && LabelsOk(net, labels, active, m)
    && AllActive(net, labels, m.excess, active)
  }

  lemma InvMeansCanStep(net: Net, labels: seq<int>, base: seq<int>, active: seq<nat>, m: Memory, pcs: seq<Pc>, t: nat)
    requires PushInv(net, labels, base, active, m, pcs) && t < |active|
    ensures |pcs| == |active| && CanStep(net, labels, m, t, active[t], pcs[t])
      && ThreadOk(net, labels, m, active[t], pcs[t])
  {
    hide FlowsOk, ExcessOk, ListsOk, NewsOk, LabelsOk;
  }

  // ---------- one step ----------

  /** How much a sum over the threads changes with one thread's step. */
  lemma SumAfterStep(f: Pc -> nat, pcs: seq<Pc>, t: nat, pc': Pc)
    requires t < |pcs|
    ensures Work(f, pcs[t := pc']) == Work(f, pcs) - f(pcs[t]) + f(pc')
  {
    WorkAfterStep(f, pcs, t, pc');
  }

  lemma FlowsAfter(net: Net, labels: seq<int>, m: Memory, active: seq<nat>, pcs: seq<Pc>, t: nat)
    requires Sized(net, labels, m) && Actives(net, active) && Threads(net, labels, m, active, pcs) && t < |pcs|
    requires CanStep(net, labels, m, t, active[t], pcs[t]) && FlowsOk(net, m, pcs)
    ensures
      var (m', pc') := Step(net, labels, m, t, active[t], pcs[t]);
      |m'.flow| == |m.flow| && FlowsOk(net, m', pcs[t := pc'])
  {
    hide Work;
    var (m', pc') := Step(net, labels, m, t, active[t], pcs[t]);
    assert ThreadOk(net, labels, m, active[t], pcs[t]);
    var pcs' := pcs[t := pc'];
    forall e | 0 <= e < |m.flow| ensures FlowOk(net, m', pcs', e) {
      assert FlowOk(net, m, pcs, e) && net.EdgeOk(e);
      SumAfterStep(GapAt(net, e), pcs, t, pc');
    }
  }

  lemma ExcessAfter(net: Net, labels: seq<int>, base: seq<int>, m: Memory, active: seq<nat>, pcs: seq<Pc>, t: nat)
    requires Sized(net, labels, m) && Actives(net, active) && Threads(net, labels, m, active, pcs) && t < |pcs|
    requires CanStep(net, labels, m, t, active[t], pcs[t]) && |base| == net.n && ExcessOk(net, labels, base, m, pcs)
    ensures
      var (m', pc') := Step(net, labels, m, t, active[t], pcs[t]);
      Sized(net, labels, m') && ExcessOk(net, labels, base, m', pcs[t := pc'])
  {
    hide Work;
    var u, pc := active[t], pcs[t];
    var (m', pc') := Step(net, labels, m, t, u, pc);
    assert ThreadOk(net, labels, m, u, pc);
    SumAfterStep(InTransit(), pcs, t, pc');
    if pc.SubExcess? {
      SumUpdate(m.excess, u, m.excess[u] - pc.r);
    }
    if pc.Deliver? {
      SumUpdate(m.arrived, net.to[pc.e], m.arrived[net.to[pc.e]] + pc.r);
    }
    var pcs' := pcs[t := pc'];
    forall v | 0 <= v < net.n ensures Balanced(net, base, m', pcs', v) {
      BalanceAfter(net, labels, base, m, active, pcs, t, v);
    }
  }

  lemma BalanceAfter(net: Net, labels: seq<int>, base: seq<int>, m: Memory, active: seq<nat>, pcs: seq<Pc>, t: nat,
      v: nat)
    requires Sized(net, labels, m) && Actives(net, active) && Threads(net, labels, m, active, pcs) && t < |pcs|
      && v < net.n
    requires CanStep(net, labels, m, t, active[t], pcs[t]) && |base| == net.n && Balanced(net, base, m, pcs, v)
    ensures
      var (m', pc') := Step(net, labels, m, t, active[t], pcs[t]);
      Sized(net, labels, m') && Balanced(net, base, m', pcs[t := pc'], v)
  {
    hide Work;
    var u, pc := active[t], pcs[t];
    var (m', pc') := Step(net, labels, m, t, u, pc);
    assert ThreadOk(net, labels, m, u, pc);
    SumAfterStep(OwnAt(net, v), pcs, t, pc');
    SumAfterStep(ToAt(net, v), pcs, t, pc');
    assert net.OutOk(v);
    if pc.AddFlow? {
      FlowOverEdge(net, m.flow, v, pc.e, m.flow[pc.e] + pc.r);
    } else if pc.SubPartner? {
      FlowOverEdge(net, m.flow, v, net.partner[pc.e], m.flow[net.partner[pc.e]] - pc.r);
    }
    hide FlowOver;
  }

  /** The flow out of v changes with that over the edges from v. */
  lemma FlowOverEdge(net: Net, flow: seq<int>, v: nat, e: nat, x: int)
    requires net.Valid() && v < net.n && |flow| == |net.from| && e < |flow|
    ensures net.OutOk(v)
      && FlowOver(flow[e := x], net.out[v]) == FlowOver(flow, net.out[v]) + if net.from[e] == v then x - flow[e] else 0
  {
    assert net.OutOk(v);
    FlowOverUpdate(flow, net.out[v], e, x);
    assert e in net.out[v] <==> net.from[e] == v;
  }

  /** The pair of edges a thread pushes over is not touched by another. */
  lemma OtherThreadStays(net: Net, labels: seq<int>, m: Memory, active: seq<nat>, pcs: seq<Pc>, t: nat, t': nat)
    requires Sized(net, labels, m) && Actives(net, active) && Threads(net, labels, m, active, pcs) && t < |pcs|
    requires CanStep(net, labels, m, t, active[t], pcs[t]) && t' < |pcs| && t' != t
    ensures
      var m' := Step(net, labels, m, t, active[t], pcs[t]).0;
      Sized(net, labels, m') && ThreadOk(net, labels, m', active[t'], pcs[t'])
  {
    assert ThreadOk(net, labels, m, active[t], pcs[t]) && ThreadOk(net, labels, m, active[t'], pcs[t']);
  }

  /** Every step of a thread leaves it fewer, and does not lengthen another. */
  lemma StepShortens(net: Net, labels: seq<int>, m: Memory, active: seq<nat>, pcs: seq<Pc>, t: nat)
    requires Sized(net, labels, m) && Actives(net, active) && Threads(net, labels, m, active, pcs) && t < |pcs|
    requires CanStep(net, labels, m, t, active[t], pcs[t]) && !pcs[t].Ended?
    ensures
      var (m', pc') := Step(net, labels, m, t, active[t], pcs[t]);
      && Sized(net, labels, m') && 0 <= Left(net, m', active[t], pc') < Left(net, m, active[t], pcs[t])
      && forall t' :: 0 <= t' < |pcs| && t' != t ==>
        Left(net, m', active[t'], pcs[t']) == Left(net, m, active[t'], pcs[t'])
  {
    var u, pc := active[t], pcs[t];
    assert ThreadOk(net, labels, m, u, pc);
    StepKeepsSizes(net, labels, m, t, u, pc);
    if pc.Choose? && m.excess[u] > 0 && m.current[u] < |net.out[u]| {
      assert net.OutOk(u);
    }
  }

  lemma OwnThreadAfter(net: Net, labels: seq<int>, m: Memory, active: seq<nat>, pcs: seq<Pc>, t: nat)
    requires Sized(net, labels, m) && Actives(net, active) && Threads(net, labels, m, active, pcs) && t < |pcs|
    requires CanStep(net, labels, m, t, active[t], pcs[t])
    requires forall v :: 0 <= v < net.n ==> labels[v] >= 0
    ensures
      var (m', pc') := Step(net, labels, m, t, active[t], pcs[t]);
      Sized(net, labels, m') && ThreadOk(net, labels, m', active[t], pc')
  {
    var u, pc := active[t], pcs[t];
    assert ThreadOk(net, labels, m, u, pc);
    StepKeepsSizes(net, labels, m, t, u, pc);
    hide Threads, Actives;
    if pc.Choose? && m.excess[u] > 0 && m.current[u] < |net.out[u]| {
      assert net.OutOk(u);
      assert net.EdgeOk(net.out[u][m.current[u]]);
    }
    if pc.Scan? && pc.i < |net.out[u]| {
      assert net.OutOk(u);
      assert net.EdgeOk(net.out[u][pc.i]);
    }
  }

  lemma LabelsAfter(net: Net, labels: seq<int>, m: Memory, active: seq<nat>, pcs: seq<Pc>, t: nat)
    requires Sized(net, labels, m) && Actives(net, active) && Threads(net, labels, m, active, pcs) && t < |pcs|
    requires CanStep(net, labels, m, t, active[t], pcs[t]) && LabelsOk(net, labels, active, m)
    ensures
      var (m', pc') := Step(net, labels, m, t, active[t], pcs[t]);
      Sized(net, labels, m') && LabelsOk(net, labels, active, m')
  {
    var u, pc := active[t], pcs[t];
    assert ThreadOk(net, labels, m, u, pc);
    StepKeepsSizes(net, labels, m, t, u, pc);
    hide Threads, Actives, ThreadOk, Net.Valid;
    var m' := Step(net, labels, m, t, u, pc).0;
    if pc.Choose? || pc.Check? || pc.Scan? {
      assert m'.current == m.current || m'.current == m.current[u := m'.current[u]];
    } else {
      assert m'.current == m.current && m'.newLabel == m.newLabel;
    }
  }

  lemma StepKeepsSizes(net: Net, labels: seq<int>, m: Memory, t: nat, u: nat, pc: Pc)
    requires CanStep(net, labels, m, t, u, pc)
    ensures Sized(net, labels, Step(net, labels, m, t, u, pc).0)
      && |Step(net, labels, m, t, u, pc).0.pushes| == |m.pushes|
  {
    if pc.SubPartner? || pc.Deliver? {
      assert net.EdgeOk(pc.e);
    }
  }

  /** An unflagged vertex is flagged and put on one list. */
  lemma ListsAfterAppend(net: Net, m: Memory, t: nat, v: nat)
    requires ListsOk(net, m) && t < |m.pushes| && v < |m.pushed| && !m.pushed[v]
    ensures ListsOk(net, m.(pushed := m.pushed[v := true], pushes := m.pushes[t := m.pushes[t] + [v]]))
  {
    var m' := m.(pushed := m.pushed[v := true], pushes := m.pushes[t := m.pushes[t] + [v]]);
    forall s, i | 0 <= s < |m'.pushes| && 0 <= i < |m'.pushes[s]|
      ensures (s == t && i == |m.pushes[t]| && m'.pushes[s][i] == v)
        || (i < |m.pushes[s]| && m'.pushes[s][i] == m.pushes[s][i] != v)
    {
    }
    forall w | 0 <= w < |m'.pushed| && m'.pushed[w] ensures Listed(m'.pushes, w) {
      if w == v {
        assert m'.pushes[t][|m.pushes[t]|] == v;
        assert v in m'.pushes[t];
      } else {
        assert Listed(m.pushes, w);
        var s :| 0 <= s < |m.pushes| && w in m.pushes[s];
        assert w in m'.pushes[s];
      }
    }
  }

  lemma ListsAfter(net: Net, labels: seq<int>, m: Memory, active: seq<nat>, pcs: seq<Pc>, t: nat)
    requires Sized(net, labels, m) && |m.pushes| == |active| && t < |pcs| == |active| && active[t] < net.n
    requires CanStep(net, labels, m, t, active[t], pcs[t]) && ListsOk(net, m)
    ensures
      var m' := Step(net, labels, m, t, active[t], pcs[t]).0;
      ListsOk(net, m') && |m'.pushes| == |m.pushes|
  {
    if pcs[t].CasFlag? && !m.pushed[pcs[t].v] {
      ListsAfterAppend(net, m, t, pcs[t].v);
    } else {
      var m' := Step(net, labels, m, t, active[t], pcs[t]).0;
      assert m'.pushed == m.pushed && m'.pushes == m.pushes;
    }
  }

  lemma NewsAfter(net: Net, labels: seq<int>, m: Memory, active: seq<nat>, pcs: seq<Pc>, t: nat)
    requires Sized(net, labels, m) && t < |pcs| == |active| && active[t] < net.n
    requires CanStep(net, labels, m, t, active[t], pcs[t]) && NewsOk(m, pcs)
    ensures
      var (m', pc') := Step(net, labels, m, t, active[t], pcs[t]);
      Sized(net, labels, m') && NewsOk(m', pcs[t := pc'])
  {
    StepKeepsSizes(net, labels, m, t, active[t], pcs[t]);
    var (m', pc') := Step(net, labels, m, t, active[t], pcs[t]);
    var pcs' := pcs[t := pc'];
    assert Sized(net, labels, m');
    forall v | 0 <= v < |m'.arrived| && m'.arrived[v] > 0 ensures m'.pushed[v] || Announced(pcs', v) {
      if pcs[t].Deliver? && net.to[pcs[t].e] == v {
        assert pcs'[t].v == v;
      } else if !m.pushed[v] {
        assert Announced(pcs, v);
        var s :| 0 <= s < |pcs| && (pcs[s].LoadFlag? || pcs[s].CasFlag?) && pcs[s].v == v;
        assert s != t ==> pcs'[s] == pcs[s];
        assert pcs'[t].CasFlag? ==> pcs'[t].v == pcs[t].v;
      }
    }
  }

  lemma StepKeepsActive(net: Net, labels: seq<int>, m: Memory, active: seq<nat>, pcs: seq<Pc>, t: nat)
    requires Sized(net, labels, m) && Actives(net, active) && Threads(net, labels, m, active, pcs) && t < |pcs|
    requires CanStep(net, labels, m, t, active[t], pcs[t]) && AllActive(net, labels, m.excess, active)
    ensures
      var m' := Step(net, labels, m, t, active[t], pcs[t]).0;
      Sized(net, labels, m') && AllActive(net, labels, m'.excess, active)
  {
    assert ThreadOk(net, labels, m, active[t], pcs[t]);
    StepKeepsSizes(net, labels, m, t, active[t], pcs[t]);
  }

  /** The invariant survives every step of every thread. */
  lemma StepKeepsInv(net: Net, labels: seq<int>, base: seq<int>, active: seq<nat>, m: Memory, pcs: seq<Pc>, t: nat)
    requires PushInv(net, labels, base, active, m, pcs) && t < |active|
    requires |pcs| == |active| && CanStep(net, labels, m, t, active[t], pcs[t])
    ensures
      var (m', pc') := Step(net, labels, m, t, active[t], pcs[t]);
      PushInv(net, labels, base, active, m', pcs[t := pc'])
  {
    var (m', pc') := Step(net, labels, m, t, active[t], pcs[t]);
    FlowsAfter(net, labels, m, active, pcs, t);
    ExcessAfter(net, labels, base, m, active, pcs, t);
    OwnThreadAfter(net, labels, m, active, pcs, t);
    LabelsAfter(net, labels, m, active, pcs, t);
    ListsAfter(net, labels, m, active, pcs, t);
    NewsAfter(net, labels, m, active, pcs, t);
    StepKeepsActive(net, labels, m, active, pcs, t);
    hide FlowsOk, ExcessOk, ListsOk, NewsOk, LabelsOk, Step, ThreadOk, AllActive;
    var pcs' := pcs[t := pc'];
    forall t' | 0 <= t' < |pcs| ensures ThreadOk(net, labels, m', active[t'], pcs'[t']) {
      if t' != t {
        OtherThreadStays(net, labels, m, active, pcs, t, t');
      }
    }
  }

  // ---------- between rounds ----------

  /** All shadows are folded in, all flags clear. */
  ghost predicate RoundOk(net: Net, labels: seq<int>, base: seq<int>, active: seq<nat>, m: Memory) {
    && PushInv(net, labels, base, active, m, Pcs(|active|, Begin))
    && m.newLabel == labels && (forall v :: 0 <= v < net.n ==> m.arrived[v] == 0 && !m.pushed[v])
    && forall t :: 0 <= t < |m.pushes| ==> m.pushes[t] == []
  }

  ghost function Pcs(k: nat, pc: Pc): (pcs: seq<Pc>)
    ensures |pcs| == k && forall t :: 0 <= t < k ==> pcs[t] == pc
  {
    seq(k, _ => pc)
  }

  lemma {:induction false} NothingHeld(f: Pc -> nat, pcs: seq<Pc>)
    requires forall t :: 0 <= t < |pcs| ==> f(pcs[t]) == 0
    ensures Work(f, pcs) == 0
  {
    if pcs != [] {
      NothingHeld(f, pcs[1..]);
    }
  }

  /** With no push under way: opposite flows within capacity, and every vertex balanced. */
  ghost predicate Settled(net: Net, base: seq<int>, flow: seq<int>, excess: seq<int>) {
    && net.Valid() && |flow| == |net.from| && |base| == |excess| == net.n
    && (forall e :: 0 <= e < |flow| ==> net.EdgeOk(e) && flow[e] <= net.cap[e] && flow[net.partner[e]] == -flow[e])
    && (forall v :: 0 <= v < net.n ==>
      net.OutOk(v) && excess[v] >= 0 && excess[v] + FlowOver(flow, net.out[v]) == base[v])
    && Sum(excess) == Sum(base)
  }

  /** The state between rounds, spelled out. */
  lemma RoundIsSettled(net: Net, labels: seq<int>, base: seq<int>, active: seq<nat>, m: Memory, pcs: seq<Pc>)
    requires PushInv(net, labels, base, active, m, pcs)
    requires forall t :: 0 <= t < |pcs| ==> pcs[t].Begin? || pcs[t].Ended?
    requires forall v :: 0 <= v < net.n ==> m.arrived[v] == 0
    ensures Settled(net, base, m.flow, m.excess)
  {
    forall e | 0 <= e < |m.flow|
      ensures net.EdgeOk(e) && m.flow[e] <= net.cap[e] && m.flow[net.partner[e]] == -m.flow[e]
    {
      assert FlowOk(net, m, pcs, e);
      NothingHeld(GapAt(net, e), pcs);
    }
    forall v | 0 <= v < net.n
      ensures net.OutOk(v) && m.excess[v] >= 0 && m.excess[v] + FlowOver(m.flow, net.out[v]) == base[v]
    {
      assert Balanced(net, base, m, pcs, v);
      NothingHeld(OwnAt(net, v), pcs);
      NothingHeld(ToAt(net, v), pcs);
    }
    NothingHeld(InTransit(), pcs);
    SumOfZeros(m.arrived);
  }

  lemma {:induction false} SumOfZeros(s: seq<int>)
    requires forall k :: 0 <= k < |s| ==> s[k] == 0
    ensures Sum(s) == 0
  {
    if s != [] {
      SumOfZeros(s[1..]);
    }
  }

  /** From a settled state the next round can begin. */
  lemma SettledBegins(net: Net, labels: seq<int>, base: seq<int>, active: seq<nat>, m: Memory)
    requires Sized(net, labels, m) && Settled(net, base, m.flow, m.excess) && Actives(net, active)
      && |m.pushes| == |active|
    requires m.newLabel == labels && forall v :: 0 <= v < net.n ==>
      m.arrived[v] == 0 && !m.pushed[v] && 0 <= labels[v] <= net.n && m.current[v] <= |net.out[v]|
    requires (forall t :: 0 <= t < |m.pushes| ==> m.pushes[t] == []) && AllActive(net, labels, m.excess, active)
    ensures RoundOk(net, labels, base, active, m)
  {
    var pcs := Pcs(|active|, Begin);
    forall e | 0 <= e < |m.flow| ensures FlowOk(net, m, pcs, e) {
      assert net.EdgeOk(e);
      NothingHeld(GapAt(net, e), pcs);
    }
    forall v | 0 <= v < net.n ensures Balanced(net, base, m, pcs, v) {
      NothingHeld(OwnAt(net, v), pcs);
      NothingHeld(ToAt(net, v), pcs);
    }
    NothingHeld(InTransit(), pcs);
    SumOfZeros(m.arrived);
  }

  /** No sum of the excess of a vertex and its shadow overflows: none exceeds what the source began with. */
  lemma ExcessBounded(net: Net, labels: seq<int>, base: seq<int>, active: seq<nat>, m: Memory, pcs: seq<Pc>, v: nat)
    requires PushInv(net, labels, base, active, m, pcs) && v < net.n
    ensures 0 <= m.excess[v] && 0 <= m.arrived[v] && m.excess[v] + m.arrived[v] <= Sum(base)
  {
    SumBounds(m.excess, v);
    SumBounds(m.arrived, v);
  }

  /** What an edge can still carry is no more than its capacity and its partner's together: it fits in an
      int whenever their sum does, and is that sum when the partner is full. */
  lemma ResidualBounded(net: Net, labels: seq<int>, base: seq<int>, active: seq<nat>, m: Memory, pcs: seq<Pc>, e: nat)
    requires PushInv(net, labels, base, active, m, pcs) && e < |m.flow|
    ensures net.EdgeOk(e) && net.partner[e] < |m.flow|
    ensures 0 <= net.cap[e] - m.flow[e] <= net.cap[e] + net.cap[net.partner[e]]
    ensures m.flow[net.partner[e]] == net.cap[net.partner[e]] && Work(GapAt(net, e), pcs) == 0 ==>
      net.cap[e] - m.flow[e] == net.cap[e] + net.cap[net.partner[e]]
  {
    hide Threads, ExcessOk, ListsOk, NewsOk, LabelsOk, AllActive, Actives;
    assert net.EdgeOk(e);
    assert FlowOk(net, m, pcs, e) && FlowOk(net, m, pcs, net.partner[e]);
  }

  // ---------- the fold phase ----------

  /** What the threads of the second phase write. */
  datatype Shadows = Shadows(labels: seq<int>, excess: seq<int>, arrived: seq<int>, pushed: seq<bool>)

  datatype FoldPc = SetLabel | AddShadow(i: nat) | ClearShadow(i: nat) | ClearFlag(i: nat) | Folded

  ghost predicate CanFold(n: nat, m: Memory, s: Shadows, u: nat, list: seq<nat>, pc: FoldPc) {
    && |s.labels| == |s.excess| == |s.arrived| == |s.pushed| == |m.newLabel| == n && u < n
    && (forall i :: 0 <= i < |list| ==> list[i] < n)
    && (pc.AddShadow? || pc.ClearShadow? || pc.ClearFlag? ==> pc.i < |list|)
  }

  function NextEntry(list: seq<nat>, i: nat): FoldPc {
    if i < |list| then AddShadow(i) else Folded
  }

  function FoldStep(n: nat, m: Memory, s: Shadows, u: nat, list: seq<nat>, pc: FoldPc): (Shadows, FoldPc)
    requires CanFold(n, m, s, u, list, pc)
  {
    match pc
    case SetLabel => (s.(labels := s.labels[u := m.newLabel[u]]), NextEntry(list, 0))
    case AddShadow(i) => (s.(excess := s.excess[list[i] := s.excess[list[i]] + s.arrived[list[i]]]), ClearShadow(i))
    case ClearShadow(i) => (s.(arrived := s.arrived[list[i] := 0]), ClearFlag(i))
    case ClearFlag(i) => (s.(pushed := s.pushed[list[i] := false]), NextEntry(list, i + 1))
    case Folded => (s, Folded)
  }

  /** How far entry i of a thread's list is folded. */
  function Progress(pc: FoldPc, i: nat): nat {
    match pc
    case SetLabel => 0
    case AddShadow(j) => if i < j then 3 else 0
    case ClearShadow(j) => if i < j then 3 else if i == j then 1 else 0
    case ClearFlag(j) => if i < j then 3 else if i == j then 2 else 0
    case Folded => 3
  }

  function FoldLeft(list: seq<nat>, pc: FoldPc): int {
    match pc
    case SetLabel => 3 * |list| + 1
    case AddShadow(i) => 3 * (|list| - i)
    case ClearShadow(i) => 3 * (|list| - i) - 1
    case ClearFlag(i) => 3 * (|list| - i) - 2
    case Folded => 0
  }

  /** Each entry of a list is folded as far as its thread has come; nothing else changes. */
  ghost predicate EntryOk(m: Memory, s: Shadows, v: nat, p: nat)
    requires v < |m.excess| == |m.arrived| == |s.excess| == |s.arrived| == |s.pushed|
  {
    && s.excess[v] == (if p >= 1 then m.excess[v] + m.arrived[v] else m.excess[v])
    && s.arrived[v] == (if p >= 2 then 0 else m.arrived[v])
    && (s.pushed[v] <==> p < 3)
  }

  ghost predicate FoldInv(net: Net, labels: seq<int>, active: seq<nat>, m: Memory, s: Shadows, pcs: seq<FoldPc>) {
    && Sized(net, labels, m) && Actives(net, active) && ListsOk(net, m) && |m.pushes| == |active| == |pcs|
    && |s.labels| == |s.excess| == |s.arrived| == |s.pushed| == net.n
    && (forall t :: 0 <= t < |pcs| ==>
      (pcs[t].AddShadow? || pcs[t].ClearShadow? || pcs[t].ClearFlag? ==> pcs[t].i < |m.pushes[t]|))
    && (forall t :: 0 <= t < |pcs| ==> s.labels[active[t]] == if pcs[t].SetLabel? then labels[active[t]]
      else m.newLabel[active[t]])
    && (forall v :: 0 <= v < net.n && v !in active ==> s.labels[v] == labels[v])
    && (forall t, i :: 0 <= t < |pcs| && 0 <= i < |m.pushes[t]| ==> EntryOk(m, s, m.pushes[t][i], Progress(pcs[t], i)))
    && forall v :: 0 <= v < net.n && !m.pushed[v] ==>
      s.excess[v] == m.excess[v] && s.arrived[v] == m.arrived[v] && !s.pushed[v]
  }

  lemma FoldCanStep(net: Net, labels: seq<int>, active: seq<nat>, m: Memory, s: Shadows, pcs: seq<FoldPc>, t: nat)
    requires FoldInv(net, labels, active, m, s, pcs) && t < |pcs|
    ensures CanFold(net.n, m, s, active[t], m.pushes[t], pcs[t])
  {
  }

  /** Every vertex but the one the thread stands at is as it was, and that one is folded one further. */
  lemma FoldStepEntry(net: Net, labels: seq<int>, active: seq<nat>, m: Memory, s: Shadows, pcs: seq<FoldPc>, t: nat,
      u: nat, i: nat)
    requires FoldInv(net, labels, active, m, s, pcs) && t < |pcs| && u < |pcs| && i < |m.pushes[u]|
    requires CanFold(net.n, m, s, active[t], m.pushes[t], pcs[t])
    ensures
      var (s', pc') := FoldStep(net.n, m, s, active[t], m.pushes[t], pcs[t]);
      |s'.excess| == |s'.arrived| == |s'.pushed| == net.n
        && EntryOk(m, s', m.pushes[u][i], Progress(pcs[t := pc'][u], i))
  {
    assert EntryOk(m, s, m.pushes[u][i], Progress(pcs[u], i));
    var pc := pcs[t];
    if pc.AddShadow? || pc.ClearShadow? || pc.ClearFlag? {
      assert EntryOk(m, s, m.pushes[t][pc.i], Progress(pcs[t], pc.i));
      assert m.pushes[u][i] == m.pushes[t][pc.i] <==> u == t && i == pc.i;
    }
    hide FoldInv, ListsOk, Net.Valid;
  }

  lemma FoldStepRest(net: Net, labels: seq<int>, active: seq<nat>, m: Memory, s: Shadows, pcs: seq<FoldPc>, t: nat,
      v: nat)
    requires FoldInv(net, labels, active, m, s, pcs) && t < |pcs| && v < net.n
    requires CanFold(net.n, m, s, active[t], m.pushes[t], pcs[t])
    ensures
      var s' := FoldStep(net.n, m, s, active[t], m.pushes[t], pcs[t]).0;
      && |s'.labels| == |s'.excess| == |s'.arrived| == |s'.pushed| == net.n
      && (s'.labels[v] == if v == active[t] && pcs[t].SetLabel? then m.newLabel[v] else s.labels[v])
      && (!m.pushed[v] ==> s'.excess[v] == m.excess[v] && s'.arrived[v] == m.arrived[v] && !s'.pushed[v])
  {
    var pc := pcs[t];
    if pc.AddShadow? || pc.ClearShadow? || pc.ClearFlag? {
      assert m.pushed[m.pushes[t][pc.i]];
    }
  }

  lemma FoldStepKeepsInv(net: Net, labels: seq<int>, active: seq<nat>, m: Memory, s: Shadows, pcs: seq<FoldPc>, t: nat)
    requires FoldInv(net, labels, active, m, s, pcs) && t < |pcs|
    ensures CanFold(net.n, m, s, active[t], m.pushes[t], pcs[t])
    ensures
      var (s', pc') := FoldStep(net.n, m, s, active[t], m.pushes[t], pcs[t]);
      FoldInv(net, labels, active, m, s', pcs[t := pc'])
  {
    FoldCanStep(net, labels, active, m, s, pcs, t);
    var (s', pc') := FoldStep(net.n, m, s, active[t], m.pushes[t], pcs[t]);
    var pcs' := pcs[t := pc'];
    assert pc'.SetLabel? == false;
    assert pc'.AddShadow? || pc'.ClearShadow? || pc'.ClearFlag? ==> pc'.i < |m.pushes[t]|;
    assert pcs[t].SetLabel? || s'.labels == s.labels;
    hide FoldStep, EntryOk, ListsOk, Net.Valid, Progress;
    forall u, i | 0 <= u < |pcs'| && 0 <= i < |m.pushes[u]|
      ensures EntryOk(m, s', m.pushes[u][i], Progress(pcs'[u], i))
    {
      FoldStepEntry(net, labels, active, m, s, pcs, t, u, i);
    }
    forall v | 0 <= v < net.n
      ensures
        && |s'.labels| == |s'.excess| == |s'.arrived| == |s'.pushed| == net.n
        && (s'.labels[v] == if v == active[t] && pcs[t].SetLabel? then m.newLabel[v] else s.labels[v])
        && (!m.pushed[v] ==> s'.excess[v] == m.excess[v] && s'.arrived[v] == m.arrived[v] && !s'.pushed[v])
    {
      FoldStepRest(net, labels, active, m, s, pcs, t, v);
    }
  }

  // ---------- the end of a round ----------

  function Concat(lists: seq<seq<nat>>): seq<nat> {
    if lists == [] then [] else Concat(lists[..|lists| - 1]) + lists[|lists| - 1]
  }

  lemma {:induction false} ConcatMembers(lists: seq<seq<nat>>, v: nat)
    ensures v in Concat(lists) <==> Listed(lists, v)
  {
    if lists != [] {
      var front, last := lists[..|lists| - 1], lists[|lists| - 1];
      ConcatMembers(front, v);
      if Listed(front, v) {
        var t :| 0 <= t < |front| && v in front[t];
        assert v in lists[t];
      }
      if v in last {
        assert v in lists[|lists| - 1];
      }
    }
  }

  ghost predicate AllDifferent(s: seq<nat>) {
    forall i, j :: 0 <= i < j < |s| ==> s[i] != s[j]
  }

  /** Lists without a repetition, in one list. */
  lemma {:induction false} ConcatDifferent(lists: seq<seq<nat>>)
    requires forall t, i, t', i' ::
      0 <= t < |lists| && 0 <= i < |lists[t]| && 0 <= t' < |lists| && 0 <= i' < |lists[t']| ==>
      lists[t][i] == lists[t'][i'] ==> t == t' && i == i'
    ensures AllDifferent(Concat(lists))
  {
    if lists != [] {
      var front, last := lists[..|lists| - 1], lists[|lists| - 1];
      ConcatDifferent(front);
      var c := Concat(front);
      forall i, j | 0 <= i < |c| && 0 <= j < |last| ensures c[i] != last[j] {
        assert c[i] in c;
        ConcatMembers(front, c[i]);
        var t :| 0 <= t < |front| && c[i] in front[t];
        var k :| 0 <= k < |front[t]| && front[t][k] == c[i];
        assert lists[t][k] == c[i] && lists[|lists| - 1][j] == last[j];
      }
    }
  }

  lemma FoldedEntry(net: Net, labels: seq<int>, active: seq<nat>, m: Memory, s: Shadows, folds: seq<FoldPc>, v: nat)
    requires FoldInv(net, labels, active, m, s, folds) && (forall t :: 0 <= t < |folds| ==> folds[t].Folded?)
      && v < net.n
    ensures s.excess[v] == if m.pushed[v] then m.excess[v] + m.arrived[v] else m.excess[v]
    ensures s.arrived[v] == (if m.pushed[v] then 0 else m.arrived[v]) && !s.pushed[v]
  {
    if m.pushed[v] {
      assert Listed(m.pushes, v);
      var t :| 0 <= t < |m.pushes| && v in m.pushes[t];
      var i :| 0 <= i < |m.pushes[t]| && m.pushes[t][i] == v;
      assert EntryOk(m, s, m.pushes[t][i], Progress(folds[t], i));
    }
  }

  lemma FoldedLabels(net: Net, labels: seq<int>, active: seq<nat>, m: Memory, s: Shadows, folds: seq<FoldPc>)
    requires FoldInv(net, labels, active, m, s, folds) && (forall t :: 0 <= t < |folds| ==> folds[t].Folded?)
    requires LabelsOk(net, labels, active, m)
    ensures s.labels == m.newLabel
  {
    hide ListsOk, EntryOk, Net.Valid;
    forall v | 0 <= v < net.n ensures s.labels[v] == m.newLabel[v] {
      if v in active {
        var t :| 0 <= t < |active| && active[t] == v;
      }
    }
  }

  /** After the fold: the new labels, the whole excess, and nothing in the shadows. */
  lemma FoldEnds(net: Net, labels: seq<int>, base: seq<int>, active: seq<nat>, m: Memory, pcs: seq<Pc>, s: Shadows,
      folds: seq<FoldPc>)
    requires PushInv(net, labels, base, active, m, pcs) && forall t :: 0 <= t < |pcs| ==> pcs[t].Ended?
    requires FoldInv(net, labels, active, m, s, folds) && forall t :: 0 <= t < |folds| ==> folds[t].Folded?
    ensures s.labels == m.newLabel && |s.excess| == |s.arrived| == |s.pushed| == net.n
    ensures forall v :: 0 <= v < net.n ==>
      s.excess[v] == m.excess[v] + m.arrived[v] && s.arrived[v] == 0 && !s.pushed[v]
  {
    hide FlowsOk, Balanced, ListsOk, EntryOk, Threads, Work;
    FoldedLabels(net, labels, active, m, s, folds);
    forall v | 0 <= v < net.n
      ensures s.excess[v] == m.excess[v] + m.arrived[v] && s.arrived[v] == 0 && !s.pushed[v]
    {
      FoldedEntry(net, labels, active, m, s, folds, v);
      if !m.pushed[v] {
        QuietEnd(m, pcs, v);
      }
    }
  }

  lemma QuietEnd(m: Memory, pcs: seq<Pc>, v: nat)
    requires |m.arrived| == |m.pushed| && v < |m.arrived| && NewsOk(m, pcs) && m.arrived[v] >= 0
    requires (forall t :: 0 <= t < |pcs| ==> pcs[t].Ended?) && !m.pushed[v]
    ensures m.arrived[v] == 0
  {
    assert !Announced(pcs, v);
  }

  /** Moving the shadows over moves no excess. */
  lemma {:induction false} SumsJoin(a: seq<int>, b: seq<int>, c: seq<int>)
    requires |a| == |b| == |c| && forall k :: 0 <= k < |a| ==> c[k] == a[k] + b[k]
    ensures Sum(c) == Sum(a) + Sum(b)
  {
    if a != [] {
      SumsJoin(a[1..], b[1..], c[1..]);
    }
  }

  /** The excess after the fold is settled. */
  lemma FoldSettles(net: Net, labels: seq<int>, base: seq<int>, active: seq<nat>, m: Memory, pcs: seq<Pc>,
      excess: seq<int>)
    requires PushInv(net, labels, base, active, m, pcs) && (forall t :: 0 <= t < |pcs| ==> pcs[t].Ended?)
    requires |excess| == net.n && forall v :: 0 <= v < net.n ==> excess[v] == m.excess[v] + m.arrived[v]
    ensures Settled(net, base, m.flow, excess)
  {
    forall e | 0 <= e < |m.flow|
      ensures net.EdgeOk(e) && m.flow[e] <= net.cap[e] && m.flow[net.partner[e]] == -m.flow[e]
    {
      assert FlowOk(net, m, pcs, e);
      NothingHeld(GapAt(net, e), pcs);
    }
    forall v | 0 <= v < net.n
      ensures net.OutOk(v) && excess[v] >= 0 && excess[v] + FlowOver(m.flow, net.out[v]) == base[v]
    {
      assert Balanced(net, base, m, pcs, v);
      NothingHeld(OwnAt(net, v), pcs);
      NothingHeld(ToAt(net, v), pcs);
    }
    NothingHeld(InTransit(), pcs);
    SumsJoin(m.excess, m.arrived, excess);
  }

  /** Every vertex with excess and a label in range is on a list: on exactly one, once. */
  lemma ListsAreNext(net: Net, labels: seq<int>, base: seq<int>, active: seq<nat>, m: Memory, pcs: seq<Pc>,
      excess: seq<int>)
    requires PushInv(net, labels, base, active, m, pcs) && (forall t :: 0 <= t < |pcs| ==> pcs[t].Ended?)
    requires |excess| == net.n && forall v :: 0 <= v < net.n ==> excess[v] == m.excess[v] + m.arrived[v]
    ensures Actives(net, Concat(m.pushes)) && AllActive(net, m.newLabel, excess, Concat(m.pushes))
  {
    var next := Concat(m.pushes);
    ConcatDifferent(m.pushes);
    forall t | 0 <= t < |next| ensures next[t] < net.n {
      assert next[t] in next;
      ConcatMembers(m.pushes, next[t]);
      var s :| 0 <= s < |m.pushes| && next[t] in m.pushes[s];
      var i :| 0 <= i < |m.pushes[s]| && m.pushes[s][i] == next[t];
    }
    forall v | 0 <= v < net.n && InRange(net, m.newLabel, v) && excess[v] > 0 ensures v in next {
      ConcatMembers(m.pushes, v);
      OnList(net, labels, base, active, m, pcs, v);
    }
  }

  lemma OnList(net: Net, labels: seq<int>, base: seq<int>, active: seq<nat>, m: Memory, pcs: seq<Pc>, v: nat)
    requires PushInv(net, labels, base, active, m, pcs) && (forall t :: 0 <= t < |pcs| ==> pcs[t].Ended?)
    requires v < net.n && InRange(net, m.newLabel, v) && m.excess[v] + m.arrived[v] > 0
    ensures Listed(m.pushes, v)
  {
    if m.arrived[v] > 0 {
      assert !Announced(pcs, v);
      assert m.pushed[v];
    } else {
      assert m.newLabel[v] == labels[v] || InRange(net, labels, v);
      assert v in active;
      var t :| 0 <= t < |active| && active[t] == v;
      assert ThreadOk(net, labels, m, active[t], pcs[t]);
    }
  }

  // ---------- what a push phase achieves ----------

  /** Edge i of u can carry more. */
  ghost predicate HasRoom(net: Net, labels: seq<int>, m: Memory, u: nat, i: nat)
    requires Sized(net, labels, m) && u < net.n && i < |net.out[u]|
  {
    assert net.OutOk(u);
    m.flow[net.out[u][i]] < net.cap[net.out[u][i]]
  }

  /** The label of the vertex that edge i of u leads to. */
  ghost function HeadLabel(net: Net, labels: seq<int>, u: nat, i: nat): int
    requires net.Valid() && |labels| == net.n && u < net.n && i < |net.out[u]|
  {
    assert net.OutOk(u);
    assert net.EdgeOk(net.out[u][i]);
    labels[net.to[net.out[u][i]]]
  }

  /** Edge i of u is full or does not go down. */
  ghost predicate Shut(net: Net, labels: seq<int>, m: Memory, u: nat, i: nat)
    requires Sized(net, labels, m) && u < net.n && i < |net.out[u]|
  {
    !HasRoom(net, labels, m, u, i) || labels[u] <= HeadLabel(net, labels, u, i)
  }

  /** The thread is about to fill edge i of u. */
  ghost predicate Filling(net: Net, labels: seq<int>, m: Memory, u: nat, i: nat, pc: Pc)
    requires Sized(net, labels, m) && u < net.n && i < |net.out[u]|
  {
    assert net.OutOk(u);
    pc.AddFlow? && pc.e == net.out[u][i] && m.flow[pc.e] + pc.r >= net.cap[pc.e]
  }

  ghost predicate ShutUpTo(net: Net, labels: seq<int>, m: Memory, u: nat, k: nat, pc: Pc)
    requires Sized(net, labels, m) && u < net.n
  {
    k <= |net.out[u]| && forall i :: 0 <= i < k ==> Shut(net, labels, m, u, i) || Filling(net, labels, m, u, i, pc)
  }

  /** Edge i of u had room when the phase began, and does not go down. */
  ghost predicate WasOpen(net: Net, labels: seq<int>, start: Memory, u: nat, i: nat)
    requires Sized(net, labels, start) && u < net.n && i < |net.out[u]|
  {
    HasRoom(net, labels, start, u, i) && labels[u] <= HeadLabel(net, labels, u, i)
  }

  /** What a search for the least label over the first i edges of u has found: at most that of any edge that
      had room when the phase began and does not go down, and that of some edge with room, unless n or more. */
  ghost predicate LeastOf(net: Net, labels: seq<int>, start: Memory, m: Memory, u: nat, i: nat, least: int)
    requires Sized(net, labels, m) && Sized(net, labels, start) && u < net.n
  {
    && i <= |net.out[u]| && labels[u] <= least
    && (least >= net.n
      || exists j: nat :: j < i && HasRoom(net, labels, m, u, j) && HeadLabel(net, labels, u, j) == least)
    && forall j: nat :: j < i && WasOpen(net, labels, start, u, j) ==> least <= HeadLabel(net, labels, u, j)
  }

  /** The new label of u is above the old one.  It is n, or one above the head of an edge with room; and at most
      one above the head of any edge that had room when the phase began and does not go down. */
  ghost predicate Relabelled(net: Net, labels: seq<int>, start: Memory, m: Memory, u: nat)
    requires Sized(net, labels, m) && Sized(net, labels, start) && u < net.n
  {
    && labels[u] < m.newLabel[u] <= net.n
    && (m.newLabel[u] == net.n || exists j: nat ::
      j < |net.out[u]| && HasRoom(net, labels, m, u, j) && m.newLabel[u] == HeadLabel(net, labels, u, j) + 1)
    && forall j: nat :: j < |net.out[u]| && WasOpen(net, labels, start, u, j) ==>
      m.newLabel[u] <= HeadLabel(net, labels, u, j) + 1
  }

  /** The vertex has pushed all its excess, or can push no more and has taken a new label. */
  ghost predicate Swept(net: Net, labels: seq<int>, start: Memory, m: Memory, u: nat)
    requires Sized(net, labels, m) && Sized(net, labels, start) && u < net.n
  {
    if m.newLabel[u] == labels[u] then m.excess[u] == 0 && ShutUpTo(net, labels, m, u, m.current[u], Ended)
    else ShutUpTo(net, labels, m, u, |net.out[u]|, Ended) && m.current[u] == 0 && Relabelled(net, labels, start, m, u)
  }

  /** A vertex between the start of its sweep and the end: the edges before the current one are done. */
  ghost predicate Sweeping(net: Net, labels: seq<int>, m: Memory, u: nat, pc: Pc, last: bool)
    requires Sized(net, labels, m) && u < net.n
  {
    && ShutUpTo(net, labels, m, u, m.current[u], pc) && m.newLabel[u] == labels[u]
    && (last && m.excess[u] > 0 ==> m.current[u] == |net.out[u]|)
  }

  /** How far the thread of u has come. */
  ghost predicate SweepOk(net: Net, labels: seq<int>, start: Memory, m: Memory, u: nat, pc: Pc)
    requires Sized(net, labels, m) && Sized(net, labels, start) && u < net.n
  {
    match pc
    case Begin => Sweeping(net, labels, m, u, pc, false)
    case Choose => Sweeping(net, labels, m, u, pc, false)
    case LoadFlag(_, self) => Sweeping(net, labels, m, u, pc, self) && start.excess[u] > 0
    case CasFlag(_, self) => Sweeping(net, labels, m, u, pc, self) && start.excess[u] > 0
    case Check => Sweeping(net, labels, m, u, pc, true)
    case Scan(i, least) =>
      && ShutUpTo(net, labels, m, u, |net.out[u]|, pc) && m.current[u] == 0 && m.newLabel[u] == labels[u]
      && LeastOf(net, labels, start, m, u, i, least)
    case Ended => Swept(net, labels, start, m, u)
    case _ => Sweeping(net, labels, m, u, pc, false) && start.excess[u] > 0
  }

  /** Some vertex in range of a higher label had excess when the phase began. */
  ghost predicate RichAbove(net: Net, labels: seq<int>, start: Memory, height: int)
    requires Sized(net, labels, start)
  {
    exists u: nat :: u < net.n && InRange(net, labels, u) && start.excess[u] > 0 && labels[u] > height
  }

  /** Edges that do not go down have gained no flow. */
  ghost predicate UphillKept(net: Net, labels: seq<int>, start: Memory, m: Memory, e: nat)
    requires Sized(net, labels, m) && Sized(net, labels, start) && e < |m.flow|
  {
    assert net.EdgeOk(e);
    labels[net.from[e]] <= labels[net.to[e]] ==> m.flow[e] <= start.flow[e]
  }

  /** Excess moves from vertices in range that had some to the shadows of lower ones. */
  ghost predicate FlowsDown(net: Net, labels: seq<int>, start: Memory, m: Memory)
    requires Sized(net, labels, m) && Sized(net, labels, start)
  {
    && (forall e :: 0 <= e < |m.flow| ==> UphillKept(net, labels, start, m, e))
    && (forall v :: 0 <= v < net.n ==> m.excess[v] <= start.excess[v])
    && (forall v :: 0 <= v < net.n && m.arrived[v] > 0 ==> RichAbove(net, labels, start, labels[v]))
    && forall t :: 0 <= t < |m.pushes| && m.pushes[t] != [] ==> RichAbove(net, labels, start, 0)
  }

  ghost predicate Sweeps(net: Net, labels: seq<int>, start: Memory, active: seq<nat>, m: Memory, pcs: seq<Pc>)
    requires Sized(net, labels, m) && Sized(net, labels, start) && |active| == |pcs| && Actives(net, active)
  {
    forall t :: 0 <= t < |pcs| && InRange(net, labels, active[t]) ==> SweepOk(net, labels, start, m, active[t], pcs[t])
  }

  /** A vertex for which no thread works. */
  ghost predicate AtRest(net: Net, labels: seq<int>, active: seq<nat>, u: nat)
    requires |labels| == net.n && u < net.n
  {
    u in active ==> !InRange(net, labels, u)
  }

  ghost predicate OthersRest(net: Net, labels: seq<int>, active: seq<nat>, m: Memory)
    requires Sized(net, labels, m)
  {
    forall u :: 0 <= u < net.n && AtRest(net, labels, active, u) ==> ShutUpTo(net, labels, m, u, m.current[u], Ended)
  }

  ghost predicate PhaseInv(net: Net, labels: seq<int>, start: Memory, active: seq<nat>, m: Memory, pcs: seq<Pc>) {
    && Sized(net, labels, m) && Sized(net, labels, start) && |active| == |pcs| && Actives(net, active)
    && FlowsDown(net, labels, start, m) && Sweeps(net, labels, start, active, m, pcs)
    && OthersRest(net, labels, active, m)
  }

  /** What a step does to the flow of an edge: its own thread may add to an edge that goes down, another may take
      from one that goes up. */
  lemma FlowMoves(net: Net, labels: seq<int>, m: Memory, t: nat, u: nat, pc: Pc, e: nat)
    requires CanStep(net, labels, m, t, u, pc) && ThreadOk(net, labels, m, u, pc) && e < |m.flow|
    ensures
      var m' := Step(net, labels, m, t, u, pc).0;
      && |m'.flow| == |m.flow| && net.EdgeOk(e)
      && (m'.flow[e] == m.flow[e] || (pc.AddFlow? && pc.e == e && net.from[e] == u && m'.flow[e] == m.flow[e] + pc.r)
        || (m'.flow[e] < m.flow[e] && labels[net.from[e]] < labels[net.to[e]] && net.from[e] != u))
  {
    assert net.EdgeOk(e);
    if pc.SubPartner? {
      assert net.EdgeOk(pc.e);
    }
  }

  /** Edges of another vertex stay shut, and those with room keep it. */
  lemma OtherEdgeStays(net: Net, labels: seq<int>, m: Memory, t: nat, u: nat, pc: Pc, v: nat, i: nat, pc': Pc)
    requires CanStep(net, labels, m, t, u, pc) && ThreadOk(net, labels, m, u, pc)
    requires v < net.n && v != u && i < |net.out[v]| && (pc'.AddFlow? ==> ThreadOk(net, labels, m, v, pc'))
    ensures
      var m' := Step(net, labels, m, t, u, pc).0;
      && Sized(net, labels, m') && (Shut(net, labels, m, v, i) ==> Shut(net, labels, m', v, i))
      && (HasRoom(net, labels, m, v, i) ==> HasRoom(net, labels, m', v, i))
      && (Filling(net, labels, m, v, i, pc') ==> Filling(net, labels, m', v, i, pc'))
  {
    StepKeepsSizes(net, labels, m, t, u, pc);
    assert net.OutOk(v);
    FlowMoves(net, labels, m, t, u, pc, net.out[v][i]);
    hide Step, Net.Valid;
  }

  /** A step changes, of what belongs to other vertices, only flows and shadows of excess. */
  lemma OthersUntouched(net: Net, labels: seq<int>, m: Memory, t: nat, u: nat, pc: Pc, v: nat)
    requires CanStep(net, labels, m, t, u, pc) && v < net.n && v != u
    ensures
      var m' := Step(net, labels, m, t, u, pc).0;
      && Sized(net, labels, m') && m'.current[v] == m.current[v] && m'.newLabel[v] == m.newLabel[v]
      && m'.excess[v] == m.excess[v]
  {
    StepKeepsSizes(net, labels, m, t, u, pc);
  }

  lemma ShutStays(net: Net, labels: seq<int>, m: Memory, t: nat, u: nat, pc: Pc, v: nat, k: nat, pc': Pc)
    requires CanStep(net, labels, m, t, u, pc) && ThreadOk(net, labels, m, u, pc)
    requires v < net.n && v != u && ShutUpTo(net, labels, m, v, k, pc')
    requires pc'.AddFlow? ==> ThreadOk(net, labels, m, v, pc')
    ensures
      var m' := Step(net, labels, m, t, u, pc).0;
      Sized(net, labels, m') && ShutUpTo(net, labels, m', v, k, pc')
  {
    StepKeepsSizes(net, labels, m, t, u, pc);
    var m' := Step(net, labels, m, t, u, pc).0;
    hide Step, Shut, Filling, ThreadOk, CanStep, Net.Valid;
    forall i | 0 <= i < k ensures Shut(net, labels, m', v, i) || Filling(net, labels, m', v, i, pc') {
      OtherEdgeStays(net, labels, m, t, u, pc, v, i, pc');
    }
  }

  /** The others have come as far as before. */
  lemma OtherSweepStays(net: Net, labels: seq<int>, start: Memory, m: Memory, t: nat, u: nat, pc: Pc, v: nat, pc': Pc)
    requires CanStep(net, labels, m, t, u, pc) && ThreadOk(net, labels, m, u, pc) && Sized(net, labels, start)
    requires v < net.n && v != u && ThreadOk(net, labels, m, v, pc') && SweepOk(net, labels, start, m, v, pc')
    ensures
      var m' := Step(net, labels, m, t, u, pc).0;
      Sized(net, labels, m') && SweepOk(net, labels, start, m', v, pc')
  {
    OthersUntouched(net, labels, m, t, u, pc, v);
    var m' := Step(net, labels, m, t, u, pc).0;
    var k := if pc'.Scan? || (pc'.Ended? && m.newLabel[v] != labels[v]) then |net.out[v]| else m.current[v];
    ShutStays(net, labels, m, t, u, pc, v, k, pc');
    forall j: nat | j < |net.out[v]| && HasRoom(net, labels, m, v, j) ensures HasRoom(net, labels, m', v, j) {
      OtherEdgeStays(net, labels, m, t, u, pc, v, j, pc');
    }
    hide Step, ShutUpTo, HasRoom, HeadLabel, ThreadOk, CanStep, Net.Valid;
  }

  // ---------- the steps of a sweep ----------

  lemma ChooseSweeps(net: Net, labels: seq<int>, start: Memory, m: Memory, t: nat, u: nat)
    requires CanStep(net, labels, m, t, u, Choose) && ThreadOk(net, labels, m, u, Choose) && Sized(net, labels, start)
    requires SweepOk(net, labels, start, m, u, Choose) && m.excess[u] <= start.excess[u]
    ensures
      var (m', pc') := Step(net, labels, m, t, u, Choose);
      Sized(net, labels, m') && SweepOk(net, labels, start, m', u, pc')
  {
    StepKeepsSizes(net, labels, m, t, u, Choose);
    var (m', pc') := Step(net, labels, m, t, u, Choose);
    assert net.OutOk(u);
    if m.excess[u] > 0 && m.current[u] < |net.out[u]| {
      assert net.EdgeOk(net.out[u][m.current[u]]);
    }
    forall i | 0 <= i < m'.current[u]
      ensures i < |net.out[u]| && (Shut(net, labels, m', u, i) || Filling(net, labels, m', u, i, pc'))
    {
      assert i < m.current[u] ==> Shut(net, labels, m, u, i);
    }
    hide Shut, Filling;
  }

  /** Writes that leave the edges of u as they are. */
  lemma SweepGoesOn(net: Net, labels: seq<int>, start: Memory, m: Memory, t: nat, u: nat, pc: Pc)
    requires CanStep(net, labels, m, t, u, pc) && ThreadOk(net, labels, m, u, pc) && Sized(net, labels, start)
    requires SweepOk(net, labels, start, m, u, pc) && InRange(net, labels, u)
    requires pc.Begin? || pc.AddFlow? || pc.SubPartner? || pc.SubExcess? || pc.Deliver? || pc.LoadFlag? || pc.CasFlag?
    ensures
      var (m', pc') := Step(net, labels, m, t, u, pc);
      Sized(net, labels, m') && SweepOk(net, labels, start, m', u, pc')
  {
    StepKeepsSizes(net, labels, m, t, u, pc);
    var (m', pc') := Step(net, labels, m, t, u, pc);
    assert m'.current == m.current && m'.newLabel == m.newLabel && m'.excess[u] <= m.excess[u];
    assert pc.SubExcess? || m'.excess == m.excess;
    assert net.OutOk(u);
    forall i | 0 <= i < m.current[u] ensures Shut(net, labels, m', u, i) || Filling(net, labels, m', u, i, pc') {
      assert Shut(net, labels, m, u, i) || Filling(net, labels, m, u, i, pc);
      FlowMoves(net, labels, m, t, u, pc, net.out[u][i]);
    }
    hide Shut, Filling, Net.Valid;
  }

  lemma CheckSweeps(net: Net, labels: seq<int>, start: Memory, m: Memory, t: nat, u: nat)
    requires CanStep(net, labels, m, t, u, Check) && ThreadOk(net, labels, m, u, Check) && Sized(net, labels, start)
    requires SweepOk(net, labels, start, m, u, Check) && InRange(net, labels, u) && net.n <= MAX_INT
    requires m.excess[u] >= 0
    ensures
      var (m', pc') := Step(net, labels, m, t, u, Check);
      Sized(net, labels, m') && SweepOk(net, labels, start, m', u, pc')
  {
    StepKeepsSizes(net, labels, m, t, u, Check);
    var (m', pc') := Step(net, labels, m, t, u, Check);
    forall i | 0 <= i < m.current[u] ensures Shut(net, labels, m', u, i) {
      assert Shut(net, labels, m, u, i) || Filling(net, labels, m, u, i, Check);
    }
    hide Shut;
  }

  lemma ScanSweeps(net: Net, labels: seq<int>, start: Memory, m: Memory, t: nat, u: nat, pc: Pc)
    requires CanStep(net, labels, m, t, u, pc) && ThreadOk(net, labels, m, u, pc) && Sized(net, labels, start)
    requires SweepOk(net, labels, start, m, u, pc) && InRange(net, labels, u) && pc.Scan?
    requires forall e :: 0 <= e < |m.flow| ==> UphillKept(net, labels, start, m, e)
    ensures
      var (m', pc') := Step(net, labels, m, t, u, pc);
      Sized(net, labels, m') && SweepOk(net, labels, start, m', u, pc')
  {
    StepKeepsSizes(net, labels, m, t, u, pc);
    if pc.i < |net.out[u]| {
      ScanOne(net, labels, start, m, u, pc.i, pc.least);
    } else {
      ScanEnds(net, labels, start, m, t, u, pc);
    }
  }

  lemma ScanOne(net: Net, labels: seq<int>, start: Memory, m: Memory, u: nat, i: nat, least: int)
    requires Sized(net, labels, m) && Sized(net, labels, start) && u < net.n && i < |net.out[u]|
    requires InRange(net, labels, u) && Shut(net, labels, m, u, i) && LeastOf(net, labels, start, m, u, i, least)
    requires forall e :: 0 <= e < |m.flow| ==> UphillKept(net, labels, start, m, e)
    ensures
      var next := Min(least, if HasRoom(net, labels, m, u, i) then HeadLabel(net, labels, u, i) else net.n);
      LeastOf(net, labels, start, m, u, i + 1, next)
  {
    assert net.OutOk(u);
    var e := net.out[u][i];
    assert net.EdgeOk(e) && UphillKept(net, labels, start, m, e);
    assert WasOpen(net, labels, start, u, i) ==> HasRoom(net, labels, m, u, i);
    hide Net.Valid, UphillKept, HasRoom, WasOpen;
  }

  lemma ScanEnds(net: Net, labels: seq<int>, start: Memory, m: Memory, t: nat, u: nat, pc: Pc)
    requires CanStep(net, labels, m, t, u, pc) && Sized(net, labels, start) && InRange(net, labels, u)
    requires pc.Scan? && pc.i >= |net.out[u]| && SweepOk(net, labels, start, m, u, pc)
    ensures
      var (m', pc') := Step(net, labels, m, t, u, pc);
      Sized(net, labels, m') && SweepOk(net, labels, start, m', u, pc')
  {
    var m' := Step(net, labels, m, t, u, pc).0;
    assert m' == m.(newLabel := m.newLabel[u := Min(net.n, pc.least + 1)]);
    forall i: nat | i < |net.out[u]|
      ensures HasRoom(net, labels, m', u, i) == HasRoom(net, labels, m, u, i) && Shut(net, labels, m', u, i)
    {
      assert Shut(net, labels, m, u, i) || Filling(net, labels, m, u, i, pc);
    }
    hide HasRoom, Shut, WasOpen, HeadLabel, Net.Valid;
  }

  lemma OwnSweep(net: Net, labels: seq<int>, start: Memory, m: Memory, t: nat, u: nat, pc: Pc)
    requires CanStep(net, labels, m, t, u, pc) && ThreadOk(net, labels, m, u, pc) && Sized(net, labels, start)
    requires SweepOk(net, labels, start, m, u, pc) && InRange(net, labels, u) && net.n <= MAX_INT
    requires 0 <= m.excess[u] <= start.excess[u]
    requires forall e :: 0 <= e < |m.flow| ==> UphillKept(net, labels, start, m, e)
    ensures
      var (m', pc') := Step(net, labels, m, t, u, pc);
      Sized(net, labels, m') && SweepOk(net, labels, start, m', u, pc')
  {
    hide Sized, ThreadOk, SweepOk, UphillKept, InRange;
    match pc
    case Choose => ChooseSweeps(net, labels, start, m, t, u);
    case Check => CheckSweeps(net, labels, start, m, t, u);
    case Scan(_, _) => ScanSweeps(net, labels, start, m, t, u, pc);
    case Ended =>
    case _ => SweepGoesOn(net, labels, start, m, t, u, pc);
  }

  lemma FlowsDownStays(net: Net, labels: seq<int>, start: Memory, m: Memory, t: nat, u: nat, pc: Pc)
    requires CanStep(net, labels, m, t, u, pc) && ThreadOk(net, labels, m, u, pc) && Sized(net, labels, start)
    requires InRange(net, labels, u) ==> SweepOk(net, labels, start, m, u, pc)
    requires FlowsDown(net, labels, start, m)
    ensures
      var m' := Step(net, labels, m, t, u, pc).0;
      Sized(net, labels, m') && FlowsDown(net, labels, start, m')
  {
    StepKeepsSizes(net, labels, m, t, u, pc);
    var m' := Step(net, labels, m, t, u, pc).0;
    forall e | 0 <= e < |m'.flow| ensures UphillKept(net, labels, start, m', e) {
      assert UphillKept(net, labels, start, m, e);
      FlowMoves(net, labels, m, t, u, pc, e);
    }
    if pc.Deliver? {
      assert net.EdgeOk(pc.e);
      assert RichAbove(net, labels, start, labels[net.to[pc.e]]);
    }
    if pc.CasFlag? {
      assert RichAbove(net, labels, start, 0);
    }
    hide UphillKept, RichAbove, Net.Valid;
  }

  lemma RestStays(net: Net, labels: seq<int>, active: seq<nat>, m: Memory, t: nat, u: nat, pc: Pc)
    requires CanStep(net, labels, m, t, u, pc) && ThreadOk(net, labels, m, u, pc) && u in active
    requires OthersRest(net, labels, active, m)
    ensures
      var m' := Step(net, labels, m, t, u, pc).0;
      Sized(net, labels, m') && OthersRest(net, labels, active, m')
  {
    StepKeepsSizes(net, labels, m, t, u, pc);
    var m' := Step(net, labels, m, t, u, pc).0;
    assert !InRange(net, labels, u) ==> m' == m;
    hide Step, ThreadOk, CanStep, ShutUpTo;
    forall v | 0 <= v < net.n && AtRest(net, labels, active, v)
      ensures ShutUpTo(net, labels, m', v, m'.current[v], Ended)
    {
      if v != u {
        OthersUntouched(net, labels, m, t, u, pc, v);
        ShutStays(net, labels, m, t, u, pc, v, m.current[v], Ended);
      }
    }
  }

  /** The progress of a phase survives every step of every thread. */
  lemma StepKeepsPhase(net: Net, labels: seq<int>, start: Memory, base: seq<int>, active: seq<nat>, m: Memory,
      pcs: seq<Pc>, t: nat)
    requires PhaseInv(net, labels, start, active, m, pcs) && PushInv(net, labels, base, active, m, pcs)
    requires t < |pcs| && net.n <= MAX_INT && CanStep(net, labels, m, t, active[t], pcs[t])
    ensures
      var (m', pc') := Step(net, labels, m, t, active[t], pcs[t]);
      PhaseInv(net, labels, start, active, m', pcs[t := pc'])
  {
    var u, pc := active[t], pcs[t];
    var (m', pc') := Step(net, labels, m, t, u, pc);
    var pcs' := pcs[t := pc'];
    hide PushInv, Sized, ThreadOk, SweepOk, FlowsDown, OthersRest, Step, CanStep, InRange, UphillKept;
    ThreadsOk(net, labels, base, active, m, pcs);
    FlowsDownStays(net, labels, start, m, t, u, pc);
    RestStays(net, labels, active, m, t, u, pc);
    forall s | 0 <= s < |pcs'| && InRange(net, labels, active[s])
      ensures SweepOk(net, labels, start, m', active[s], pcs'[s])
    {
      if s == t {
        DownMeans(net, labels, start, m);
        OwnSweep(net, labels, start, m, t, u, pc);
      } else {
        OtherSweepStays(net, labels, start, m, t, u, pc, active[s], pcs[s]);
      }
    }
  }

  lemma ThreadsOk(net: Net, labels: seq<int>, base: seq<int>, active: seq<nat>, m: Memory, pcs: seq<Pc>)
    requires PushInv(net, labels, base, active, m, pcs)
    ensures Sized(net, labels, m) && Actives(net, active) && |pcs| == |active|
    ensures forall t :: 0 <= t < |pcs| ==> ThreadOk(net, labels, m, active[t], pcs[t])
    ensures forall v :: 0 <= v < net.n ==> m.excess[v] >= 0
  {
    hide FlowsOk, Balanced, ListsOk, NewsOk, LabelsOk, AllActive, ThreadOk, Work;
  }

  lemma DownMeans(net: Net, labels: seq<int>, start: Memory, m: Memory)
    requires Sized(net, labels, m) && Sized(net, labels, start) && FlowsDown(net, labels, start, m)
    ensures forall e :: 0 <= e < |m.flow| ==> UphillKept(net, labels, start, m, e)
    ensures forall v :: 0 <= v < net.n ==> m.excess[v] <= start.excess[v]
  {
  }

  // ---------- what a round achieves ----------

  /** The edges before the current one of each vertex are full or do not go down. */
  ghost predicate AllShut(net: Net, labels: seq<int>, m: Memory) {
    && Sized(net, labels, m)
    && forall u :: 0 <= u < net.n ==> ShutUpTo(net, labels, m, u, m.current[u], Ended)
  }

  lemma PhaseBegins(net: Net, labels: seq<int>, base: seq<int>, active: seq<nat>, m: Memory)
    requires RoundOk(net, labels, base, active, m) && AllShut(net, labels, m)
    ensures PhaseInv(net, labels, m, active, m, Pcs(|active|, Begin))
  {
    var pcs := Pcs(|active|, Begin);
    BeginsClear(net, labels, base, active, m);
    hide RoundOk, Net.Valid;
    forall t | 0 <= t < |pcs| && InRange(net, labels, active[t]) ensures SweepOk(net, labels, m, m, active[t], pcs[t]) {
      ShutMeans(net, labels, m, active[t], m.current[active[t]]);
    }
    hide ShutUpTo;
  }

  lemma BeginsClear(net: Net, labels: seq<int>, base: seq<int>, active: seq<nat>, m: Memory)
    requires RoundOk(net, labels, base, active, m)
    ensures Sized(net, labels, m) && Actives(net, active) && m.newLabel == labels && |m.pushes| == |active|
    ensures |m.arrived| == |m.pushed| == net.n && forall v :: 0 <= v < net.n ==> m.arrived[v] == 0 && !m.pushed[v]
    ensures forall t :: 0 <= t < |m.pushes| ==> m.pushes[t] == []
  {
    hide FlowsOk, Balanced, ListsOk, NewsOk, LabelsOk, AllActive, Threads, Work;
  }

  /** A thread that fills no edge counts none as filled. */
  lemma ShutMeans(net: Net, labels: seq<int>, m: Memory, u: nat, k: nat)
    requires Sized(net, labels, m) && u < net.n && ShutUpTo(net, labels, m, u, k, Ended)
    ensures forall pc :: ShutUpTo(net, labels, m, u, k, pc)
    ensures k <= |net.out[u]| && forall i :: 0 <= i < k ==> Shut(net, labels, m, u, i)
  {
    hide Shut, Sized;
  }

  /** What a phase has done for the vertices that took part: each has pushed all its excess, or has none of its
      edges left that goes down and has room, and then has a higher label. */
  ghost predicate Discharged(net: Net, labels: seq<int>, start: Memory, active: seq<nat>, m: Memory) {
    && Sized(net, labels, m) && Sized(net, labels, start) && Actives(net, active)
    && FlowsDown(net, labels, start, m)
    && (forall u :: u in active && InRange(net, labels, u) ==> Swept(net, labels, start, m, u))
    && forall v :: 0 <= v < net.n && AtRest(net, labels, active, v) ==> m.newLabel[v] == labels[v]
  }

  lemma PhaseEnds(net: Net, labels: seq<int>, start: Memory, base: seq<int>, active: seq<nat>, m: Memory, pcs: seq<Pc>)
    requires PhaseInv(net, labels, start, active, m, pcs) && PushInv(net, labels, base, active, m, pcs)
    requires forall t :: 0 <= t < |pcs| ==> pcs[t].Ended?
    ensures Discharged(net, labels, start, active, m)
  {
    LabelsMoved(net, labels, base, active, m, pcs);
    hide PushInv, Swept, FlowsDown, OthersRest, Sized;
    forall u | u in active && InRange(net, labels, u) ensures Swept(net, labels, start, m, u) {
      var t :| 0 <= t < |active| && active[t] == u;
      assert SweepOk(net, labels, start, m, active[t], pcs[t]);
    }
  }

  lemma LabelsMoved(net: Net, labels: seq<int>, base: seq<int>, active: seq<nat>, m: Memory, pcs: seq<Pc>)
    requires PushInv(net, labels, base, active, m, pcs)
    ensures Sized(net, labels, m) && Actives(net, active)
    ensures forall v :: 0 <= v < net.n && AtRest(net, labels, active, v) ==> m.newLabel[v] == labels[v]
    ensures forall v :: 0 <= v < net.n ==> 0 <= labels[v] <= net.n && 0 <= m.newLabel[v] <= net.n
  {
    hide FlowsOk, Balanced, ListsOk, NewsOk, AllActive, Threads, Work;
  }

  /** The edges of a vertex that still has excess are full or do not go down. */
  lemma NothingToPush(net: Net, labels: seq<int>, start: Memory, base: seq<int>, active: seq<nat>, m: Memory,
      pcs: seq<Pc>, u: nat)
    requires Discharged(net, labels, start, active, m) && PushInv(net, labels, base, active, m, pcs)
    requires |labels| == |m.excess| == |m.newLabel| == |net.out| == net.n
    requires u in active && u < net.n && 0 < labels[u] < net.n && m.excess[u] > 0
    ensures labels[u] < m.newLabel[u]
    ensures forall i :: 0 <= i < |net.out[u]| ==> NoPush(net, labels, m.flow, u, net.out[u][i])
  {
    assert Swept(net, labels, start, m, u);
    ShutMeans(net, labels, m, u, |net.out[u]|);
    forall i | 0 <= i < |net.out[u]| ensures NoPush(net, labels, m.flow, u, net.out[u][i]) {
      assert net.OutOk(u);
      var e := net.out[u][i];
      assert net.EdgeOk(e) && FlowOk(net, m, pcs, e);
      assert Shut(net, labels, m, u, i);
    }
  }

  /** New labels are not lower. */
  lemma LabelsRise(net: Net, labels: seq<int>, start: Memory, active: seq<nat>, m: Memory, v: nat)
    requires Discharged(net, labels, start, active, m) && v < net.n
    ensures |labels| == |m.newLabel| == |m.excess| == |m.current| == net.n && labels[v] <= m.newLabel[v]
    ensures labels[v] == m.newLabel[v] && v in active && InRange(net, labels, v) ==> m.excess[v] == 0
    ensures Sized(net, labels, m)
      && (ShutUpTo(net, labels, m, v, m.current[v], Ended) || AtRest(net, labels, active, v))
  {
    hide FlowsDown, ShutUpTo, Net.Valid;
    if !AtRest(net, labels, active, v) {
      assert Swept(net, labels, start, m, v);
      NoneShut(net, labels, m, v);
    }
  }

  lemma NoneShut(net: Net, labels: seq<int>, m: Memory, v: nat)
    requires Sized(net, labels, m) && v < net.n
    ensures ShutUpTo(net, labels, m, v, 0, Ended)
  {
  }

  /** Raising labels elsewhere leaves a shut edge shut. */
  lemma ShutUnderHigher(net: Net, labels: seq<int>, higher: seq<int>, m: Memory, m': Memory, u: nat, k: nat)
    requires Sized(net, labels, m) && Sized(net, higher, m') && m'.flow == m.flow && u < net.n
    requires |labels| == |higher| == net.n
    requires (forall v :: 0 <= v < net.n ==> labels[v] <= higher[v]) && (higher[u] == labels[u] || k == 0)
    requires ShutUpTo(net, labels, m, u, k, Ended)
    ensures ShutUpTo(net, higher, m', u, k, Ended)
  {
    ShutMeans(net, labels, m, u, k);
    forall i | 0 <= i < k ensures Shut(net, higher, m', u, i) {
      assert Shut(net, labels, m, u, i);
      assert net.OutOk(u);
      assert net.EdgeOk(net.out[u][i]);
    }
  }

  /** With the new labels taken over, the next phase can begin. */
  lemma ShutAgain(net: Net, labels: seq<int>, start: Memory, active: seq<nat>, m: Memory, pcs: seq<Pc>, m': Memory)
    requires PhaseInv(net, labels, start, active, m, pcs) && Discharged(net, labels, start, active, m)
    requires Sized(net, m.newLabel, m') && m'.flow == m.flow && m'.current == m.current
    requires |labels| == |m.newLabel| == |m.current| == |m'.current| == net.n
    ensures AllShut(net, m.newLabel, m')
  {
    hide FlowsDown, ShutUpTo, Swept, Sized, Sweeps;
    forall v | 0 <= v < net.n ensures labels[v] <= m.newLabel[v] {
      LabelsRise(net, labels, start, active, m, v);
    }
    forall u | 0 <= u < net.n ensures ShutUpTo(net, m.newLabel, m', u, m'.current[u], Ended) {
      RelabelResets(net, labels, start, active, m, u);
      LabelsRise(net, labels, start, active, m, u);
      assert ShutUpTo(net, labels, m, u, m.current[u], Ended);
      ShutUnderHigher(net, labels, m.newLabel, m, m', u, m.current[u]);
    }
  }

  lemma RelabelResets(net: Net, labels: seq<int>, start: Memory, active: seq<nat>, m: Memory, u: nat)
    requires Discharged(net, labels, start, active, m) && u < net.n
    ensures |labels| == |m.newLabel| == |m.current| == net.n && (m.newLabel[u] == labels[u] || m.current[u] == 0)
  {
    hide FlowsDown, ShutUpTo, Relabelled;
    if !AtRest(net, labels, active, u) {
      assert Swept(net, labels, start, m, u);
    }
  }

  // ---------- how many rounds there can be ----------

  /** The highest label in range of a vertex with excess among the first k; 0 if there is none. */
  ghost function Peak(n: nat, labels: seq<int>, excess: seq<int>, k: nat): (h: nat)
    requires k <= |labels| == |excess|
    ensures n > 0 ==> h < n
    ensures forall v :: 0 <= v < k && 0 < labels[v] < n && excess[v] > 0 ==> labels[v] <= h
    ensures h > 0 ==> exists v :: 0 <= v < k && labels[v] == h && h < n && excess[v] > 0
  {
    if k == 0 then 0
    else
      var h := Peak(n, labels, excess, k - 1);
      if 0 < labels[k - 1] < n && excess[k - 1] > 0 && labels[k - 1] > h then labels[k - 1] else h
  }

  /** How far the labels can still rise, and then how far down the highest excess can go. */
  ghost function Potential(n: nat, labels: seq<int>, excess: seq<int>): int
    requires |labels| == |excess| == n
  {
    (n * n - Sum(labels)) * n + Peak(n, labels, excess, n)
  }

  lemma {:induction false} SumRises(a: seq<int>, b: seq<int>)
    requires |a| == |b| && forall k :: 0 <= k < |a| ==> a[k] <= b[k]
    ensures Sum(a) <= Sum(b) && (a != b ==> Sum(a) < Sum(b))
  {
    if a != [] {
      SumRises(a[1..], b[1..]);
      assert a == [a[0]] + a[1..] && b == [b[0]] + b[1..];
    }
  }

  lemma {:induction false} SumAtMost(s: seq<int>, c: nat)
    requires forall k :: 0 <= k < |s| ==> 0 <= s[k] <= c
    ensures 0 <= Sum(s) <= |s| * c
  {
    if s != [] {
      SumAtMost(s[1..], c);
    }
  }

  lemma PotentialBounds(n: nat, labels: seq<int>, excess: seq<int>)
    requires |labels| == |excess| == n && forall v :: 0 <= v < n ==> 0 <= labels[v] <= n
    ensures 0 <= Potential(n, labels, excess) <= n * n * n + n
  {
    SumAtMost(labels, n);
    Mul(n * n - Sum(labels), n * n, n);
  }

  lemma Mul(a: int, b: int, c: nat)
    requires 0 <= a <= b
    ensures 0 <= a * c <= b * c
  {
  }

  /** After a round in which no label has risen the highest excess has come down. */
  lemma PeakFalls(net: Net, labels: seq<int>, start: Memory, active: seq<nat>, m: Memory, excess: seq<int>)
    requires Discharged(net, labels, start, active, m) && m.newLabel == labels && |excess| == net.n
    requires |labels| == |start.excess| == |m.excess| == |m.arrived| == net.n
    requires AllActive(net, labels, start.excess, active)
    requires forall v :: 0 <= v < net.n ==> excess[v] == m.excess[v] + m.arrived[v]
    ensures
      var before, after := Peak(net.n, labels, start.excess, net.n), Peak(net.n, labels, excess, net.n);
      after < before || after == 0
  {
    var before, after := Peak(net.n, labels, start.excess, net.n), Peak(net.n, labels, excess, net.n);
    if after > 0 {
      var v :| 0 <= v < net.n && labels[v] == after && after < net.n && excess[v] > 0;
      assert InRange(net, labels, v);
      LabelsRise(net, labels, start, active, m, v);
      assert m.excess[v] <= 0;
      assert RichAbove(net, labels, start, labels[v]);
      var u: nat :| u < net.n && InRange(net, labels, u) && start.excess[u] > 0 && labels[u] > labels[v];
      assert labels[u] <= before;
    }
  }

  /** Every round lowers the potential, as long as some vertex in range has excess. */
  lemma PotentialFalls(net: Net, labels: seq<int>, start: Memory, active: seq<nat>, m: Memory, excess: seq<int>)
    requires Discharged(net, labels, start, active, m) && |excess| == net.n
    requires |labels| == |m.newLabel| == |start.excess| == |m.excess| == |m.arrived| == net.n
    requires AllActive(net, labels, start.excess, active)
    requires forall v :: 0 <= v < net.n ==> excess[v] == m.excess[v] + m.arrived[v]
    ensures Peak(net.n, labels, start.excess, net.n) > 0 ==>
      Potential(net.n, m.newLabel, excess) < Potential(net.n, labels, start.excess)
  {
    hide Discharged, AllActive, Sum, Potential, Peak;
    var n := net.n;
    forall v | 0 <= v < n ensures labels[v] <= m.newLabel[v] {
      LabelsRise(net, labels, start, active, m, v);
    }
    if m.newLabel == labels {
      PeakFalls(net, labels, start, active, m, excess);
      SamePotential(n, labels, start.excess, excess);
    } else {
      SumRises(labels, m.newLabel);
      LessPotential(n, labels, start.excess, m.newLabel, excess);
    }
  }

  lemma SamePotential(n: nat, labels: seq<int>, excess: seq<int>, excess': seq<int>)
    requires |labels| == |excess| == |excess'| == n
    ensures Potential(n, labels, excess') - Potential(n, labels, excess)
      == Peak(n, labels, excess', n) - Peak(n, labels, excess, n)
  {
    hide Peak, Sum;
  }

  lemma LessPotential(n: nat, labels: seq<int>, excess: seq<int>, labels': seq<int>, excess': seq<int>)
    requires |labels| == |excess| == |labels'| == |excess'| == n && Sum(labels) < Sum(labels')
    ensures Potential(n, labels', excess') < Potential(n, labels, excess) || n == 0
  {
    OneLess(n * n - Sum(labels), n * n - Sum(labels'), n);
    hide Sum;
  }

  lemma OneLess(a: int, b: int, c: nat)
    requires b < a
    ensures b * c + c <= a * c
  {
    assert a * c == b * c + (a - b) * c;
    Mul(1, a - b, c);
  }

  /** With no excess in range there is nothing to push, and no vertex is active next. */
  lemma NobodyPushes(net: Net, labels: seq<int>, start: Memory, active: seq<nat>, m: Memory)
    requires Discharged(net, labels, start, active, m)
    requires |labels| == |start.excess| == net.n && Peak(net.n, labels, start.excess, net.n) == 0
    ensures Concat(m.pushes) == []
  {
    assert !RichAbove(net, labels, start, 0);
    NothingListed(m.pushes);
  }

  lemma {:induction false} NothingListed(lists: seq<seq<nat>>)
    requires forall t :: 0 <= t < |lists| ==> lists[t] == []
    ensures Concat(lists) == []
  {
    if lists != [] {
      NothingListed(lists[..|lists| - 1]);
    }
  }

  // ---------- the algorithm ----------

  /** What each vertex begins with: the source has all there is. */
  function Supply(n: nat, source: nat): seq<int> {
    seq(n, v requires 0 <= v < n => if v == source then MAX_INT else 0)
  }

  class MaxFlow {
    const net: Net
    var flow: seq<int>
    var excess: seq<int>
    var arrived: seq<int>
    var current: seq<nat>
    var labels: seq<int>
    var newLabel: seq<int>
    var pushed: seq<bool>
    var pushes: seq<seq<nat>>
    var active: seq<nat>

    ghost function Mem(): Memory
      reads this
    {
      Memory(flow, excess, arrived, current, newLabel, pushed, pushes)
    }

    ghost function Shade(): Shadows
      reads this
    {
      Shadows(labels, excess, arrived, pushed)
    }

    /** Between rounds, with what each vertex began with. */
    ghost predicate Ready(base: seq<int>)
      reads this
    {
      RoundOk(net, labels, base, active, Mem()) && (net.n <= MAX_INT ==> AllShut(net, labels, Mem()))
    }

    /** No flow yet; the source has all the excess there is.  On a network of paired edges the state is settled. */
    constructor (net: Net, source: nat)
      requires source < net.n
      ensures this.net == net && (net.Valid() ==> Ready(Supply(net.n, source)))
      ensures |excess| == net.n && |flow| == |net.from| && |labels| == net.n && active == [] && pushes == []
      ensures forall v :: 0 <= v < net.n ==> excess[v] == if v == source then 0x7fff_ffff else 0
      ensures (forall e :: 0 <= e < |flow| ==> flow[e] == 0) && forall v :: 0 <= v < net.n ==> labels[v] == 0
    {
      this.net := net;
      flow, excess := seq(|net.from|, _ => 0), Supply(net.n, source);
      arrived, current := seq(net.n, _ => 0), seq(net.n, _ => 0);
      labels, newLabel := seq(net.n, _ => 0), seq(net.n, _ => 0);
      pushed, pushes, active := seq(net.n, _ => false), [], [];
      new;
      if net.Valid() {
        NoFlowSettled(net, excess, flow);
        SettledBegins(net, labels, excess, active, Mem());
        FreshShut(net, labels, Mem());
      }
    }

    /** One memory access of thread t, for vertex u. */
    method Access(t: nat, u: nat, pc: Pc) returns (pc': Pc)
      requires CanStep(net, labels, Mem(), t, u, pc)
      modifies `flow, `excess, `arrived, `current, `newLabel, `pushed, `pushes
      ensures (Mem(), pc') == Step(net, labels, old(Mem()), t, u, pc)
    {
      match pc
      case Begin => pc' := if 0 < labels[u] < net.n then Choose else Ended;
      case Choose =>
        assert net.OutOk(u);
        if excess[u] > 0 && current[u] < |net.out[u]| {
          var e := net.out[u][current[u]];
          assert net.EdgeOk(e);
          if flow[e] < net.cap[e] && labels[u] > labels[net.to[e]] {
            var release := Min(net.cap[e] - flow[e], excess[u]);
            if release == net.cap[e] - flow[e] {
              current := current[u := current[u] + 1];
            }
            pc' := AddFlow(e, release);
          } else {
            current := current[u := current[u] + 1];
            pc' := Choose;
          }
        } else {
          pc' := if excess[u] > 0 then LoadFlag(u, true) else Check;
        }
      case AddFlow(e, r) =>
        flow := flow[e := flow[e] + r];
        pc' := SubPartner(e, r);
      case SubPartner(e, r) =>
        assert net.EdgeOk(e);
        flow := flow[net.partner[e] := flow[net.partner[e]] - r];
        pc' := SubExcess(e, r);
      case SubExcess(e, r) =>
        excess := excess[u := excess[u] - r];
        pc' := Deliver(e, r);
      case Deliver(e, r) =>
        assert net.EdgeOk(e);
        arrived := arrived[net.to[e] := arrived[net.to[e]] + r];
        pc' := LoadFlag(net.to[e], false);
      case LoadFlag(v, self) => pc' := if pushed[v] then After(self) else CasFlag(v, self);
      case CasFlag(v, self) =>
        if !pushed[v] {
          pushed := pushed[v := true];
          pushes := pushes[t := pushes[t] + [v]];
        }
        pc' := After(self);
      case Check =>
        if current[u] == |net.out[u]| {
          current := current[u := 0];
          pc' := Scan(0, MAX_INT);
        } else {
          pc' := Ended;
        }
      case Scan(i, least) =>
        assert net.OutOk(u);
        if i < |net.out[u]| {
          var e := net.out[u][i];
          assert net.EdgeOk(e);
          pc' := Scan(i + 1, Min(least, if flow[e] < net.cap[e] then labels[net.to[e]] else net.n));
        } else {
          newLabel := newLabel[u := Min(net.n, least + 1)];
          pc' := Ended;
        }
      case Ended => pc' := Ended;
    }

    /** All active vertices push and relabel, in any interleaving.  An active vertex that still has excess has no
        edge left with room that goes down, and a higher label. */
    method PushPhase(ghost base: seq<int>) returns (ghost pcs': seq<Pc>)
      requires Ready(base) && |pushes| == |active|
      modifies `flow, `excess, `arrived, `current, `newLabel, `pushed, `pushes
      ensures PushInv(net, labels, base, active, Mem(), pcs') && |pcs'| == |active|
      ensures forall t :: 0 <= t < |pcs'| ==> pcs'[t].Ended?
      ensures net.n <= 0x7fff_ffff ==> Discharged(net, labels, old(Mem()), active, Mem())
      ensures net.n <= 0x7fff_ffff ==> PhaseInv(net, labels, old(Mem()), active, Mem(), pcs')
      ensures net.n <= 0x7fff_ffff ==>
        forall u :: u in active && u < net.n && 0 < labels[u] < net.n && excess[u] > 0 ==> labels[u] < newLabel[u]
      ensures net.n <= 0x7fff_ffff ==>
        forall u, i :: u in active && u < net.n && 0 < labels[u] < net.n && excess[u] > 0 && 0 <= i < |net.out[u]| ==>
          NoPush(net, labels, flow, u, net.out[u][i])
    {
      hide PushInv, LeftsAre, Work, PhaseInv, AllShut, RoundOk, Discharged, NoPush;
      ghost var start := Mem();
      var pcs: seq<Pc> := seq(|active|, _ => Begin);
      assert pcs == Pcs(|active|, Begin);
      RoundMeans(net, labels, base, active, start);
      ghost var left := Lefts(net, labels, base, active, Mem(), pcs);
      if net.n <= MAX_INT {
        PhaseBegins(net, labels, base, active, start);
      }
      while exists t :: 0 <= t < |pcs| && !pcs[t].Ended?
        invariant PushInv(net, labels, base, active, Mem(), pcs) && |pcs| == |active|
        invariant net.n <= MAX_INT ==> PhaseInv(net, labels, start, active, Mem(), pcs)
        invariant LeftsAre(net, active, Mem(), pcs, left)
        decreases Work(Itself, left)
      {
        var t :| 0 <= t < |pcs| && !pcs[t].Ended?;
        pcs, left := PushOne(base, pcs, t, left, start);
      }
      pcs' := pcs;
      PhaseSizes(net, labels, base, active, Mem(), pcs);
      if net.n <= MAX_INT {
        PhaseEnds(net, labels, start, base, active, Mem(), pcs);
        forall u | u in active && u < net.n && 0 < labels[u] < net.n && excess[u] > 0
          ensures labels[u] < newLabel[u]
          ensures forall i :: 0 <= i < |net.out[u]| ==> NoPush(net, labels, flow, u, net.out[u][i])
        {
          NothingToPush(net, labels, start, base, active, Mem(), pcs, u);
        }
      }
    }

    method PushOne(ghost base: seq<int>, pcs: seq<Pc>, t: nat, ghost left: seq<nat>, ghost start: Memory)
      returns (pcs': seq<Pc>, ghost left': seq<nat>)
      requires PushInv(net, labels, base, active, Mem(), pcs) && LeftsAre(net, active, Mem(), pcs, left)
      requires net.n <= MAX_INT ==> PhaseInv(net, labels, start, active, Mem(), pcs)
      requires t < |pcs| == |active| && !pcs[t].Ended?
      modifies `flow, `excess, `arrived, `current, `newLabel, `pushed, `pushes
      ensures PushInv(net, labels, base, active, Mem(), pcs') && LeftsAre(net, active, Mem(), pcs', left')
        && |pcs'| == |pcs|
      ensures net.n <= MAX_INT ==> PhaseInv(net, labels, start, active, Mem(), pcs')
      ensures Work(Itself, left') < Work(Itself, left)
    {
      hide *;
      InvMeansCanStep(net, labels, base, active, Mem(), pcs, t);
      StepKeepsInv(net, labels, base, active, Mem(), pcs, t);
      if net.n <= MAX_INT {
        StepKeepsPhase(net, labels, start, base, active, Mem(), pcs, t);
      }
      left' := LeftsAfter(net, labels, base, active, Mem(), pcs, t, left);
      var pc := Access(t, active[t], pcs[t]);
      pcs' := pcs[t := pc];
    }

    method FoldAccess(u: nat, list: seq<nat>, pc: FoldPc) returns (pc': FoldPc)
      requires CanFold(net.n, Mem(), Shade(), u, list, pc)
      modifies `labels, `excess, `arrived, `pushed
      ensures (Shade(), pc') == FoldStep(net.n, old(Mem()), old(Shade()), u, list, pc)
    {
      match pc
      case SetLabel =>
        labels := labels[u := newLabel[u]];
        pc' := NextEntry(list, 0);
      case AddShadow(i) =>
        excess := excess[list[i] := excess[list[i]] + arrived[list[i]]];
        pc' := ClearShadow(i);
      case ClearShadow(i) =>
        arrived := arrived[list[i] := 0];
        pc' := ClearFlag(i);
      case ClearFlag(i) =>
        pushed := pushed[list[i] := false];
        pc' := NextEntry(list, i + 1);
      case Folded => pc' := Folded;
    }

    /** The shadows are folded in, in any interleaving; what was pushed is active next. */
    method FoldPhase(ghost base: seq<int>, ghost pcs: seq<Pc>, ghost l0: seq<int>, ghost start: Memory)
      requires PushInv(net, labels, base, active, Mem(), pcs) && |active| == |pushes| && labels == l0
      requires forall t :: 0 <= t < |pcs| ==> pcs[t].Ended?
      requires net.n <= MAX_INT ==> PhaseInv(net, l0, start, active, Mem(), pcs)
      requires net.n <= MAX_INT ==> Discharged(net, l0, start, active, Mem())
      modifies `labels, `excess, `arrived, `pushed, `pushes, `active
      ensures Ready(base) && |pushes| == |active| && active == Concat(old(pushes)) && labels == newLabel
      ensures |excess| == |old(excess)| == |old(arrived)| == net.n
      ensures forall v :: 0 <= v < net.n ==> excess[v] == old(excess[v]) + old(arrived[v])
    {
      hide PushInv, FoldInv, RoundOk, Concat, Discharged, PhaseInv, AllShut, Ready, Net.Valid;
      ghost var m := Mem();
      ghost var folds := FoldAll(base, pcs);
      FoldEnds(net, l0, base, active, m, pcs, Shade(), folds);
      RoundEnds(net, l0, base, active, m, pcs, Shade(), folds);
      PhaseSizes(net, l0, base, active, m, pcs);
      ghost var was := active;
      active := Concat(pushes);
      pushes := seq(|active|, _ => []);
      RoundMeans(net, labels, base, active, Mem());
      if net.n <= MAX_INT {
        ShutAgain(net, l0, start, was, m, pcs, Mem());
      }
      ReadyIs(base);
    }

    method FoldAll(ghost base: seq<int>, ghost pcs: seq<Pc>) returns (ghost folds': seq<FoldPc>)
      requires PushInv(net, labels, base, active, Mem(), pcs) && |active| == |pushes|
      modifies `labels, `excess, `arrived, `pushed
      ensures FoldInv(net, old(labels), active, old(Mem()), Shade(), folds')
      ensures forall t :: 0 <= t < |folds'| ==> folds'[t].Folded?
    {
      hide FoldInv, FoldLeftsAre, PushInv, Work, Net.Valid;
      ghost var m, l0 := Mem(), labels;
      var folds: seq<FoldPc> := seq(|active|, _ => SetLabel);
      ghost var left := FoldStarts(net, labels, base, active, m, pcs, folds);
      while exists t :: 0 <= t < |folds| && !folds[t].Folded?
        invariant FoldInv(net, l0, active, m, Shade(), folds) && FoldLeftsAre(m, folds, left)
        invariant |folds| == |active|
        decreases Work(Itself, left)
      {
        var t :| 0 <= t < |folds| && !folds[t].Folded?;
        folds, left := FoldOne(m, l0, folds, t, left);
      }
      folds' := folds;
    }

    method FoldOne(ghost m: Memory, ghost l0: seq<int>, folds: seq<FoldPc>, t: nat, ghost left: seq<nat>)
      returns (folds': seq<FoldPc>, ghost left': seq<nat>)
      requires FoldInv(net, l0, active, m, Shade(), folds) && FoldLeftsAre(m, folds, left)
      requires newLabel == m.newLabel && pushes == m.pushes && t < |folds| == |active| && !folds[t].Folded?
      modifies `labels, `excess, `arrived, `pushed
      ensures FoldInv(net, l0, active, m, Shade(), folds') && FoldLeftsAre(m, folds', left') && |folds'| == |folds|
      ensures Work(Itself, left') < Work(Itself, left)
    {
      assert t < |pushes|;
      hide FoldInv, FoldLeftsAre, FoldStep, CanFold, Work, Net.Valid;
      FoldStepKeepsInv(net, l0, active, m, Shade(), folds, t);
      left' := FoldLeftsAfter(net, l0, active, m, Shade(), folds, t, left);
      SameFold(net, m, Mem(), Shade(), active[t], pushes[t], folds[t]);
      var pc := FoldAccess(active[t], pushes[t], folds[t]);
      folds' := folds[t := pc];
    }

    /** Ready, spelled out. */
    lemma ReadyIs(base: seq<int>)
      requires RoundOk(net, labels, base, active, Mem()) && (net.n <= MAX_INT ==> AllShut(net, labels, Mem()))
      ensures Ready(base)
    {
    }

    lemma ReadyMeans(base: seq<int>)
      requires Ready(base)
      ensures RoundOk(net, labels, base, active, Mem()) && |labels| == |excess| == net.n
      ensures AllActive(net, labels, excess, active) && (net.n <= MAX_INT ==> AllShut(net, labels, Mem()))
    {
      hide PushInv, AllShut;
      RoundMeans(net, labels, base, active, Mem());
    }

    /** One synchronous round; mid is the memory between its two phases.  While vertices stay active the round
        lowers the potential. */
    method Round(ghost base: seq<int>) returns (ghost mid: Memory)
      requires Ready(base) && |pushes| == |active|
      modifies this
      ensures Ready(base) && |pushes| == |active|
      ensures net.n <= 0x7fff_ffff ==> Discharged(net, old(labels), old(Mem()), old(active), mid)
      ensures flow == mid.flow && labels == mid.newLabel && active == Concat(mid.pushes)
      ensures |excess| == |mid.excess| == |mid.arrived| == |labels| == |old(labels)| == |old(excess)| == net.n
      ensures forall v :: 0 <= v < net.n ==> excess[v] == mid.excess[v] + mid.arrived[v]
      ensures net.n <= 0x7fff_ffff && active != [] ==>
        Potential(net.n, labels, excess) < Potential(net.n, old(labels), old(excess))
    {
      hide PushInv, RoundOk, Concat, Discharged, PhaseInv, AllShut, Ready, NoPush, Potential, Peak, AllActive;
      ReadyMeans(base);
      ghost var l0, start, a0 := labels, Mem(), active;
      ghost var pcs := PushPhase(base);
      SamePushes(net, labels, base, active, Mem(), pcs);
      mid := Mem();
      PhaseSizes(net, labels, base, active, mid, pcs);
      FoldPhase(base, pcs, l0, start);
      ReadyMeans(base);
      if net.n <= MAX_INT {
        PotentialFalls(net, l0, start, a0, mid, excess);
        if Peak(net.n, l0, start.excess, net.n) == 0 {
          NobodyPushes(net, l0, start, a0, mid);
        }
      }
    }

    /** New labels from a search; the search itself is a parameter. */
    method GlobalRelabel(d: seq<int>, ghost base: seq<int>)
      requires Ready(base) && |d| == net.n && forall v :: 0 <= v < net.n ==> 0 <= d[v] <= net.n
      modifies this
      ensures Ready(base) && |pushes| == |active| && labels == d && flow == old(flow) && excess == old(excess)
      ensures |excess| == |current| == net.n && forall u :: 0 <= u < net.n ==> current[u] == 0
      ensures forall u: nat :: u in active <==> u < net.n && d[u] != 0 && d[u] < net.n && excess[u] > 0
    {
      hide Settled, RoundOk, PushInv, Net.Valid, AllActive, AllShut, Ready;
      ReadyMeans(base);
      RoundMeans(net, labels, base, active, Mem());
      BeginsClear(net, labels, base, active, Mem());
      RoundIsSettled(net, labels, base, active, Mem(), Pcs(|active|, Begin));
      current := seq(net.n, _ => 0);
      newLabel, labels := d, d;
      active := Eligible();
      pushes := seq(|active|, _ => []);
      assert AllActive(net, labels, excess, active) by { EligibleIsAll(net, labels, excess, active); }
      SettledBegins(net, labels, base, active, Mem());
      FreshShut(net, labels, Mem());
      ReadyIs(base);
    }

    /** The vertices with excess and a label in range. */
    method Eligible() returns (vs: seq<nat>)
      requires |labels| == |excess| == net.n
      ensures Actives(net, vs)
      ensures forall u: nat :: u in vs <==> u < net.n && labels[u] != 0 && labels[u] < net.n && excess[u] > 0
    {
      vs := [];
      for v := 0 to net.n
        invariant AllDifferent(vs)
        invariant forall u: nat :: u in vs <==> u < v && labels[u] != 0 && labels[u] < net.n && excess[u] > 0
      {
        if labels[v] != 0 && labels[v] < net.n && excess[v] > 0 {
          vs := vs + [v];
        }
      }
      assert forall t :: 0 <= t < |vs| ==> vs[t] in vs;
    }

    /** Rounds until no vertex is active, relabelling now and then with labels from anywhere; `choices`
        stands for the clock: each entry is a search to relabel with, or empty for none. */
    method Rounds(ghost base: seq<int>, choices: seq<seq<int>>) returns (rounds: nat)
      requires Ready(base) && |pushes| == |active|
      requires forall k :: 0 <= k < |choices| && choices[k] != [] ==> |choices[k]| == net.n
      requires forall k, v :: 0 <= k < |choices| && 0 <= v < |choices[k]| ==> 0 <= choices[k][v] <= net.n
      modifies this
      ensures Ready(base) && |pushes| == |active|
      ensures rounds <= |choices| && (active != [] ==> rounds == |choices|)
      ensures rounds > 0 && choices[rounds - 1] != [] ==> labels == choices[rounds - 1]
      ensures net.n <= 0x7fff_ffff ==> forall j :: 0 <= j <= |choices| && QuietFrom(choices, j) ==>
        |choices| - j <= net.n * net.n * net.n + net.n || active == []
    {
      hide RoundOk, AllShut, Potential, QuietFrom, Ready, AllActive, Sum, FlowOver, Net.Valid;
      var k := 0;
      ghost var since := 0;
      ghost var most := net.n * net.n * net.n + net.n;
      StartBounded(base);
      while active != [] && k < |choices|
        invariant Ready(base) && |pushes| == |active| && |labels| == |excess| == net.n
        invariant k > 0 && k <= |choices| && choices[k - 1] != [] ==> labels == choices[k - 1]
        invariant since <= k <= |choices| && forall j :: 0 <= j < since && j <= |choices| ==> !QuietFrom(choices, j)
        invariant net.n <= MAX_INT && active != [] ==> Potential(net.n, labels, excess) + (k - since) <= most
        decreases |choices| - k
      {
        ghost var mid := Round(base);
        if choices[k] != [] {
          NotQuiet(choices, k);
          GlobalRelabel(choices[k], base);
          since := k + 1;
          StartBounded(base);
        }
        k := k + 1;
      }
      rounds := k;
      StartBounded(base);
    }

    /** The loop from the start on.  All flow comes from the source; when the loop ends, only vertices with labels
        0 or n have excess; and it ends at the latest n^3 + n rounds after the last relabelling. */
    method Run(ghost source: nat, choices: seq<seq<int>>) returns (rounds: nat)
      requires source < net.n && Ready(Supply(net.n, source)) && |pushes| == |active|
      requires forall k :: 0 <= k < |choices| && choices[k] != [] ==> |choices[k]| == net.n
      requires forall k, v :: 0 <= k < |choices| && 0 <= v < |choices[k]| ==> 0 <= choices[k][v] <= net.n
      modifies this
      ensures Ready(Supply(net.n, source)) && Settled(net, Supply(net.n, source), flow, excess)
      ensures forall v :: 0 <= v < net.n && v != source ==> excess[v] == -OutFlow(net, flow, v)
      ensures excess[source] == 0x7fff_ffff - OutFlow(net, flow, source) && Sum(excess) == 0x7fff_ffff
      ensures |labels| == |excess| == net.n
      ensures active == [] ==> forall v :: 0 <= v < net.n && 0 < labels[v] < net.n ==> excess[v] == 0
      ensures rounds <= |choices| && (active != [] ==> rounds == |choices|)
      ensures rounds > 0 && choices[rounds - 1] != [] ==> labels == choices[rounds - 1]
      ensures net.n <= 0x7fff_ffff ==> forall j :: 0 <= j <= |choices| && QuietFrom(choices, j) ==>
        |choices| - j <= net.n * net.n * net.n + net.n || active == []
    {
      hide RoundOk, AllShut, QuietFrom, Ready, AllActive, Sum, OutFlow, Supply, Settled;
      ghost var base := Supply(net.n, source);
      rounds := Rounds(base, choices);
      ReadyMeans(base);
      RoundMeans(net, labels, base, active, Mem());
      BeginsClear(net, labels, base, active, Mem());
      RoundIsSettled(net, labels, base, active, Mem(), Pcs(|active|, Begin));
      SourceSupplies(net, source, flow, excess);
      NoneLeft(net, labels, excess, active);
    }

    lemma StartBounded(base: seq<int>)
      requires Ready(base)
      ensures |labels| == |excess| == net.n
      ensures 0 <= Potential(net.n, labels, excess) <= net.n * net.n * net.n + net.n
    {
      ReadyMeans(base);
      RoundMeans(net, labels, base, active, Mem());
      hide *;
      PotentialBounds(net.n, labels, excess);
    }
  }

  /** The flow over all edges from v. */
  ghost function OutFlow(net: Net, flow: seq<int>, v: nat): int {
    if v < |net.out| && forall i :: 0 <= i < |net.out[v]| ==> net.out[v][i] < |flow| then FlowOver(flow, net.out[v])
      else 0
  }

  /** What a settled state says when the source alone began with excess. */
  lemma SourceSupplies(net: Net, source: nat, flow: seq<int>, excess: seq<int>)
    requires Settled(net, Supply(net.n, source), flow, excess) && source < net.n
    ensures |excess| == net.n && Sum(excess) == 0x7fff_ffff && forall v :: 0 <= v < net.n ==> excess[v] >= 0
    ensures forall v :: 0 <= v < net.n && v != source ==> excess[v] == -OutFlow(net, flow, v)
    ensures excess[source] == 0x7fff_ffff - OutFlow(net, flow, source)
  {
    SourceSum(Supply(net.n, source), source);
    hide Sum, FlowOver;
    forall v | 0 <= v < net.n ensures excess[v] + OutFlow(net, flow, v) == Supply(net.n, source)[v] {
      assert net.OutOk(v);
    }
  }

  lemma NoneLeft(net: Net, labels: seq<int>, excess: seq<int>, active: seq<nat>)
    requires |labels| == |excess| == net.n && AllActive(net, labels, excess, active)
    ensures active == [] ==> forall v :: 0 <= v < net.n && 0 < labels[v] < net.n ==> excess[v] <= 0
  {
  }

  /** From entry j on there is no relabelling. */
  ghost predicate QuietFrom(choices: seq<seq<int>>, j: nat) {
    forall k :: j <= k < |choices| ==> choices[k] == []
  }

  lemma NotQuiet(choices: seq<seq<int>>, k: nat)
    requires k < |choices| && choices[k] != []
    ensures forall j :: 0 <= j <= k ==> !QuietFrom(choices, j)
  {
  }

  /** With all current edges at the start nothing need be shut. */
  lemma FreshShut(net: Net, labels: seq<int>, m: Memory)
    requires Sized(net, labels, m) && forall u :: 0 <= u < net.n ==> m.current[u] == 0
    ensures AllShut(net, labels, m)
  {
  }

  lemma RoundMeans(net: Net, labels: seq<int>, base: seq<int>, active: seq<nat>, m: Memory)
    requires RoundOk(net, labels, base, active, m)
    ensures Sized(net, labels, m) && |labels| == |m.excess| == |m.current| == net.n
      && AllActive(net, labels, m.excess, active)
    ensures PushInv(net, labels, base, active, m, Pcs(|active|, Begin))
    ensures forall v :: 0 <= v < net.n ==> 0 <= labels[v] <= net.n
  {
    hide FlowsOk, Balanced, ListsOk, NewsOk, Threads, Work;
  }

  lemma PhaseSizes(net: Net, labels: seq<int>, base: seq<int>, active: seq<nat>, m: Memory, pcs: seq<Pc>)
    requires PushInv(net, labels, base, active, m, pcs)
    ensures |labels| == |m.excess| == |m.arrived| == |m.newLabel| == |m.current| == |net.out| == net.n
  {
    hide FlowsOk, Balanced, ListsOk, NewsOk, Threads, Work, AllActive, LabelsOk;
  }

  /** Edge e of u is full or does not go down. */
  ghost predicate NoPush(net: Net, labels: seq<int>, flow: seq<int>, u: nat, e: nat) {
    && u < |labels| && e < |flow| && e < |net.cap| && e < |net.to| && net.to[e] < |labels|
    && (flow[e] == net.cap[e] || labels[u] <= labels[net.to[e]])
  }

  /** A fold step reads of the memory only the new labels. */
  lemma SameFold(net: Net, m: Memory, now: Memory, s: Shadows, u: nat, list: seq<nat>, pc: FoldPc)
    requires CanFold(net.n, m, s, u, list, pc) && now.newLabel == m.newLabel
    ensures CanFold(net.n, now, s, u, list, pc)
      && FoldStep(net.n, now, s, u, list, pc) == FoldStep(net.n, m, s, u, list, pc)
  {
  }

  lemma SamePushes(net: Net, labels: seq<int>, base: seq<int>, active: seq<nat>, m: Memory, pcs: seq<Pc>)
    requires PushInv(net, labels, base, active, m, pcs)
    ensures |m.pushes| == |active|
  {
  }

  lemma EligibleIsAll(net: Net, labels: seq<int>, excess: seq<int>, active: seq<nat>)
    requires |labels| == |excess| == net.n
    requires forall u: nat :: u in active <==> u < net.n && labels[u] != 0 && labels[u] < net.n && excess[u] > 0
    ensures AllActive(net, labels, excess, active)
  {
  }

  lemma ReadySizes(net: Net, labels: seq<int>, base: seq<int>, active: seq<nat>, m: Memory)
    requires RoundOk(net, labels, base, active, m)
    ensures Sized(net, labels, m) && |base| == net.n && |m.pushes| == |active|
    ensures (forall v :: 0 <= v < net.n ==> m.excess[v] >= 0) && AllActive(net, labels, m.excess, active)
    ensures forall t :: 0 <= t < |m.pushes| ==> m.pushes[t] == []
  {
    hide FlowsOk, Balanced, NewsOk, Threads;
  }

  ghost predicate FoldLeftsAre(m: Memory, folds: seq<FoldPc>, left: seq<nat>) {
    && |left| == |folds| == |m.pushes|
    && forall t :: 0 <= t < |folds| ==> left[t] == FoldLeft(m.pushes[t], folds[t])
  }

  lemma FoldLeftsAfter(net: Net, labels: seq<int>, active: seq<nat>, m: Memory, s: Shadows, folds: seq<FoldPc>, t: nat,
      left: seq<nat>)
    returns (left': seq<nat>)
    requires FoldInv(net, labels, active, m, s, folds) && FoldLeftsAre(m, folds, left) && t < |folds|
      && !folds[t].Folded?
    requires CanFold(net.n, m, s, active[t], m.pushes[t], folds[t])
    ensures
      var pc' := FoldStep(net.n, m, s, active[t], m.pushes[t], folds[t]).1;
      FoldLeftsAre(m, folds[t := pc'], left') && Work(Itself, left') < Work(Itself, left)
  {
    var pc' := FoldStep(net.n, m, s, active[t], m.pushes[t], folds[t]).1;
    hide Work, ListsOk, EntryOk;
    left' := left[t := FoldLeft(m.pushes[t], pc')];
    WorkAfterStep(Itself, left, t, left'[t]);
  }

  lemma FoldStarts(net: Net, labels: seq<int>, base: seq<int>, active: seq<nat>, m: Memory, pcs: seq<Pc>,
      folds: seq<FoldPc>)
    returns (left: seq<nat>)
    requires PushInv(net, labels, base, active, m, pcs) && |folds| == |active|
    requires forall t :: 0 <= t < |folds| ==> folds[t].SetLabel?
    ensures FoldInv(net, labels, active, m, Shadows(labels, m.excess, m.arrived, m.pushed), folds)
    ensures FoldLeftsAre(m, folds, left)
  {
    hide FlowsOk, ExcessOk, NewsOk, LabelsOk, AllActive, Threads;
    left := seq(|folds|, t requires 0 <= t < |folds| => FoldLeft(m.pushes[t], folds[t]));
  }

  /** The state after a round is ready for the next. */
  lemma RoundEnds(net: Net, labels: seq<int>, base: seq<int>, active: seq<nat>, m: Memory, pcs: seq<Pc>, s: Shadows,
      folds: seq<FoldPc>)
    requires PushInv(net, labels, base, active, m, pcs) && forall t :: 0 <= t < |pcs| ==> pcs[t].Ended?
    requires FoldInv(net, labels, active, m, s, folds) && forall t :: 0 <= t < |folds| ==> folds[t].Folded?
    ensures
      var next := Concat(m.pushes);
      RoundOk(net, s.labels, base, next,
        Memory(m.flow, s.excess, s.arrived, m.current, m.newLabel, s.pushed, seq(|next|, _ => [])))
  {
    FoldEnds(net, labels, base, active, m, pcs, s, folds);
    FoldSettles(net, labels, base, active, m, pcs, s.excess);
    ListsAreNext(net, labels, base, active, m, pcs, s.excess);
    var next := Concat(m.pushes);
    hide Settled, AllActive, Actives, Threads, FlowsOk, ExcessOk, ListsOk, NewsOk, FoldInv, Concat, RoundOk;
    SettledBegins(net, s.labels, base, next,
      Memory(m.flow, s.excess, s.arrived, m.current, m.newLabel, s.pushed, seq(|next|, _ => [])));
  }

  ghost predicate LeftsAre(net: Net, active: seq<nat>, m: Memory, pcs: seq<Pc>, left: seq<nat>) {
    && |left| == |pcs| == |active|
    && (forall t :: 0 <= t < |pcs| ==> active[t] < |net.out| && active[t] < |m.current| && active[t] < |m.excess|)
    && forall t :: 0 <= t < |pcs| ==> left[t] == Left(net, m, active[t], pcs[t])
  }

  lemma Lefts(net: Net, labels: seq<int>, base: seq<int>, active: seq<nat>, m: Memory, pcs: seq<Pc>)
    returns (left: seq<nat>)
    requires PushInv(net, labels, base, active, m, pcs) && pcs == Pcs(|active|, Begin)
    ensures LeftsAre(net, active, m, pcs, left)
  {
    hide FlowsOk, ExcessOk, ListsOk, NewsOk, LabelsOk, AllActive;
    assert forall t :: 0 <= t < |pcs| ==> ThreadOk(net, labels, m, active[t], pcs[t]);
    left := seq(|pcs|, t requires 0 <= t < |pcs| => Left(net, m, active[t], pcs[t]));
  }

  lemma LeftsAfter(net: Net, labels: seq<int>, base: seq<int>, active: seq<nat>, m: Memory, pcs: seq<Pc>, t: nat,
      left: seq<nat>)
    returns (left': seq<nat>)
    requires PushInv(net, labels, base, active, m, pcs) && LeftsAre(net, active, m, pcs, left)
    requires t < |pcs| && CanStep(net, labels, m, t, active[t], pcs[t]) && !pcs[t].Ended?
    ensures
      var (m', pc') := Step(net, labels, m, t, active[t], pcs[t]);
      LeftsAre(net, active, m', pcs[t := pc'], left') && Work(Itself, left') < Work(Itself, left)
  {
    hide FlowsOk, ExcessOk, ListsOk, NewsOk, LabelsOk, AllActive, Work;
    var (m', pc') := Step(net, labels, m, t, active[t], pcs[t]);
    StepShortens(net, labels, m, active, pcs, t);
    StepKeepsSizes(net, labels, m, t, active[t], pcs[t]);
    hide Step, Left, ThreadOk;
    left' := left[t := Left(net, m', active[t], pc')];
    WorkAfterStep(Itself, left, t, left'[t]);
  }

  lemma SourceSum(s: seq<int>, source: nat)
    requires source < |s| && forall v :: 0 <= v < |s| ==> s[v] == if v == source then MAX_INT else 0
    ensures Sum(s) == MAX_INT
  {
    SumOfZeros(s[source := 0]);
    SumUpdate(s, source, 0);
  }

  lemma {:induction false} NoFlowOver(flow: seq<int>, es: seq<nat>)
    requires (forall e :: 0 <= e < |flow| ==> flow[e] == 0) && forall i :: 0 <= i < |es| ==> es[i] < |flow|
    ensures FlowOver(flow, es) == 0
  {
    if es != [] {
      NoFlowOver(flow, es[1..]);
    }
  }

  lemma NoFlowSettled(net: Net, excess: seq<int>, flow: seq<int>)
    requires net.Valid() && |excess| == net.n && |flow| == |net.from|
    requires (forall e :: 0 <= e < |flow| ==> flow[e] == 0) && forall v :: 0 <= v < net.n ==> excess[v] >= 0
    ensures Settled(net, excess, flow, excess)
  {
    forall v | 0 <= v < net.n ensures net.OutOk(v) && FlowOver(flow, net.out[v]) == 0 {
      assert net.OutOk(v);
      NoFlowOver(flow, net.out[v]);
    }
    forall e | 0 <= e < |flow| ensures net.EdgeOk(e) && flow[e] <= net.cap[e] && flow[net.partner[e]] == -flow[e] {
      assert net.EdgeOk(e);
    }
  }
}
