/** A fair schedule finishes the spanning forest: if it names every thread often enough, no thread is left. */
module FairForest {
  import opened Components
  import opened Connectivity
  import opened Graphs
  import opened Schedule
  import opened SpanningForest
  import opened UnionFind

  // ---------- what the run still has to do ----------

  ghost function IfFree(m: nat): nat -> nat {
    (h: nat) => if h == m then 1 else 0
  }

  ghost function IfRoot(): int -> nat {
    (p: int) => if p < 0 then 1 else 0
  }

  /** Free hooks and roots: swaps and links make them fewer. */
  ghost function Chances(E: Edges, at: Moment): nat {
    Work(IfFree(|E|), at.m.hooks) + Work(IfRoot(), at.f.parent)
  }

  ghost predicate RootAt(f: Forest, x: nat) {
    x < |f.parent| && IsRoot(f, x)
  }

  /** No find is longer. */
  function FindBound(n: nat): nat {
    3 * n + 3
  }

  /** The accesses a thread is away from its end or from a swap, at most, while no vertex is linked: roots then
      have free hooks, and a thread that has a vertex which is no root any more goes around once. */
  ghost function CostOf(f: Forest, th: Thread): nat {
    var k := FindBound(|f.parent|);
    match th
    case FindU(pc, _) => FindWork(f)(pc) + k + 4
    case FindV(u, pc) => FindWork(f)(pc) + if RootAt(f, u) then 3 else 2 * k + 6
    case LoadHook(u, _) => if RootAt(f, u) then 2 else 2 * k + 5
    case CasHook(u, _) => if RootAt(f, u) then 1 else 2 * k + 5
    case Linking(_, _) => 0
    case Finished => 0
  }

  ghost function Cost(f: Forest): Thread -> nat {
    (th: Thread) => CostOf(f, th)
  }

  ghost function Costs(at: Moment): nat {
    Work(Cost(at.f), at.threads)
  }

  /** No thread is between its swap and its link. */
  ghost predicate NoneLinks(at: Moment) {
    forall i :: 0 <= i < |at.threads| ==> !at.threads[i].Linking?
  }

  ghost predicate AllFinished(at: Moment) {
    forall i :: 0 <= i < |at.threads| ==> at.threads[i].Finished?
  }

  lemma {:induction false} WorkBound<P>(steps: P -> nat, pcs: seq<P>, c: nat)
    requires forall i :: 0 <= i < |pcs| ==> steps(pcs[i]) <= c
    ensures Work(steps, pcs) <= |pcs| * c
  {
    if pcs != [] {
      WorkBound(steps, pcs[1..], c);
    }
  }

  /** Links go up, so no tree is higher than there are vertices above. */
  lemma {:induction false} HeightBound(f: Forest, x: nat)
    requires Valid(f) && (forall y :: 0 <= y < |f.parent| ==> IsRoot(f, y) || f.parent[y] > y) && x < |f.parent|
    ensures f.height[x] + x < |f.parent|
    decreases |f.parent| - x
  {
    if !IsRoot(f, x) {
      HeightBound(f, f.parent[x]);
    }
  }

  lemma FindIsBounded(f: Forest, pc: Find)
    requires Valid(f) && forall y :: 0 <= y < |f.parent| ==> IsRoot(f, y) || f.parent[y] > y
    ensures FindWork(f)(pc) <= FindBound(|f.parent|)
  {
    forall x: nat | x < |f.parent| ensures HeightAt(f, x) <= 3 * |f.parent| {
      HeightBound(f, x);
    }
  }

  function CostBound(n: nat): nat {
    3 * FindBound(n) + 6
  }

  lemma LinksGoUp(E: Edges, n: nat, at: Moment)
    requires Holds(E, n, at)
    ensures Valid(at.f) && |at.f.parent| == n == |at.m.hooks| && |at.threads| == |E|
    ensures forall y :: 0 <= y < n ==> IsRoot(at.f, y) || at.f.parent[y] > y
  {
  }

  lemma CostsBounded(E: Edges, n: nat, at: Moment)
    requires Holds(E, n, at)
    ensures Costs(at) <= |E| * CostBound(n) && Chances(E, at) <= 2 * n
  {
    LinksGoUp(E, n, at);
    hide Holds, FindBound, FindWork;
    forall i | 0 <= i < |at.threads| ensures Cost(at.f)(at.threads[i]) <= CostBound(n) {
      match at.threads[i] {
        case FindU(pc, _) => FindIsBounded(at.f, pc);
        case FindV(_, pc) => FindIsBounded(at.f, pc);
        case _ =>
      }
    }
    WorkBound(Cost(at.f), at.threads, CostBound(n));
    WorkBound(IfFree(|E|), at.m.hooks, 1);
    WorkBound(IfRoot(), at.f.parent, 1);
  }

  // ---------- one access ----------

  /** No access adds chances, and a swap or a link takes one; others leave hooks and links as they are. */
  lemma ChancesFall(E: Edges, n: nat, at: Moment, i: nat)
    requires Holds(E, n, at) && i < |at.threads|
    ensures Spent(E, at, Next(E, n, at, i), i)
  {
    hide *;
    ThreadsAre(E, n, at);
    if at.threads[i].Linking? {
      LinkTakesChance(E, n, at, i);
    } else {
      OthersTakeChance(E, n, at, i);
    }
  }

  ghost predicate Spent(E: Edges, at: Moment, at': Moment, i: nat) {
    && i < |at.threads| == |at'.threads|
    && (forall j :: 0 <= j < |at.threads| && j != i ==> at'.threads[j] == at.threads[j])
    && Chances(E, at') <= Chances(E, at)
    && (at.threads[i].Linking? ==> Chances(E, at') < Chances(E, at))
    && (at.threads[i].Finished? ==> at' == at)
    && (Chances(E, at') == Chances(E, at) ==>
      at'.f == at.f && at'.m.hooks == at.m.hooks && !at'.threads[i].Linking?)
  }

  /** The moment after an access, field by field. */
  lemma NextIs(E: Edges, n: nat, at: Moment, i: nat)
    requires Holds(E, n, at) && i < |at.threads|
    ensures |at.threads| == |E| && CanStep(at.m, at.threads[i])
    ensures
      var (th, at', s) := (at.threads[i], Next(E, n, at, i), Step(E, i, at.m, at.threads[i]));
      && at'.m == s.0 && at'.threads == at.threads[i := s.1]
      && (!th.Linking? ==> at'.f == at.f && at'.linked == at.linked)
      && (th.Linking? ==>
        Valid(at.f) && th.u < th.v < |at.f.parent| && IsRoot(at.f, th.u) && at'.f.parent == at.f.parent[th.u := th.v])
  {
    hide Inv, Step, ThreadInv, CanStep, Valid;
    ThreadsAre(E, n, at);
    InvMeansCanStep(E, n, at.m, at.threads, at.f, at.linked, i);
    if at.threads[i].Linking? {
      LinkerKnows(E, n, at.m, at.threads, at.f, at.linked, i);
    }
  }

  lemma LinkTakesChance(E: Edges, n: nat, at: Moment, i: nat)
    requires Holds(E, n, at) && i < |at.threads| && at.threads[i].Linking?
    ensures Spent(E, at, Next(E, n, at, i), i)
  {
    hide Holds, Next, Step, CanStep, Valid, Work;
    NextIs(E, n, at, i);
    LinkFinishes(E, i, at.m, at.threads[i]);
    WorkAfterStep(IfRoot(), at.f.parent, at.threads[i].u, at.threads[i].v);
  }

  lemma OthersTakeChance(E: Edges, n: nat, at: Moment, i: nat)
    requires Holds(E, n, at) && i < |at.threads| && !at.threads[i].Linking?
    ensures Spent(E, at, Next(E, n, at, i), i)
  {
    hide Holds, Next, Step, CanStep, Valid, Work;
    NextIs(E, n, at, i);
    StepOnHooks(E, i, at.m, at.threads[i]);
    FinishedStays(E, i, at.m, at.threads[i]);
    var th' := Step(E, i, at.m, at.threads[i]).1;
    if th'.Linking? {
      WorkAfterStep(IfFree(|E|), at.m.hooks, th'.u, i);
    }
  }

  lemma FinishedStays(E: Edges, i: nat, m: Memory, th: Thread)
    requires CanStep(m, th)
    ensures th.Finished? ==> Step(E, i, m, th) == (m, th)
  {
  }

  /** While nothing is linked, roots have free hooks and other vertices taken ones. */
  lemma HooksKnow(E: Edges, n: nat, at: Moment)
    requires Holds(E, n, at) && NoneLinks(at)
    ensures |at.m.hooks| == n == |at.f.parent|
    ensures forall x :: 0 <= x < n ==> (at.m.hooks[x] == |E| <==> RootAt(at.f, x))
  {
  }

  /** What a find of a thread comes to in one access. */
  lemma FindGoesOn(P: seq<int>, f: Forest, e: (nat, nat), pc: Find, other: nat)
    requires Represents(P, f) && FindsEnd(f, e, pc, other) && !pc.Found? && CanFind(P, pc)
    ensures
      var pc' := FindStep(P, pc).1;
      && FindWork(f)(pc') < FindWork(f)(pc) && (pc'.Found? ==> RootAt(f, pc'.r))
  {
    var x: nat :| FindInv(f, x, pc) && EndsOf(f, e, x, other);
    FindStepCorrect(P, f, x, pc);
    FindWorkFalls(P, f, x, pc);
  }

  /** An access of an unfinished thread that is not followed by a link or a swap brings it nearer to one. */
  lemma CostFalls(E: Edges, n: nat, at: Moment, i: nat)
    requires Holds(E, n, at) && i < |at.threads| && NoneLinks(at) && !at.threads[i].Finished?
    requires CanStep(at.m, at.threads[i]) && !Step(E, i, at.m, at.threads[i]).1.Linking?
    ensures Cost(at.f)(Step(E, i, at.m, at.threads[i]).1) < Cost(at.f)(at.threads[i])
  {
    var th := at.threads[i];
    LinksGoUp(E, n, at);
    assert ThreadInv(E, at.f, at.m.hooks, i, th) && Represents(at.m.parents, at.f);
    HooksKnow(E, n, at);
    hide FindWork, FindsEnd, Represents, EndsOf, FindStep, CanFind, Holds, Inv, FindBound, NoneLinks, CostOf;
    match th {
      case FindU(pc, v) =>
        FindGoesOn(at.m.parents, at.f, E[i], pc, v);
        FindIsBounded(at.f, Start(v));
        FirstFindCost(at.f, pc, FindStep(at.m.parents, pc).1, v);
      case FindV(u, pc) =>
        FindGoesOn(at.m.parents, at.f, E[i], pc, u);
        SecondFindCost(at.f, pc, FindStep(at.m.parents, pc).1, u);
      case LoadHook(u, v) =>
        FindIsBounded(at.f, Start(u));
        HookCost(at.f, u, v);
      case CasHook(u, v) =>
        FindIsBounded(at.f, Start(u));
        HookCost(at.f, u, v);
      case Linking(_, _) =>
    }
  }

  lemma FirstFindCost(f: Forest, pc: Find, pc': Find, v: nat)
    requires FindWork(f)(pc') < FindWork(f)(pc) && FindWork(f)(Start(v)) <= FindBound(|f.parent|)
    requires pc'.Found? ==> RootAt(f, pc'.r)
    ensures CostOf(f, if pc'.Found? then FindV(pc'.r, Start(v)) else FindU(pc', v)) < CostOf(f, FindU(pc, v))
  {
    hide FindWork, FindBound;
  }

  lemma SecondFindCost(f: Forest, pc: Find, pc': Find, u: nat)
    requires FindWork(f)(pc') < FindWork(f)(pc) && (pc'.Found? ==> RootAt(f, pc'.r))
    ensures CostOf(f, if pc'.Found? then Compare(u, pc'.r) else FindV(u, pc')) < CostOf(f, FindV(u, pc))
  {
    hide FindWork, FindBound;
  }

  lemma HookCost(f: Forest, u: nat, v: nat)
    requires FindWork(f)(Start(u)) <= FindBound(|f.parent|)
    ensures RootAt(f, u) ==> CostOf(f, CasHook(u, v)) < CostOf(f, LoadHook(u, v))
    ensures !RootAt(f, u) ==> CostOf(f, FindU(Start(u), v)) < CostOf(f, LoadHook(u, v)) == CostOf(f, CasHook(u, v))
  {
    hide FindWork, FindBound;
  }

  /** An access that takes no chance leaves fewer accesses to go, unless its thread has finished. */
  lemma AccessFalls(E: Edges, n: nat, at: Moment, i: nat)
    requires Holds(E, n, at) && i < |at.threads| && NoneLinks(at)
    requires Chances(E, Next(E, n, at, i)) == Chances(E, at)
    ensures NoneLinks(Next(E, n, at, i)) && Costs(Next(E, n, at, i)) <= Costs(at)
    ensures !at.threads[i].Finished? ==> Costs(Next(E, n, at, i)) < Costs(at)
  {
    ChancesFall(E, n, at, i);
    if !at.threads[i].Finished? {
      InvMeansCanStep(E, n, at.m, at.threads, at.f, at.linked, i);
      CostFalls(E, n, at, i);
      hide Holds, Step, Cost;
      WorkAfterStep(Cost(at.f), at.threads, i, Next(E, n, at, i).threads[i]);
    }
  }

  // ---------- a part of the schedule ----------

  /** What a part of the schedule, from the moment a to the moment b, has brought about. */
  ghost predicate Since(E: Edges, a: Moment, b: Moment, part: seq<nat>) {
    && |a.threads| == |b.threads|
    && (forall i :: 0 <= i < |a.threads| && i !in part ==> b.threads[i] == a.threads[i])
    && (forall i :: 0 <= i < |a.threads| && a.threads[i].Finished? ==> b.threads[i].Finished?)
    && Chances(E, b) <= Chances(E, a)
    && (Chances(E, b) == Chances(E, a) ==>
      && (forall i :: 0 <= i < |a.threads| && i in part ==> !a.threads[i].Linking?)
      && (NoneLinks(a) ==> (NoneLinks(b) && Costs(b) <= Costs(a)
        && forall i :: 0 <= i < |a.threads| && i in part && !a.threads[i].Finished? ==> Costs(b) < Costs(a))))
  }

  lemma SinceGoesOn(E: Edges, n: nat, a: Moment, b: Moment, part: seq<nat>, i: nat)
    requires Holds(E, n, b) && i < |b.threads| && Since(E, a, b, part)
    ensures Since(E, a, Next(E, n, b, i), part + [i])
  {
    ChancesFall(E, n, b, i);
    var c := Next(E, n, b, i);
    if Chances(E, c) == Chances(E, b) && NoneLinks(b) {
      AccessFalls(E, n, b, i);
    }
    hide *;
    SinceJoins(E, a, b, c, part, i);
  }

  lemma SinceJoins(E: Edges, a: Moment, b: Moment, c: Moment, part: seq<nat>, i: nat)
    requires Since(E, a, b, part) && i < |b.threads| == |c.threads|
    requires forall j :: 0 <= j < |b.threads| && j != i ==> c.threads[j] == b.threads[j]
    requires Chances(E, c) <= Chances(E, b) && (b.threads[i].Linking? ==> Chances(E, c) < Chances(E, b))
    requires b.threads[i].Finished? ==> c.threads[i].Finished?
    requires Chances(E, c) == Chances(E, b) && NoneLinks(b) ==> NoneLinks(c) && Costs(c) <= Costs(b)
    requires Chances(E, c) == Chances(E, b) && NoneLinks(b) && !b.threads[i].Finished? ==> Costs(c) < Costs(b)
    ensures Since(E, a, c, part + [i])
  {
    hide Chances, Costs, NoneLinks;
    assert forall j :: j in part + [i] <==> j in part || j == i;
  }

  lemma {:induction false} SinceThen(E: Edges, n: nat, schedule: seq<nat>, cut: nat, t: nat)
    requires EdgesOn(E, n) && Order(E, schedule) && cut <= t <= |schedule|
    ensures Order(E, schedule[..cut]) && Order(E, schedule[..t])
    ensures Since(E, After(E, n, schedule[..cut]), After(E, n, schedule[..t]), schedule[cut..t])
    decreases t
  {
    hide After, Holds, Next, Chances, Costs, EdgesOn;
    if t > cut {
      SinceThen(E, n, schedule, cut, t - 1);
      AfterOneMore(E, n, schedule, t - 1);
      SinceGoesOn(E, n, After(E, n, schedule[..cut]), After(E, n, schedule[..t - 1]), schedule[cut..t - 1],
        schedule[t - 1]);
      assert schedule[cut..t] == schedule[cut..t - 1] + [schedule[t - 1]];
    }
  }

  /** A part that names every thread takes a chance, or brings some thread nearer to the end. */
  lemma RoundFalls(E: Edges, a: Moment, b: Moment, part: seq<nat>)
    requires Since(E, a, b, part) && (forall i :: 0 <= i < |a.threads| ==> i in part) && !AllFinished(a)
    ensures Chances(E, b) < Chances(E, a) || (Chances(E, b) == Chances(E, a) && Costs(b) < Costs(a))
  {
    hide Chances, Costs;
    var i :| 0 <= i < |a.threads| && !a.threads[i].Finished?;
  }

  // ---------- fair schedules ----------

  ghost predicate NamesAll(m: nat, part: seq<nat>) {
    forall i :: 0 <= i < m ==> i in part
  }

  /** The schedule can be cut into k parts, each of which names every thread. */
  ghost predicate Fair(m: nat, schedule: seq<nat>, k: nat)
    decreases k
  {
    k == 0 || exists cut: nat :: cut <= |schedule| && NamesAll(m, schedule[cut..]) && Fair(m, schedule[..cut], k - 1)
  }

  function Most(n: nat, m: nat): nat {
    m * CostBound(n)
  }

  /** Fewer chances outweigh any costs. */
  function Weigh(chances: nat, costs: nat, most: nat): nat {
    chances * (most + 1) + costs
  }

  lemma Outweighs(p: nat, w: nat, p': nat, w': nat, most: nat)
    requires w <= most && w' <= most && (p' < p || (p' == p && w' < w))
    ensures Weigh(p', w', most) < Weigh(p, w, most)
  {
    if p' < p {
      assert p * (most + 1) == (p - 1) * (most + 1) + most + 1;
      Mul(p', p - 1, most + 1);
    }
  }

  ghost function ToGo(E: Edges, n: nat, at: Moment): nat {
    Weigh(Chances(E, at), Costs(at), Most(n, |E|))
  }

  function Rounds(n: nat, m: nat): nat {
    Weigh(2 * n, Most(n, m), Most(n, m)) + 1
  }

  lemma Mul(a: nat, b: nat, c: nat)
    requires a <= b
    ensures a * c <= b * c
  {
  }

  lemma FairCut(m: nat, schedule: seq<nat>, k: nat) returns (cut: nat)
    requires Fair(m, schedule, k) && k > 0
    ensures cut <= |schedule| && NamesAll(m, schedule[cut..]) && Fair(m, schedule[..cut], k - 1)
  {
    cut :| cut <= |schedule| && NamesAll(m, schedule[cut..]) && Fair(m, schedule[..cut], k - 1);
  }

  lemma {:induction false} FairFalls(E: Edges, n: nat, schedule: seq<nat>, k: nat)
    requires EdgesOn(E, n) && Order(E, schedule) && Fair(|E|, schedule, k)
    ensures
      var at := After(E, n, schedule);
      AllFinished(at) || ToGo(E, n, at) + k < Rounds(n, |E|)
    decreases k
  {
    hide *;
    if k == 0 {
      ToGoBounded(E, n, After(E, n, schedule));
    } else {
      var cut := FairCut(|E|, schedule, k);
      PartFalls(E, n, schedule, cut);
      FairFalls(E, n, schedule[..cut], k - 1);
    }
  }

  lemma ToGoBounded(E: Edges, n: nat, at: Moment)
    requires Holds(E, n, at)
    ensures ToGo(E, n, at) < Rounds(n, |E|)
  {
    CostsBounded(E, n, at);
    hide Holds, Chances, Costs, CostBound, Weigh;
    assert Costs(at) <= Most(n, |E|);
    hide Most;
    WeighsLess(Chances(E, at), Costs(at), Most(n, |E|), 2 * n);
  }

  lemma WeighsLess(p: nat, w: nat, most: nat, top: nat)
    requires p <= top && w <= most
    ensures Weigh(p, w, most) <= Weigh(top, most, most)
  {
    Mul(p, top, most + 1);
  }

  lemma PartFalls(E: Edges, n: nat, schedule: seq<nat>, cut: nat)
    requires EdgesOn(E, n) && Order(E, schedule) && cut <= |schedule| && NamesAll(|E|, schedule[cut..])
    ensures Order(E, schedule[..cut])
    ensures
      var a, b := After(E, n, schedule[..cut]), After(E, n, schedule);
      if AllFinished(a) then AllFinished(b) else ToGo(E, n, b) < ToGo(E, n, a)
  {
    hide After, Holds, Chances, Costs, EdgesOn, AllFinished, CostBound, Since, Weigh;
    assert schedule[..|schedule|] == schedule && schedule[cut..|schedule|] == schedule[cut..];
    SinceThen(E, n, schedule, cut, |schedule|);
    var a, b := After(E, n, schedule[..cut]), After(E, n, schedule);
    ThreadsAre(E, n, a);
    if AllFinished(a) {
      StaysFinished(E, a, b, schedule[cut..]);
    } else {
      RoundFalls(E, a, b, schedule[cut..]);
      CostsBounded(E, n, a);
      CostsBounded(E, n, b);
      Outweighs(Chances(E, a), Costs(a), Chances(E, b), Costs(b), Most(n, |E|));
    }
  }

  lemma ThreadsAre(E: Edges, n: nat, at: Moment)
    requires Holds(E, n, at)
    ensures |at.threads| == |E|
  {
  }

  lemma StaysFinished(E: Edges, a: Moment, b: Moment, part: seq<nat>)
    requires Since(E, a, b, part) && AllFinished(a)
    ensures AllFinished(b)
  {
    hide Chances, Costs;
  }

  /** A schedule that can be cut into that many parts, each of which names every thread, leaves no thread
      unfinished. */
  lemma FairFinishes(E: Edges, n: nat, schedule: seq<nat>)
    requires EdgesOn(E, n) && Order(E, schedule) && Fair(|E|, schedule, Rounds(n, |E|))
    ensures forall i :: 0 <= i < |E| ==> After(E, n, schedule).threads[i].Finished?
  {
    FairFalls(E, n, schedule, Rounds(n, |E|));
    ThreadsAre(E, n, After(E, n, schedule));
  }

  /** The threads in turn, k times. */
  function RoundRobin(m: nat, k: nat): seq<nat> {
    if k == 0 then [] else RoundRobin(m, k - 1) + seq(m, i requires 0 <= i < m => i)
  }

  lemma {:induction false} RoundRobinIsFair(m: nat, k: nat)
    ensures Fair(m, RoundRobin(m, k), k) && |RoundRobin(m, k)| == m * k
    ensures forall t :: 0 <= t < |RoundRobin(m, k)| ==> RoundRobin(m, k)[t] < m
  {
    if k > 0 {
      RoundRobinIsFair(m, k - 1);
      var before, turn := RoundRobin(m, k - 1), seq(m, i requires 0 <= i < m => i);
      var schedule := before + turn;
      assert schedule[..|before|] == before && schedule[|before|..] == turn;
      forall i | 0 <= i < m ensures i in turn {
        assert turn[i] == i;
      }
      assert NamesAll(m, turn);
    }
  }

  /** In turn, the threads need at most |E| * Rounds(n, |E|) accesses. */
  lemma RoundRobinFinishes(E: Edges, n: nat, schedule: seq<nat>)
    requires EdgesOn(E, n) && schedule == RoundRobin(|E|, Rounds(n, |E|))
    ensures Order(E, schedule) && |schedule| == |E| * Rounds(n, |E|)
    ensures forall i :: 0 <= i < |E| ==> After(E, n, schedule).threads[i].Finished?
  {
    RoundRobinIsFair(|E|, Rounds(n, |E|));
    FairFinishes(E, n, schedule);
  }
}
