/** Spanning forest by concurrent union-find.
    One thread per edge; each memory access of each thread is a step, and any thread may take the
    next one.  Which forest results depends on the schedule; that it is a spanning forest does not. */
module SpanningForest {
  import opened Components
  import opened Connectivity
  import opened Graphs
  import opened UnionFind

  /** Where the thread of edge i stands: in find(u), in find(v), about to look at the hook of u, to
      swap its own index into it, to link u under v, or finished. */
  datatype Thread =
    | FindU(pc: Find, v: nat)
    | FindV(u: nat, pc: Find)
    | LoadHook(u: nat, v: nat)
    | CasHook(u: nat, v: nat)
    | Linking(u: nat, v: nat)
    | Finished

  /** The shared memory: the union-find array and the hooks; m = |E| marks a free hook. */
  datatype Memory = Memory(parents: seq<int>, hooks: seq<nat>)

  /** The roots found: equal roots end the thread, else the lower one is to be hooked. */
  function Compare(u: nat, v: nat): Thread {
    if u == v then Finished else if u > v then LoadHook(v, u) else LoadHook(u, v)
  }

  ghost predicate CanStep(m: Memory, th: Thread) {
    var n := |m.parents|;
    |m.hooks| == n &&
    match th
    case FindU(pc, v) => v < n && CanFind(m.parents, pc)
    case FindV(u, pc) => u < n && CanFind(m.parents, pc)
    case LoadHook(u, v) => u < n && v < n
    case CasHook(u, v) => u < n && v < n
    case Linking(u, v) => u < n && v < n
    case Finished => true
  }

  /** One memory access of the thread of edge i. */
  function Step(E: Edges, i: nat, m: Memory, th: Thread): (Memory, Thread)
    requires CanStep(m, th)
  {
    match th
    case FindU(pc, v) =>
      var (P, pc') := FindStep(m.parents, pc);
      (m.(parents := P), if pc'.Found? then FindV(pc'.r, Start(v)) else FindU(pc', v))
    case FindV(u, pc) =>
      var (P, pc') := FindStep(m.parents, pc);
      (m.(parents := P), if pc'.Found? then Compare(u, pc'.r) else FindV(u, pc'))
    case LoadHook(u, v) => (m, if m.hooks[u] == |E| then CasHook(u, v) else FindU(Start(u), v))
    case CasHook(u, v) =>
      if m.hooks[u] == |E| then (m.(hooks := m.hooks[u := i]), Linking(u, v)) else (m, FindU(Start(u), v))
    case Linking(u, v) => (m.(parents := m.parents[u := v]), Finished)
    case Finished => (m, th)
  }

  // ---------- the invariant ----------

  ghost predicate FindsEnd(f: Forest, e: (nat, nat), pc: Find, other: nat) {
    exists x: nat :: FindInv(f, x, pc) && EndsOf(f, e, x, other)
  }

  /** What the thread of edge i knows; none of it can be undone by the other threads. */
  ghost predicate ThreadInv(E: Edges, f: Forest, hooks: seq<nat>, i: nat, th: Thread)
    requires i < |E| && |hooks| == |f.root|
  {
    match th
    case FindU(pc, v) => !pc.Found? && FindsEnd(f, E[i], pc, v)
    case FindV(u, pc) => !pc.Found? && FindsEnd(f, E[i], pc, u)
    case LoadHook(u, v) => EndsOf(f, E[i], u, v) && u < v < |hooks|
    case CasHook(u, v) => EndsOf(f, E[i], u, v) && u < v < |hooks|
    case Linking(u, v) => EndsOf(f, E[i], u, v) && u < v < |hooks| && hooks[u] == i
    case Finished => E[i].0 < |f.root| && E[i].1 < |f.root| && f.root[E[i].0] == f.root[E[i].1]
  }

  /** A hook is taken once, by a thread that is about to link its vertex or has done so. */
  ghost predicate HooksInv(E: Edges, f: Forest, hooks: seq<nat>, threads: seq<Thread>, T: set<nat>)
    requires |threads| == |E| && |hooks| == |f.parent|
  {
    && (forall x :: 0 <= x < |hooks| ==> hooks[x] <= |E|)
    && (forall x :: 0 <= x < |hooks| && hooks[x] < |E| ==>
          if IsRoot(f, x) then threads[hooks[x]].Linking? && threads[hooks[x]].u == x && hooks[x] !in T
          else threads[hooks[x]].Finished? && hooks[x] in T)
    && (forall x :: 0 <= x < |hooks| && !IsRoot(f, x) ==> hooks[x] < |E|)
    && (forall x, y :: 0 <= x < y < |hooks| && hooks[x] == hooks[y] ==> hooks[x] == |E|)
    && forall i :: i in T ==> i < |E| && i in hooks
  }

  /** The trees of the link-only forest are the components that the linked edges make; links go up. */
  ghost predicate ForestInv(E: Edges, n: nat, f: Forest, T: set<nat>) {
    && Matches(E, n, f, T)
    && (forall x :: 0 <= x < n ==> f.root[x] >= x && (IsRoot(f, x) || f.parent[x] > x))
    && IsForest(E, T)
  }

  ghost predicate Inv(E: Edges, n: nat, m: Memory, threads: seq<Thread>, f: Forest, T: set<nat>) {
    && |m.parents| == |m.hooks| == n && |threads| == |E|
    && ForestInv(E, n, f, T)
    && Represents(m.parents, f)
    && HooksInv(E, f, m.hooks, threads, T)
    && forall i :: 0 <= i < |E| ==> ThreadInv(E, f, m.hooks, i, threads[i])
  }

  lemma InvMeansCanStep(E: Edges, n: nat, m: Memory, threads: seq<Thread>, f: Forest, T: set<nat>, i: nat)
    requires Inv(E, n, m, threads, f, T) && i < |E|
    ensures CanStep(m, threads[i])
  {
    assert ThreadInv(E, f, m.hooks, i, threads[i]);
    match threads[i] {
      case FindU(pc, v) =>
        var x: nat :| FindInv(f, x, pc) && EndsOf(f, E[i], x, v);
        FindStepCorrect(m.parents, f, x, pc);
      case FindV(u, pc) =>
        var x: nat :| FindInv(f, x, pc) && EndsOf(f, E[i], x, u);
        FindStepCorrect(m.parents, f, x, pc);
      case LoadHook(u, v) =>
      case CasHook(u, v) =>
      case Linking(u, v) =>
      case Finished =>
    }
  }

  /** A step of find keeps the thread's knowledge and the array; the root it finds stands for the same end. */
  lemma FindStepKeeps(P: seq<int>, f: Forest, e: (nat, nat), pc: Find, other: nat)
    requires Represents(P, f) && FindsEnd(f, e, pc, other) && !pc.Found? && CanFind(P, pc)
    ensures
      var (P', pc') := FindStep(P, pc);
      && Represents(P', f)
      && if pc'.Found? then EndsOf(f, e, pc'.r, other) && pc'.r < |P| else FindsEnd(f, e, pc', other)
  {
    var x: nat :| FindInv(f, x, pc) && EndsOf(f, e, x, other);
    FindStepCorrect(P, f, x, pc);
    var pc' := FindStep(P, pc).1;
    if pc'.Found? {
      assert f.root[f.root[x]] == f.root[x];
    } else {
      assert FindInv(f, x, pc');
    }
  }

  lemma StartFinds(f: Forest, e: (nat, nat), x: nat, other: nat)
    requires Valid(f) && EndsOf(f, e, x, other)
    ensures FindsEnd(f, e, Start(x), other)
  {
  }

  /** Every step but the link leaves the link-only forest alone and keeps the invariant. */
  lemma OtherStepKeepsInv(E: Edges, n: nat, m: Memory, threads: seq<Thread>, f: Forest, T: set<nat>, i: nat)
    requires Inv(E, n, m, threads, f, T) && i < |E| && CanStep(m, threads[i]) && !threads[i].Linking?
    ensures
      var (m', th') := Step(E, i, m, threads[i]);
      Inv(E, n, m', threads[i := th'], f, T)
  {
    hide ForestInv, Represents, EndsOf, FindsEnd;
    assert Valid(f) && |f.parent| == n && EdgesOn(E, n) by { Unfold(E, n, f, T); }
    assert ThreadInv(E, f, m.hooks, i, threads[i]);
    var (m', th') := Step(E, i, m, threads[i]);
    match threads[i] {
      case FindU(pc, v) =>
        FindStepKeeps(m.parents, f, E[i], pc, v);
        var pc' := FindStep(m.parents, pc).1;
        if pc'.Found? {
          EndsSwap(f, E[i], pc'.r, v);
          StartFinds(f, E[i], v, pc'.r);
        }
      case FindV(u, pc) =>
        FindStepKeeps(m.parents, f, E[i], pc, u);
        var pc' := FindStep(m.parents, pc).1;
        if pc'.Found? {
          EndsSwap(f, E[i], pc'.r, u);
          EndsEqual(f, E[i], pc'.r);
        }
      case LoadHook(u, v) => StartFinds(f, E[i], u, v);
      case CasHook(u, v) => StartFinds(f, E[i], u, v);
      case Finished =>
    }
    assert ThreadInv(E, f, m'.hooks, i, th');
    forall j | 0 <= j < |E| && j != i ensures ThreadInv(E, f, m'.hooks, j, threads[j]) {
      assert ThreadInv(E, f, m.hooks, j, threads[j]);
      assert threads[j].Linking? ==> m'.hooks[threads[j].u] == m.hooks[threads[j].u];
    }
    HooksOther(E, n, m, threads, f, T, i);
  }

  /** The hooks change only by a successful swap. */
  lemma StepOnHooks(E: Edges, i: nat, m: Memory, th: Thread)
    requires CanStep(m, th) && i < |E| && !th.Linking?
    ensures
      var (m', th') := Step(E, i, m, th);
      if th'.Linking? then !th.Finished? && th'.u < |m.hooks| && m.hooks[th'.u] == |E|
        && m'.hooks == m.hooks[th'.u := i]
      else m'.hooks == m.hooks && (th.Finished? ==> th'.Finished?)
  {
  }

  lemma HooksOther(E: Edges, n: nat, m: Memory, threads: seq<Thread>, f: Forest, T: set<nat>, i: nat)
    requires Inv(E, n, m, threads, f, T) && i < |E| && CanStep(m, threads[i]) && !threads[i].Linking?
    ensures
      var (m', th') := Step(E, i, m, threads[i]);
      HooksInv(E, f, m'.hooks, threads[i := th'], T)
  {
    hide ForestInv, Represents, EndsOf, FindsEnd, Step, CanStep, ThreadInv;
    assert Valid(f) && |f.parent| == n by { Unfold(E, n, f, T); }
    var (m', th') := Step(E, i, m, threads[i]);
    StepOnHooks(E, i, m, threads[i]);
    assert forall x :: 0 <= x < n && m.hooks[x] == i ==> threads[i].Finished?;
    if th'.Linking? {
      TakeHook(E, f, m.hooks, threads, T, i, th');
    }
  }

  lemma TakeHook(E: Edges, f: Forest, hooks: seq<nat>, threads: seq<Thread>, T: set<nat>, i: nat, th: Thread)
    requires Valid(f) && |threads| == |E| && |hooks| == |f.parent| && HooksInv(E, f, hooks, threads, T)
    requires i < |E| && th.Linking? && th.u < |hooks| && hooks[th.u] == |E|
    requires forall x :: 0 <= x < |hooks| ==> hooks[x] != i
    ensures HooksInv(E, f, hooks[th.u := i], threads[i := th], T)
  {
    var hooks' := hooks[th.u := i];
    forall k | k in T ensures k < |E| && k in hooks' {
      var x :| 0 <= x < |hooks| && hooks[x] == k;
      assert hooks'[x] == k;
    }
    assert i !in T;
  }

  lemma Unfold(E: Edges, n: nat, f: Forest, T: set<nat>)
    requires ForestInv(E, n, f, T)
    ensures Valid(f) && |f.parent| == n && EdgesOn(E, n)
  {
  }

  lemma EndsSwap(f: Forest, e: (nat, nat), u: nat, v: nat)
    requires EndsOf(f, e, u, v)
    ensures EndsOf(f, e, v, u)
  {
  }

  lemma EndsEqual(f: Forest, e: (nat, nat), u: nat)
    ensures EndsOf(f, e, u, u) ==> e.0 < |f.root| && e.1 < |f.root| && f.root[e.0] == f.root[e.1]
  {
  }

  // ---------- the link ----------

  lemma EndsSurviveLink(f: Forest, u: nat, v: nat, e: (nat, nat), x: nat, y: nat)
    requires Valid(f) && u < |f.parent| && v < |f.parent| && IsRoot(f, u) && f.root[v] != u
    requires EndsOf(f, e, x, y)
    ensures EndsOf(LinkTo(f, u, v), e, x, y)
  {
  }

  lemma ThreadSurvivesLink(E: Edges, f: Forest, hooks: seq<nat>, u: nat, v: nat, j: nat, th: Thread)
    requires Valid(f) && u < |f.parent| && v < |f.parent| && IsRoot(f, u) && f.root[v] != u
    requires j < |E| && |hooks| == |f.root| && ThreadInv(E, f, hooks, j, th)
    ensures ThreadInv(E, LinkTo(f, u, v), hooks, j, th)
  {
    hide EndsOf;
    var g := LinkTo(f, u, v);
    match th {
      case FindU(pc, w) =>
        var x: nat :| FindInv(f, x, pc) && EndsOf(f, E[j], x, w);
        FindInvSurvivesLink(f, u, v, x, pc);
        EndsSurviveLink(f, u, v, E[j], x, w);
      case FindV(w, pc) =>
        var x: nat :| FindInv(f, x, pc) && EndsOf(f, E[j], x, w);
        FindInvSurvivesLink(f, u, v, x, pc);
        EndsSurviveLink(f, u, v, E[j], x, w);
      case LoadHook(a, b) => EndsSurviveLink(f, u, v, E[j], a, b);
      case CasHook(a, b) => EndsSurviveLink(f, u, v, E[j], a, b);
      case Linking(a, b) => EndsSurviveLink(f, u, v, E[j], a, b);
      case Finished => RootsSurviveLink(f, u, v);
    }
  }

  lemma LinkKeepsForestInv(E: Edges, n: nat, f: Forest, T: set<nat>, i: nat, u: nat, v: nat)
    requires ForestInv(E, n, f, T) && i < |E| && u < v < n && IsRoot(f, u) && EndsOf(f, E[i], u, v) && i !in T
    ensures f.root[v] != u && !Connected(E, T, E[i].0, E[i].1) && ForestInv(E, n, LinkTo(f, u, v), T + {i})
  {
    LinkMatches(E, n, f, T, i, u, v);
    ForestExtends(E, T, i);
    hide Matches, IsForest, EndsOf;
  }

  lemma HooksAfterLink(E: Edges, f: Forest, hooks: seq<nat>, threads: seq<Thread>, T: set<nat>, i: nat)
    requires Valid(f) && |threads| == |E| && |hooks| == |f.parent| && HooksInv(E, f, hooks, threads, T)
    requires i < |E| && threads[i].Linking? && threads[i].u < |hooks| && threads[i].v < |hooks|
      && hooks[threads[i].u] == i
    ensures HooksInv(E, LinkTo(f, threads[i].u, threads[i].v), hooks, threads[i := Finished], T + {i})
  {
    hide Valid;
  }

  /** Each link joins two different components, by the edge that hooked. */
  lemma LinkStepKeepsInv(E: Edges, n: nat, m: Memory, threads: seq<Thread>, f: Forest, T: set<nat>, i: nat)
    requires Inv(E, n, m, threads, f, T) && i < |E| && threads[i].Linking?
    ensures
      var (u, v) := (threads[i].u, threads[i].v);
      && CanStep(m, threads[i]) && IsRoot(f, u) && f.root[v] != u
      && !Connected(E, T, E[i].0, E[i].1)
      && Inv(E, n, Step(E, i, m, threads[i]).0, threads[i := Finished], LinkTo(f, u, v), T + {i})
  {
    hide *;
    InvSizes(E, n, m, threads, f, T);
    var u, v := threads[i].u, threads[i].v;
    LinkerKnows(E, n, m, threads, f, T, i);
    LinkFinishes(E, i, m, threads[i]);
    LinkKeepsForestInv(E, n, f, T, i, u, v);
    LinkStep(m.parents, f, u, v);
    HooksAfterLink(E, f, m.hooks, threads, T, i);
    ThreadsSurviveLink(E, n, m, threads, f, T, i);
    InvIs(E, n, Step(E, i, m, threads[i]).0, threads[i := Finished], LinkTo(f, u, v), T + {i});
  }

  /** What the invariant says of a thread about to link. */
  lemma LinkerKnows(E: Edges, n: nat, m: Memory, threads: seq<Thread>, f: Forest, T: set<nat>, i: nat)
    requires Inv(E, n, m, threads, f, T) && i < |E| && threads[i].Linking?
    ensures CanStep(m, threads[i]) && ForestInv(E, n, f, T) && Represents(m.parents, f) && Valid(f)
    ensures |m.parents| == |m.hooks| == |f.parent| == |f.root| == n && HooksInv(E, f, m.hooks, threads, T)
    ensures |LinkTo(f, threads[i].u, threads[i].v).parent| == |LinkTo(f, threads[i].u, threads[i].v).root| == n
    ensures
      var (u, v) := (threads[i].u, threads[i].v);
      u < v < n && IsRoot(f, u) && EndsOf(f, E[i], u, v) && m.hooks[u] == i && i !in T
  {
    assert ThreadInv(E, f, m.hooks, i, threads[i]);
  }

  lemma ThreadsSurviveLink(E: Edges, n: nat, m: Memory, threads: seq<Thread>, f: Forest, T: set<nat>, i: nat)
    requires Inv(E, n, m, threads, f, T) && i < |E| && threads[i].Linking?
    requires Valid(f) && threads[i].u < n && threads[i].v < n && |f.parent| == n
    requires IsRoot(f, threads[i].u) && f.root[threads[i].v] != threads[i].u
    ensures
      var g := LinkTo(f, threads[i].u, threads[i].v);
      |m.hooks| == |g.root| && ThreadInv(E, g, m.hooks, i, Finished)
      && forall j :: 0 <= j < |E| && j != i ==> ThreadInv(E, g, m.hooks, j, threads[j])
  {
    var u, v := threads[i].u, threads[i].v;
    assert ThreadInv(E, f, m.hooks, i, threads[i]);
    assert ThreadInv(E, LinkTo(f, u, v), m.hooks, i, Finished);
    forall j | 0 <= j < |E| && j != i ensures ThreadInv(E, LinkTo(f, u, v), m.hooks, j, threads[j]) {
      assert ThreadInv(E, f, m.hooks, j, threads[j]);
      hide Inv, Valid;
      ThreadSurvivesLink(E, f, m.hooks, u, v, j, threads[j]);
    }
  }

  lemma InvIs(E: Edges, n: nat, m: Memory, threads: seq<Thread>, f: Forest, T: set<nat>)
    requires |m.parents| == |m.hooks| == |f.root| == |f.parent| == n && |threads| == |E|
    requires ForestInv(E, n, f, T) && Represents(m.parents, f) && HooksInv(E, f, m.hooks, threads, T)
    requires forall i :: 0 <= i < |E| ==> ThreadInv(E, f, m.hooks, i, threads[i])
    ensures Inv(E, n, m, threads, f, T)
  {
  }

  // ---------- the algorithm ----------

  /** When every thread has finished, the linked edges join the ends of every edge. */
  lemma FinishedSpans(E: Edges, n: nat, m: Memory, threads: seq<Thread>, f: Forest, T: set<nat>)
    requires Inv(E, n, m, threads, f, T) && forall i :: 0 <= i < |E| ==> threads[i].Finished?
    ensures Spans(E, T, |E|)
    ensures forall i :: i in T <==> i in m.hooks && i != |E|
  {
    forall i | 0 <= i < |E| ensures Connected(E, T, E[i].0, E[i].1) {
      assert ThreadInv(E, f, m.hooks, i, threads[i]);
    }
  }

  method AccessMemory(E: Edges, i: nat, parents: array<int>, hooks: array<nat>, th: Thread) returns (th': Thread)
    requires parents as object != hooks && CanStep(Memory(parents[..], hooks[..]), th)
    modifies parents, hooks
    ensures (Memory(parents[..], hooks[..]), th') == Step(E, i, old(Memory(parents[..], hooks[..])), th)
  {
    match th {
      case FindU(pc, v) =>
        var pc' := FindAccess(parents, pc);
        th' := if pc'.Found? then FindV(pc'.r, Start(v)) else FindU(pc', v);
      case FindV(u, pc) =>
        var pc' := FindAccess(parents, pc);
        th' := if pc'.Found? then Compare(u, pc'.r) else FindV(u, pc');
      case LoadHook(u, v) => th' := if hooks[u] == |E| then CasHook(u, v) else FindU(Start(u), v);
      case CasHook(u, v) =>
        if hooks[u] == |E| {
          hooks[u] := i;
          th' := Linking(u, v);
        } else {
          th' := FindU(Start(u), v);
        }
      case Linking(u, v) => parents[u] := v; th' := Finished;
      case Finished => th' := th;
    }
  }

  /** A moment of a run: memory and threads, and beside them the forest of the links alone and the edges
      linked so far. */
  datatype Moment = Moment(m: Memory, threads: seq<Thread>, f: Forest, linked: set<nat>)

  ghost predicate Holds(E: Edges, n: nat, at: Moment) {
    Inv(E, n, at.m, at.threads, at.f, at.linked)
  }

  lemma FirstHolds(E: Edges, n: nat, f: Forest, threads: seq<Thread>)
    requires EdgesOn(E, n) && f == Singletons(n)
    requires |threads| == |E| && forall i :: 0 <= i < |E| ==> threads[i] == FindU(Start(E[i].0), E[i].1)
    ensures Inv(E, n, Memory(seq(n, _ => -1), seq(n, _ => |E|)), threads, f, {})
  {
    SingletonsMatch(E, n);
    SingletonsValid(n);
    forall i | 0 <= i < |E| ensures EndsOf(f, E[i], E[i].0, E[i].1) && FindsEnd(f, E[i], threads[i].pc, E[i].1) {
      assert FindInv(f, E[i].0, threads[i].pc);
    }
    hide Matches, IsForest, EndsOf, FindsEnd;
  }

  ghost function First(E: Edges, n: nat): (at: Moment)
    requires EdgesOn(E, n)
    ensures Holds(E, n, at)
  {
    var f := Singletons(n);
    var threads := seq(|E|, i requires 0 <= i < |E| => FindU(Start(E[i].0), E[i].1));
    FirstHolds(E, n, f, threads);
    hide Inv;
    Moment(Memory(seq(n, _ => -1), seq(n, _ => |E|)), threads, f, {})
  }

  /** The moment after one access of the thread of edge i. */
  ghost function Next(E: Edges, n: nat, at: Moment, i: nat): (at': Moment)
    requires Holds(E, n, at) && i < |at.threads|
    ensures Holds(E, n, at')
  {
    hide Inv, Step, ThreadInv;
    InvSizes(E, n, at.m, at.threads, at.f, at.linked);
    InvMeansCanStep(E, n, at.m, at.threads, at.f, at.linked, i);
    var th := at.threads[i];
    var (m', th') := Step(E, i, at.m, th);
    if th.Linking? then
      LinkStepKeepsInv(E, n, at.m, at.threads, at.f, at.linked, i);
      LinkFinishes(E, i, at.m, th);
      Moment(m', at.threads[i := th'], LinkTo(at.f, th.u, th.v), at.linked + {i})
    else
      OtherStepKeepsInv(E, n, at.m, at.threads, at.f, at.linked, i);
      Moment(m', at.threads[i := th'], at.f, at.linked)
  }

  ghost predicate Order(E: Edges, schedule: seq<nat>) {
    forall k :: 0 <= k < |schedule| ==> schedule[k] < |E|
  }

  /** The moment after the accesses of the threads that `schedule` names, in its order. */
  ghost function After(E: Edges, n: nat, schedule: seq<nat>): (at: Moment)
    requires EdgesOn(E, n) && Order(E, schedule)
    ensures Holds(E, n, at)
  {
    if schedule == [] then First(E, n)
    else
      var last := |schedule| - 1;
      var before := After(E, n, schedule[..last]);
      InvSizes(E, n, before.m, before.threads, before.f, before.linked);
      Next(E, n, before, schedule[last])
  }

  /** Runs the threads in the order `schedule` names them, however long.  A thread whose hook is held
      by one that has not linked yet spins, so a schedule may leave threads unfinished; `complete` says
      that none is.  The edges linked never close a cycle, and in a complete run they span and are the
      edges returned. */
  method Run(E: Edges, n: nat, schedule: seq<nat>) returns (edges: seq<nat>, complete: bool)
    requires EdgesOn(E, n) && Order(E, schedule)
    ensures
      var at := After(E, n, schedule);
      && |at.threads| == |E| && (complete <==> forall i :: 0 <= i < |E| ==> at.threads[i].Finished?)
      && IsForest(E, at.linked) && (forall i :: i in at.linked ==> i in edges)
      && (forall i :: i in edges <==> i in at.m.hooks && i != |E|)
      && (complete ==> (forall i :: i in edges <==> i in at.linked) && Spans(E, at.linked, |E|))
    ensures forall i, k :: 0 <= i < k < |edges| ==> edges[i] != edges[k]
  {
    var m := |E|;
    var parents := new int[n](_ => -1);
    var hooks := new nat[n](_ => m);
    var threads := seq(|E|, i requires 0 <= i < |E| => FindU(Start(E[i].0), E[i].1));
    assert parents[..] == seq(n, _ => -1) && hooks[..] == seq(n, _ => m);
    ghost var at := First(E, n);
    hide After, First, Next, Holds, Step, EdgesOn;
    AfterNothing(E, n);
    for k := 0 to |schedule|
      invariant parents as object != hooks && hooks.Length == n
      invariant Order(E, schedule[..k]) && at == After(E, n, schedule[..k])
      invariant Memory(parents[..], hooks[..]) == at.m && threads == at.threads
    {
      var i := schedule[k];
      AfterOneMore(E, n, schedule, k);
      var th := AccessMemory(E, i, parents, hooks, threads[i]);
      threads := threads[i := th];
      at := Next(E, n, at, i);
    }
    assert schedule[..|schedule|] == schedule;
    AtSizes(E, n, at);
    edges := Collect(E, n, hooks, at);
    complete := forall i :: 0 <= i < |threads| ==> threads[i].Finished?;
    if complete {
      AtSpans(E, n, at);
    }
  }

  lemma AfterNothing(E: Edges, n: nat)
    requires EdgesOn(E, n)
    ensures After(E, n, []) == First(E, n)
  {
  }

  /** The step of `After`, and what the access it stands for does. */
  lemma AfterOneMore(E: Edges, n: nat, schedule: seq<nat>, k: nat)
    requires EdgesOn(E, n) && Order(E, schedule) && k < |schedule|
    ensures Order(E, schedule[..k]) && Order(E, schedule[..k + 1])
    ensures
      var at, i := After(E, n, schedule[..k]), schedule[k];
      && Holds(E, n, at) && |at.threads| == |E| && CanStep(at.m, at.threads[i])
      && After(E, n, schedule[..k + 1]) == Next(E, n, at, i)
      && (Next(E, n, at, i).m, Next(E, n, at, i).threads)
        == (Step(E, i, at.m, at.threads[i]).0, at.threads[i := Step(E, i, at.m, at.threads[i]).1])
  {
    hide Inv, Step, ThreadInv;
    var at := After(E, n, schedule[..k]);
    assert schedule[..k + 1][..k] == schedule[..k];
    InvSizes(E, n, at.m, at.threads, at.f, at.linked);
    InvMeansCanStep(E, n, at.m, at.threads, at.f, at.linked, schedule[k]);
  }

  lemma AtSizes(E: Edges, n: nat, at: Moment)
    requires Holds(E, n, at)
    ensures |at.threads| == |E| && |at.m.hooks| == n && IsForest(E, at.linked)
    ensures forall i :: i in at.linked ==> i in at.m.hooks && i != |E|
  {
  }

  lemma AtSpans(E: Edges, n: nat, at: Moment)
    requires Holds(E, n, at) && forall i :: 0 <= i < |at.threads| ==> at.threads[i].Finished?
    ensures Spans(E, at.linked, |E|)
    ensures forall i :: i in at.linked <==> i in at.m.hooks && i != |E|
  {
    hide Inv;
    InvSizes(E, n, at.m, at.threads, at.f, at.linked);
    FinishedSpans(E, n, at.m, at.threads, at.f, at.linked);
  }

  lemma InvSizes(E: Edges, n: nat, m: Memory, threads: seq<Thread>, f: Forest, T: set<nat>)
    requires Inv(E, n, m, threads, f, T)
    ensures |threads| == |E| && |m.hooks| == n && ForestInv(E, n, f, T) && Valid(f)
  {
  }

  lemma LinkFinishes(E: Edges, i: nat, m: Memory, th: Thread)
    requires CanStep(m, th) && th.Linking?
    ensures Step(E, i, m, th) == (m.(parents := m.parents[th.u := th.v]), Finished)
  {
  }

  /** The taken hooks, each once. */
  method Collect(E: Edges, n: nat, hooks: array<nat>, ghost at: Moment) returns (edges: seq<nat>)
    requires hooks.Length == n && Holds(E, n, at) && at.m.hooks == hooks[..]
    ensures forall i, k :: 0 <= i < k < |edges| ==> edges[i] != edges[k]
    ensures forall i :: i in edges <==> i in hooks[..] && i != |E|
  {
    hide ForestInv, Represents, ThreadInv;
    edges := [];
    for x := 0 to n
      invariant forall i :: i in edges <==> i in hooks[..x] && i != |E|
      invariant forall i, k :: 0 <= i < k < |edges| ==> edges[i] != edges[k]
    {
      assert hooks[..x + 1] == hooks[..x] + [hooks[x]];
      if hooks[x] != |E| {
        assert forall y :: 0 <= y < x ==> hooks[..][y] != hooks[..][x];
        assert forall y :: 0 <= y < x ==> hooks[..x][y] == hooks[..][y];
        assert hooks[x] !in hooks[..x];
        edges := edges + [hooks[x]];
      }
    }
    assert hooks[..n] == hooks[..];
  }
}
