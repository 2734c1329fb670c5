/** Coreness by peeling: vertices are kept in buckets by their remaining degree, moved lazily to lower
    buckets as neighbours are peeled, and peeled from the lowest bucket. */
module KCore {
  import opened Permutations
  import opened Schedule

  type Graph = seq<seq<nat>>

  // ---------- counting ----------

  function Count(s: seq<nat>, x: nat): nat {
    if s == [] then 0 else Count(s[1..], x) + if s[0] == x then 1 else 0
  }

  /** How many entries of s are in S. */
  ghost function CountIn(s: seq<nat>, S: set<nat>): nat {
    if s == [] then 0 else CountIn(s[1..], S) + if s[0] in S then 1 else 0
  }

  lemma {:induction false} CountInAdd(s: seq<nat>, S: set<nat>, x: nat)
    requires x !in S
    ensures CountIn(s, S + {x}) == CountIn(s, S) + Count(s, x)
  {
    if s != [] {
      CountInAdd(s[1..], S, x);
    }
  }

  lemma {:induction false} CountInMonotone(s: seq<nat>, S: set<nat>, T: set<nat>)
    requires S <= T
    ensures CountIn(s, S) <= CountIn(s, T)
  {
    if s != [] {
      CountInMonotone(s[1..], S, T);
    }
  }

  lemma {:induction false} CountInMinus(s: seq<nat>, S: set<nat>, T: set<nat>)
    requires T <= S
    ensures CountIn(s, S - T) == CountIn(s, S) - CountIn(s, T)
  {
    if s != [] {
      CountInMinus(s[1..], S, T);
    }
  }

  lemma {:induction false} CountInAll(s: seq<nat>, S: set<nat>)
    requires forall i :: 0 <= i < |s| ==> s[i] in S
    ensures CountIn(s, S) == |s|
  {
    if s != [] {
      CountInAll(s[1..], S);
    }
  }

  lemma {:induction false} CountConcat(s: seq<nat>, t: seq<nat>, x: nat)
    ensures Count(s + t, x) == Count(s, x) + Count(t, x)
  {
    if s == [] {
      assert s + t == t;
    } else {
      assert (s + t)[1..] == s[1..] + t;
      CountConcat(s[1..], t, x);
    }
  }

  // ---------- cores ----------

  ghost predicate Symmetric(G: Graph) {
    && (forall u, i :: 0 <= u < |G| && 0 <= i < |G[u]| ==> G[u][i] < |G|)
    && forall u, v :: 0 <= u < |G| && 0 <= v < |G| ==> Count(G[u], v) == Count(G[v], u)
  }

  /** Every vertex of S has at least k neighbours in S. */
  ghost predicate IsCore(G: Graph, S: set<nat>, k: nat) {
    forall v :: v in S ==> v < |G| && CountIn(G[v], S) >= k
  }

  /** c is the largest k such that v lies in a set of vertices of minimum degree k. */
  ghost predicate Coreness(G: Graph, v: nat, c: nat) {
    (exists S: set<nat> :: v in S && IsCore(G, S, c)) && forall S: set<nat>, k: nat :: v in S && IsCore(G, S, k) ==>
      k <= c
  }

  lemma {:induction false} CoreOfLess(G: Graph, S: set<nat>, j: nat, k: nat)
    requires IsCore(G, S, k) && j <= k
    ensures IsCore(G, S, j)
  {
  }

  /** Only one number is the coreness. */
  lemma CorenessIsUnique(G: Graph, v: nat, c: nat, c': nat)
    requires Coreness(G, v, c) && Coreness(G, v, c')
    ensures c == c'
  {
  }

  // ---------- peeling ----------

  ghost function Alive(done: seq<bool>): set<nat> {
    set v | 0 <= v < |done| && !done[v]
  }

  ghost function Live(G: Graph, done: seq<bool>, v: nat): nat
    requires v < |G|
  {
    CountIn(G[v], Alive(done))
  }

  /** d is the remaining degree, but not below k; what was peeled has its coreness, and no vertex of a
      set of minimum degree k + 1 was peeled.  Everything that was alive when level k began, A, has
      degree k there. */
  ghost predicate Peeled(G: Graph, done: seq<bool>, d: seq<int>, k: nat, A: set<nat>) {
    && |done| == |d| == |G|
    && (forall v :: 0 <= v < |G| && !done[v] ==> d[v] == if Live(G, done, v) > k then Live(G, done, v) else k)
    && (forall v :: 0 <= v < |G| && done[v] ==> 0 <= d[v] <= k && Coreness(G, v, d[v]))
    && Alive(done) <= A && IsCore(G, A, k)
    && forall S: set<nat> :: IsCore(G, S, k + 1) ==> S <= Alive(done)
  }

  /** The vertices of b are marked, and their other neighbours' degrees lowered. */
  ghost predicate PeelStep(G: Graph, done: seq<bool>, d: seq<int>, k: nat, b: seq<nat>, done': seq<bool>, d': seq<int>)
    requires |done| == |d| == |G|
  {
    && |done'| == |d'| == |G|
    && (forall i :: 0 <= i < |b| ==> b[i] < |G| && !done[b[i]] && d[b[i]] == k)
    && (forall v :: 0 <= v < |G| ==> (done'[v] <==> done[v] || v in b))
    && forall v :: 0 <= v < |G| ==>
      d'[v] == if d[v] > k && d[v] - CountIn(G[v], Elements(b)) > k then d[v] - CountIn(G[v], Elements(b))
               else if d[v] > k then k else d[v]
  }

  lemma AliveAfter(done: seq<bool>, done': seq<bool>, b: seq<nat>)
    requires |done'| == |done| && forall v :: 0 <= v < |done| ==> (done'[v] <==> done[v] || v in b)
    ensures Alive(done') == Alive(done) - Elements(b)
  {
  }

  lemma PeeledNow(G: Graph, done': seq<bool>, k: nat, A: set<nat>, v: nat)
    requires v in A && IsCore(G, A, k) && v !in Alive(done')
    requires forall S: set<nat> :: IsCore(G, S, k + 1) ==> S <= Alive(done')
    ensures Coreness(G, v, k)
  {
    forall S: set<nat>, j: nat | v in S && IsCore(G, S, j) ensures j <= k {
      assert IsCore(G, S, k + 1) ==> S <= Alive(done');
      if j > k {
        CoreOfLess(G, S, k + 1, j);
      }
    }
  }

  lemma CoreIsAbove(G: Graph, done: seq<bool>, S: set<nat>, k: nat)
    requires IsCore(G, S, k + 1) && S <= Alive(done)
    ensures forall v :: v in S ==> v < |G| && Live(G, done, v) > k
  {
    forall v | v in S ensures v < |G| && Live(G, done, v) > k {
      CountInMonotone(G[v], S, Alive(done));
    }
  }

  lemma PeelKeeps(G: Graph, done: seq<bool>, d: seq<int>, k: nat, A: set<nat>, b: seq<nat>, done': seq<bool>,
      d': seq<int>)
    requires Peeled(G, done, d, k, A) && PeelStep(G, done, d, k, b, done', d')
    ensures Peeled(G, done', d', k, A)
  {
    hide CountIn, Coreness, Elements;
    var B := Elements(b);
    AliveAfter(done, done', b);
    forall x | x in B ensures x in Alive(done) {
      var i :| 0 <= i < |b| && b[i] == x;
    }
    forall v | 0 <= v < |G| && !done'[v] ensures d'[v] == if Live(G, done', v) > k then Live(G, done', v) else k {
      CountInMinus(G[v], Alive(done), B);
    }
    forall S: set<nat> | IsCore(G, S, k + 1) ensures S <= Alive(done') {
      CoreIsAbove(G, done, S, k);
      assert forall v :: v in B ==> Live(G, done, v) <= k;
    }
    forall v | 0 <= v < |G| && done'[v] ensures 0 <= d'[v] <= k && Coreness(G, v, d'[v]) {
      if !done[v] {
        assert v in B && v in A && d'[v] == k;
        PeeledNow(G, done', k, A, v);
      }
    }
  }

  /** No vertex at level k is left: the next level begins. */
  lemma LevelKeeps(G: Graph, done: seq<bool>, d: seq<int>, k: nat, A: set<nat>)
    requires Peeled(G, done, d, k, A) && forall v :: 0 <= v < |G| && !done[v] ==> d[v] != k
    ensures Peeled(G, done, d, k + 1, Alive(done))
  {
  }

  lemma PeelStarts(G: Graph, done: seq<bool>, d: seq<int>)
    requires Symmetric(G) && |done| == |d| == |G| && (forall v :: 0 <= v < |G| ==> !done[v] && d[v] == |G[v]|)
    ensures Peeled(G, done, d, 0, Alive(done))
  {
    forall v | 0 <= v < |G| ensures Live(G, done, v) == |G[v]| {
      CountInAll(G[v], Alive(done));
    }
  }

  // ---------- the buckets ----------

  type Buckets = seq<seq<seq<nat>>>

  function Flatten(b: seq<seq<nat>>): seq<nat> {
    if b == [] then [] else Flatten(b[..|b| - 1]) + b[|b| - 1]
  }

  /** A bucket lists vertices at most once each, of degree now at most its number; a vertex not yet
      peeled is in the bucket of its degree. */
  ghost predicate Bucketed(done: seq<bool>, d: seq<int>, buckets: Buckets)
    requires |d| == |done|
  {
    && (forall x :: 0 <= x < |buckets| ==> Distinct(Flatten(buckets[x])))
    && (forall x, i :: 0 <= x < |buckets| && 0 <= i < |Flatten(buckets[x])| ==>
      Flatten(buckets[x])[i] < |d| && d[Flatten(buckets[x])[i]] <= x)
    && forall v :: 0 <= v < |d| && !done[v] ==> 0 <= d[v] < |buckets| && v in Flatten(buckets[d[v]])
  }

  /** Those of the listed pairs whose first is x, in order. */
  function Select(pairs: seq<(int, nat)>, x: int): (r: seq<nat>)
    ensures forall v: nat :: v in r <==> (x, v) in pairs
  {
    if pairs == [] then []
    else
      var p := pairs[|pairs| - 1];
      assert pairs == pairs[..|pairs| - 1] + [p];
      Select(pairs[..|pairs| - 1], x) + if p.0 == x then [p.1] else []
  }

  /** Every vertex is listed once. */
  ghost predicate OnePair(pairs: seq<(int, nat)>) {
    forall i, j :: 0 <= i < j < |pairs| ==> pairs[i].1 != pairs[j].1
  }

  lemma {:induction false} SelectDistinct(pairs: seq<(int, nat)>, x: int)
    requires OnePair(pairs)
    ensures Distinct(Select(pairs, x))
  {
    if pairs != [] {
      var front, p := pairs[..|pairs| - 1], pairs[|pairs| - 1];
      SelectDistinct(front, x);
      var r := Select(front, x);
      forall i | 0 <= i < |r| ensures r[i] != p.1 {
        assert r[i] in r;
        assert (x, r[i]) in front;
      }
    }
  }

  /** Each group of pairs with the same first goes to the bucket of that number. */
  method PushGroups(buckets: Buckets, pairs: seq<(int, nat)>) returns (buckets': Buckets)
    ensures |buckets'| == |buckets|
    ensures forall x :: 0 <= x < |buckets| ==> Flatten(buckets'[x]) == Flatten(buckets[x]) + Select(pairs, x)
  {
    buckets' := buckets;
    for x := 0 to |buckets|
      invariant |buckets'| == |buckets|
      invariant forall y :: 0 <= y < x ==> Flatten(buckets'[y]) == Flatten(buckets[y]) + Select(pairs, y)
      invariant forall y :: x <= y < |buckets| ==> buckets'[y] == buckets[y]
    {
      var group := Select(pairs, x);
      if group != [] {
        buckets' := buckets'[x := buckets'[x] + [group]];
        assert (buckets[x] + [group])[..|buckets[x]|] == buckets[x];
      } else {
        assert Flatten(buckets[x]) + group == Flatten(buckets[x]);
      }
    }
  }

  /** The vertices whose degree changed are listed with their new degree. */
  ghost predicate Moved(d: seq<int>, d': seq<int>, pairs: seq<(int, nat)>) {
    && |d'| == |d| && OnePair(pairs)
    && (forall i :: 0 <= i < |pairs| ==> pairs[i].1 < |d| && pairs[i].0 == d'[pairs[i].1] < d[pairs[i].1])
    && forall v: nat :: v < |d| && d'[v] != d[v] ==> (d'[v], v) in pairs
  }

  /** Moving to a lower bucket never lists a vertex twice, and leaves it where it was. */
  lemma MoveKeepsBuckets(done: seq<bool>, d: seq<int>, buckets: Buckets, d': seq<int>, pairs: seq<(int, nat)>,
      buckets': Buckets)
    requires |d| == |done| && Bucketed(done, d, buckets) && Moved(d, d', pairs) && |buckets'| == |buckets|
    requires forall v :: 0 <= v < |d| && !done[v] ==> 0 <= d'[v]
    requires forall x :: 0 <= x < |buckets| ==> Flatten(buckets'[x]) == Flatten(buckets[x]) + Select(pairs, x)
    ensures Bucketed(done, d', buckets')
  {
    assert forall v :: 0 <= v < |d| ==> d'[v] <= d[v] by {
      forall v | 0 <= v < |d| ensures d'[v] <= d[v] {
        if d'[v] != d[v] {
          var i :| 0 <= i < |pairs| && pairs[i] == (d'[v], v);
        }
      }
    }
    forall x | 0 <= x < |buckets|
      ensures Distinct(Flatten(buckets'[x]))
      ensures forall i :: 0 <= i < |Flatten(buckets'[x])| ==>
        Flatten(buckets'[x])[i] < |d| && d'[Flatten(buckets'[x])[i]] <= x
    {
      BucketAfterMove(done, d, buckets, d', pairs, x);
    }
  }

  lemma BucketAfterMove(done: seq<bool>, d: seq<int>, buckets: Buckets, d': seq<int>, pairs: seq<(int, nat)>, x: nat)
    requires |d| == |done| && Bucketed(done, d, buckets) && Moved(d, d', pairs) && x < |buckets|
    requires forall v :: 0 <= v < |d| ==> d'[v] <= d[v]
    ensures
      var s := Flatten(buckets[x]) + Select(pairs, x);
      Distinct(s) && forall i :: 0 <= i < |s| ==> s[i] < |d| && d'[s[i]] <= x
  {
    var r, g := Flatten(buckets[x]), Select(pairs, x);
    SelectDistinct(pairs, x);
    forall i | 0 <= i < |g| ensures g[i] < |d| && d'[g[i]] == x < d[g[i]] {
      assert g[i] in g;
      var j :| 0 <= j < |pairs| && pairs[j] == (x, g[i]);
    }
  }

  // ---------- taking a bucket ----------

  /** The predicate of the filter for one listed vertex: read its flag, set it if it was not set. */
  datatype Pc = Read | Write | Ended(kept: bool)

  function TakeStep(done: seq<bool>, v: nat, pc: Pc): (seq<bool>, Pc)
    requires v < |done|
  {
    match pc
    case Read => (done, if done[v] then Ended(false) else Write)
    case Write => (done[v := true], Ended(true))
    case Ended(_) => (done, pc)
  }

  function StepsLeft(pc: Pc): nat {
    match pc
    case Read => 2
    case Write => 1
    case Ended(_) => 0
  }

  /** A thread keeps its vertex if it was not done before, and then marks it. */
  ghost predicate Taking(done0: seq<bool>, L: seq<nat>, done: seq<bool>, pcs: seq<Pc>) {
    && |done| == |done0| && |pcs| == |L| && Below(L, |done0|) && Distinct(L)
    && (forall v :: 0 <= v < |done| && done[v] != done0[v] ==>
      exists t :: 0 <= t < |L| && L[t] == v && pcs[t] == Ended(true))
    && forall t :: 0 <= t < |L| ==>
      match pcs[t]
      case Read => done[L[t]] == done0[L[t]]
      case Write => !done0[L[t]]
      case Ended(kept) => done[L[t]] && (kept <==> !done0[L[t]])
  }

  lemma TakeKeeps(done0: seq<bool>, L: seq<nat>, done: seq<bool>, pcs: seq<Pc>, t: nat)
    requires Taking(done0, L, done, pcs) && t < |L|
    ensures
      var (done', pc') := TakeStep(done, L[t], pcs[t]);
      Taking(done0, L, done', pcs[t := pc'])
  {
  }

  method TakeAccess(done: array<bool>, v: nat, pc: Pc) returns (pc': Pc)
    requires v < done.Length
    modifies done
    ensures (done[..], pc') == TakeStep(old(done[..]), v, pc)
  {
    match pc
    case Read => pc' := if done[v] then Ended(false) else Write;
    case Write =>
      done[v] := true;
      pc' := Ended(true);
    case Ended(_) => pc' := pc;
  }

  /** Marks the listed vertices; returns, in order, those that were not done, whatever the order of the
      threads. */
  method Take(done: array<bool>, L: seq<nat>) returns (b: seq<nat>)
    requires Below(L, done.Length) && Distinct(L)
    modifies done
    ensures Distinct(b) && forall v: nat :: v in b <==> v in L && !old(done[..])[v]
    ensures forall v :: 0 <= v < done.Length ==> (done[v] <==> old(done[v]) || v in L)
  {
    ghost var done0 := done[..];
    var pcs: seq<Pc> := seq(|L|, _ => Read);
    while exists t :: 0 <= t < |pcs| && !pcs[t].Ended?
      invariant Taking(done0, L, done[..], pcs)
      decreases Work(StepsLeft, pcs)
    {
      var t :| 0 <= t < |pcs| && !pcs[t].Ended?;
      TakeKeeps(done0, L, done[..], pcs, t);
      var pc := TakeAccess(done, L[t], pcs[t]);
      WorkAfterStep(StepsLeft, pcs, t, pc);
      pcs := pcs[t := pc];
    }
    TakenAll(done0, L, done[..], pcs);
    b := [];
    for t := 0 to |L|
      invariant Distinct(b) && forall v: nat :: v in b <==> v in L[..t] && !done0[v]
    {
      assert L[..t + 1] == L[..t] + [L[t]];
      assert forall u :: 0 <= u < t ==> L[..t][u] != L[t];
      if pcs[t].kept {
        b := b + [L[t]];
      }
    }
    assert L[..|L|] == L;
  }

  lemma TakenAll(done0: seq<bool>, L: seq<nat>, done: seq<bool>, pcs: seq<Pc>)
    requires Taking(done0, L, done, pcs) && forall t :: 0 <= t < |pcs| ==> pcs[t].Ended?
    ensures forall v :: 0 <= v < |done| ==> (done[v] <==> done0[v] || v in L)
    ensures forall t :: 0 <= t < |L| ==> (pcs[t].kept <==> !done0[L[t]])
  {
  }

  // ---------- lowering the degrees ----------

  /** The neighbours of the vertices of b, one list after the other. */
  function Neighbours(G: Graph, b: seq<nat>): seq<nat>
    requires Below(b, |G|)
  {
    if b == [] then [] else Neighbours(G, b[..|b| - 1]) + G[b[|b| - 1]]
  }

  /** Those of degree above k. */
  function Above(s: seq<nat>, d: seq<int>, k: nat): seq<nat>
    requires Below(s, |d|)
  {
    if s == [] then [] else (if d[s[0]] > k then [s[0]] else []) + Above(s[1..], d, k)
  }

  lemma {:induction false} AboveCount(s: seq<nat>, d: seq<int>, k: nat, u: nat)
    requires Below(s, |d|) && u < |d|
    ensures Count(Above(s, d, k), u) == if d[u] > k then Count(s, u) else 0
    ensures Below(Above(s, d, k), |d|)
  {
    if s != [] {
      AboveCount(s[1..], d, k, u);
      CountConcat(if d[s[0]] > k then [s[0]] else [], Above(s[1..], d, k), u);
    }
  }

  lemma {:induction false} NeighboursBelow(G: Graph, b: seq<nat>)
    requires Symmetric(G) && Below(b, |G|)
    ensures Below(Neighbours(G, b), |G|)
  {
    if b != [] {
      NeighboursBelow(G, b[..|b| - 1]);
    }
  }

  lemma SameCount(G: Graph, u: nat, v: nat)
    requires Symmetric(G) && u < |G| && v < |G|
    ensures Count(G[u], v) == Count(G[v], u)
  {
  }

  /** By symmetry, the number of times u is listed is the number of its neighbours in b. */
  lemma {:induction false} NeighboursCount(G: Graph, b: seq<nat>, u: nat)
    requires Symmetric(G) && Below(b, |G|) && Distinct(b) && u < |G|
    ensures Count(Neighbours(G, b), u) == CountIn(G[u], Elements(b))
  {
    hide Count, CountIn, Symmetric;
    if b == [] {
      NothingListed(u);
      NoneIn(G[u]);
    } else {
      var front, v := b[..|b| - 1], b[|b| - 1];
      SameCount(G, u, v);
      NeighboursCount(G, front, u);
      CountConcat(Neighbours(G, front), G[v], u);
      CountInAdd(G[u], Elements(front), v);
    }
  }

  lemma NothingListed(x: nat)
    ensures Count([], x) == 0
  {
  }

  lemma {:induction false} NoneIn(s: seq<nat>)
    ensures CountIn(s, {}) == 0
  {
    if s != [] {
      NoneIn(s[1..]);
    }
  }

  /** Each key once, with the number of times it occurs. */
  ghost predicate IsHistogram(s: seq<nat>, hist: seq<(nat, nat)>) {
    && (forall i, j :: 0 <= i < j < |hist| ==> hist[i].0 != hist[j].0)
    && (forall i :: 0 <= i < |hist| ==> hist[i].0 in s && hist[i].1 == Count(s, hist[i].0))
    && forall x :: x in s ==> (x, Count(s, x)) in hist
  }

  lemma {:induction false} CountPositive(s: seq<nat>, x: nat)
    ensures Count(s, x) > 0 <==> x in s
  {
    if s != [] {
      CountPositive(s[1..], x);
    }
  }

  method Histogram(s: seq<nat>) returns (hist: seq<(nat, nat)>)
    ensures IsHistogram(s, hist)
  {
    hist := [];
    var seen: set<nat> := {};
    for i := 0 to |s|
      invariant forall x :: x in seen <==> x in s[..i]
      invariant forall j :: 0 <= j < |hist| ==> hist[j].0 in seen && hist[j].1 == Count(s, hist[j].0)
      invariant forall j, l :: 0 <= j < l < |hist| ==> hist[j].0 != hist[l].0
      invariant forall x :: x in seen ==> (x, Count(s, x)) in hist
    {
      assert s[..i + 1] == s[..i] + [s[i]];
      if s[i] !in seen {
        seen := seen + {s[i]};
        hist := hist + [(s[i], Count(s, s[i]))];
      }
    }
    assert s[..|s|] == s;
  }

  /** Lowers the degree of each key by its count, down to k. */
  method Lower(d: array<int>, k: nat, hist: seq<(nat, nat)>) returns (pairs: seq<(int, nat)>)
    requires forall i :: 0 <= i < |hist| ==> hist[i].0 < d.Length && d[hist[i].0] > k && hist[i].1 > 0
    requires forall i, j :: 0 <= i < j < |hist| ==> hist[i].0 != hist[j].0
    modifies d
    ensures LoweredBy(old(d[..]), d[..], k, hist, pairs)
  {
    pairs := [];
    for t := 0 to |hist|
      invariant |pairs| == t
      invariant forall i :: 0 <= i < t ==>
        && pairs[i] == (d[hist[i].0], hist[i].0)
        && d[hist[i].0] == (if old(d[..])[hist[i].0] - hist[i].1 > k then old(d[..])[hist[i].0] - hist[i].1 else k)
      invariant forall v :: 0 <= v < d.Length && (forall i :: 0 <= i < t ==> hist[i].0 != v) ==> d[v] == old(d[v])
    {
      var (u, c) := hist[t];
      d[u] := if d[u] - c > k then d[u] - c else k;
      pairs := pairs + [(d[u], u)];
    }
  }

  // ---------- the algorithm ----------

  /** The keys are the vertices of degree above k with neighbours in b, and how many those are. */
  ghost predicate Falls(G: Graph, d: seq<int>, k: nat, b: seq<nat>, hist: seq<(nat, nat)>)
    requires |d| == |G|
  {
    && (forall i, j :: 0 <= i < j < |hist| ==> hist[i].0 != hist[j].0)
    && (forall i :: 0 <= i < |hist| ==>
      hist[i].0 < |G| && d[hist[i].0] > k && hist[i].1 == CountIn(G[hist[i].0], Elements(b)) > 0)
    && forall u: nat :: u < |G| && d[u] > k && CountIn(G[u], Elements(b)) > 0 ==>
      (u, CountIn(G[u], Elements(b))) in hist
  }

  lemma HistogramFalls(G: Graph, d: seq<int>, k: nat, b: seq<nat>, ngh: seq<nat>, hist: seq<(nat, nat)>)
    requires Symmetric(G) && |d| == |G| > 0 && Below(b, |G|) && Distinct(b)
    requires Below(Neighbours(G, b), |G|) && ngh == Above(Neighbours(G, b), d, k) && IsHistogram(ngh, hist)
    ensures Falls(G, d, k, b, hist)
  {
    forall u: nat | u < |G|
      ensures Count(ngh, u) == if d[u] > k then CountIn(G[u], Elements(b)) else 0
      ensures u in ngh <==> Count(ngh, u) > 0
    {
      NeighboursCount(G, b, u);
      AboveCount(Neighbours(G, b), d, k, u);
      CountPositive(ngh, u);
    }
    forall i | 0 <= i < |hist| ensures hist[i].0 < |G| {
      assert hist[i].0 in ngh;
      var j :| 0 <= j < |ngh| && ngh[j] == hist[i].0;
      AboveCount(Neighbours(G, b), d, k, 0);
    }
    hide Count, CountIn, Elements;
  }

  /** Each key's degree is lowered by its count, down to k; the others stay. */
  ghost predicate LoweredBy(d: seq<int>, d': seq<int>, k: nat, hist: seq<(nat, nat)>, pairs: seq<(int, nat)>) {
    && |d'| == |d| && |pairs| == |hist|
    && (forall i :: 0 <= i < |hist| ==>
      var (u, c) := hist[i];
      u < |d| && pairs[i] == (d'[u], u) && d'[u] == if d[u] - c > k then d[u] - c else k)
    && forall v :: 0 <= v < |d| && (forall i :: 0 <= i < |hist| ==> hist[i].0 != v) ==> d'[v] == d[v]
  }

  /** What the lowering means for the peeling and for the buckets. */
  lemma LowerPeels(G: Graph, done: seq<bool>, d: seq<int>, k: nat, b: seq<nat>, done': seq<bool>, d': seq<int>,
      hist: seq<(nat, nat)>, pairs: seq<(int, nat)>)
    requires |done| == |d| == |done'| == |d'| == |G|
    requires forall i :: 0 <= i < |b| ==> b[i] < |G| && !done[b[i]] && d[b[i]] == k
    requires forall v :: 0 <= v < |G| ==> (done'[v] <==> done[v] || v in b)
    requires Falls(G, d, k, b, hist) && LoweredBy(d, d', k, hist, pairs)
    ensures PeelStep(G, done, d, k, b, done', d') && Moved(d, d', pairs)
  {
  }

  lemma BucketTaken(done: seq<bool>, d: seq<int>, buckets: Buckets, k: nat, b: seq<nat>, done': seq<bool>)
    requires |d| == |done| == |done'| && Bucketed(done, d, buckets) && k < |buckets|
    requires forall v :: 0 <= v < |d| ==> (done'[v] <==> done[v] || v in Flatten(buckets[k]))
    ensures Bucketed(done', d, buckets[k := []])
    ensures forall v :: 0 <= v < |d| && !done'[v] ==> d[v] != k
  {
  }

  ghost function DoneSet(done: seq<bool>): set<nat> {
    set v | 0 <= v < |done| && done[v]
  }

  lemma DoneGrows(done: seq<bool>, done': seq<bool>, b: seq<nat>)
    requires |done'| == |done| && Distinct(b) && Below(b, |done|) && (forall i :: 0 <= i < |b| ==> !done[b[i]])
    requires forall v :: 0 <= v < |done| ==> (done'[v] <==> done[v] || v in b)
    ensures |DoneSet(done')| == |DoneSet(done)| + |b|
  {
    assert DoneSet(done') == DoneSet(done) + Elements(b);
    assert DoneSet(done) !! Elements(b) by {
      forall x | x in Elements(b) ensures x !in DoneSet(done) {
        var i :| 0 <= i < |b| && b[i] == x;
      }
    }
  }

  /** Fewer done than there are: some vertex is left, of degree at least k. */
  lemma SomeLeft(G: Graph, done: seq<bool>, d: seq<int>, k: nat, A: set<nat>, buckets: Buckets)
    requires Peeled(G, done, d, k, A) && Bucketed(done, d, buckets) && |DoneSet(done)| < |G|
    ensures k < |buckets|
    ensures (forall v :: 0 <= v < |G| && !done[v] ==> d[v] != k) ==> k + 1 < |buckets|
  {
    var missing := Range(|G|) - DoneSet(done);
    assert DoneSet(done) + missing == Range(|G|);
    var v :| v in missing;
    assert v < |G| && !done[v];
  }

  lemma AllPeeled(G: Graph, done: seq<bool>, d: seq<int>, k: nat, A: set<nat>, buckets: Buckets, total: int)
    requires AtLevel(G, done, d, k, A, buckets, total) && total >= |G|
    ensures |d| == |G| && forall v :: 0 <= v < |G| ==> d[v] >= 0 && Coreness(G, v, d[v])
  {
    var missing := Range(|G|) - DoneSet(done);
    assert DoneSet(done) <= Range(|G|);
    assert |missing| == 0;
    forall v | 0 <= v < |G| ensures done[v] {
      assert v in Range(|G|) && v !in missing;
    }
  }

  /** The degrees, one more than the largest, and the vertices by degree. */
  method Start(G: Graph) returns (done: array<bool>, d: array<int>, buckets: Buckets)
    requires |G| > 0
    ensures fresh(done) && fresh(d) && done.Length == d.Length == |G|
    ensures forall v :: 0 <= v < |G| ==> !done[v] && d[v] == |G[v]|
    ensures Bucketed(done[..], d[..], buckets)
  {
    var n := |G|;
    done, d := new bool[n](_ => false), new int[n];
    var maxd := 0;
    var di: seq<(int, nat)> := [];
    for v := 0 to n
      invariant forall u :: 0 <= u < n ==> !done[u]
      invariant |di| == v && forall u :: 0 <= u < v ==> d[u] == |G[u]| < maxd && di[u] == (d[u], u)
      invariant maxd >= 0
    {
      d[v] := |G[v]|;
      if d[v] >= maxd {
        maxd := d[v] + 1;
      }
      di := di + [(d[v], v)];
    }
    buckets := seq(maxd, x requires 0 <= x < maxd => [Select(di, x)]);
    StartBuckets(done[..], d[..], di, buckets);
  }

  lemma OneGroup(group: seq<nat>)
    ensures Flatten([group]) == group
  {
  }

  lemma FirstBucket(d: seq<int>, di: seq<(int, nat)>, x: nat)
    requires |d| == |di| && forall v :: 0 <= v < |d| ==> di[v] == (d[v], v)
    ensures Distinct(Select(di, x))
      && forall i :: 0 <= i < |Select(di, x)| ==> Select(di, x)[i] < |d| && d[Select(di, x)[i]] <= x
    ensures forall v: nat :: v < |d| && d[v] == x ==> v in Select(di, x)
  {
    SelectDistinct(di, x);
    var s := Select(di, x);
    hide Select;
    forall i | 0 <= i < |s| ensures s[i] < |d| && d[s[i]] <= x {
      assert s[i] in s;
      assert (x as int, s[i]) in di;
    }
    forall v: nat | v < |d| && d[v] == x ensures v in s {
      assert di[v] in di;
    }
  }

  lemma StartBuckets(done: seq<bool>, d: seq<int>, di: seq<(int, nat)>, buckets: Buckets)
    requires |d| == |done| == |di| && forall v :: 0 <= v < |d| ==> 0 <= d[v] < |buckets| && di[v] == (d[v], v)
    requires forall x :: 0 <= x < |buckets| ==> buckets[x] == [Select(di, x)]
    ensures Bucketed(done, d, buckets)
  {
    hide Flatten, Select;
    forall x: nat | x < |buckets|
      ensures Flatten(buckets[x]) == Select(di, x) && Distinct(Select(di, x))
      ensures forall i :: 0 <= i < |Select(di, x)| ==> Select(di, x)[i] < |d| && d[Select(di, x)[i]] <= x
      ensures forall v: nat :: v < |d| && d[v] == x ==> v in Select(di, x)
    {
      OneGroup(Select(di, x));
      FirstBucket(d, di, x);
    }
  }

  /** The loop invariant. */
  ghost predicate AtLevel(G: Graph, done: seq<bool>, d: seq<int>, k: nat, A: set<nat>, buckets: Buckets, total: int) {
    Peeled(G, done, d, k, A) && Bucketed(done, d, buckets) && total == |DoneSet(done)|
  }

  lemma StartLevel(G: Graph, done: seq<bool>, d: seq<int>, buckets: Buckets)
    requires Symmetric(G) && |done| == |d| == |G| && (forall v :: 0 <= v < |G| ==> !done[v] && d[v] == |G[v]|)
    requires Bucketed(done, d, buckets)
    ensures AtLevel(G, done, d, 0, Alive(done), buckets, 0)
  {
    PeelStarts(G, done, d);
    assert DoneSet(done) == {};
  }

  lemma NextLevel(G: Graph, done: seq<bool>, d: seq<int>, k: nat, A: set<nat>, buckets: Buckets, total: int)
    requires AtLevel(G, done, d, k, A, buckets, total) && |d| == |done| == |G|
    requires forall v :: 0 <= v < |G| && !done[v] ==> d[v] != k
    ensures AtLevel(G, done, d, k + 1, Alive(done), buckets, total)
    ensures total < |G| ==> k + 1 < |buckets|
  {
    if total < |G| {
      SomeLeft(G, done, d, k, A, buckets);
    }
    LevelKeeps(G, done, d, k, A);
  }

  lemma LevelInRange(G: Graph, done: seq<bool>, d: seq<int>, k: nat, A: set<nat>, buckets: Buckets, total: int)
    requires AtLevel(G, done, d, k, A, buckets, total) && total < |G|
    ensures |d| == |done| == |G| && k < |buckets|
  {
    SomeLeft(G, done, d, k, A, buckets);
  }

  /** Takes the vertices of bucket k that are left, and lowers their neighbours. */
  method PeelBucket(G: Graph, done: array<bool>, d: array<int>, buckets: Buckets, k: nat, ghost A: set<nat>,
      ghost total: int)
    returns (b: seq<nat>, buckets': Buckets)
    requires Symmetric(G) && done.Length == d.Length == |G| && done as object != d && k < |buckets|
    requires AtLevel(G, done[..], d[..], k, A, buckets, total)
    modifies done, d
    ensures AtLevel(G, done[..], d[..], k, A, buckets', total + |b|) && |buckets'| == |buckets|
    ensures b == [] ==> forall v :: 0 <= v < |G| && !done[v] ==> d[v] != k
  {
    ghost var done0, d0 := done[..], d[..];
    var L := Flatten(buckets[k]);
    b := Take(done, L);
    buckets' := buckets[k := []];
    BucketTaken(done0, d0, buckets, k, b, done[..]);
    TakenAtLevel(G, done0, d0, k, A, buckets, b);
    DoneGrows(done0, done[..], b);
    if b == [] {
      assert forall v: nat :: v in L ==> done0[v];
      assert done[..] == done0;
      return;
    }
    buckets' := LowerNeighbours(G, done[..], d, buckets', k, b, done0, A);
  }

  method LowerNeighbours(G: Graph, ghost done: seq<bool>, d: array<int>, buckets: Buckets, k: nat, b: seq<nat>,
      ghost done0: seq<bool>, ghost A: set<nat>)
    returns (buckets': Buckets)
    requires Symmetric(G) && |done| == |done0| == d.Length == |G| > 0 && Distinct(b) && Below(b, |G|)
    requires forall i :: 0 <= i < |b| ==> b[i] < |G| && !done0[b[i]] && d[b[i]] == k
    requires forall v :: 0 <= v < |G| ==> (done[v] <==> done0[v] || v in b)
    requires Peeled(G, done0, d[..], k, A) && Bucketed(done, d[..], buckets)
    modifies d
    ensures Peeled(G, done, d[..], k, A) && Bucketed(done, d[..], buckets') && |buckets'| == |buckets|
  {
    ghost var d0 := d[..];
    hide Peeled, Bucketed, Symmetric, PeelStep, Moved, IsHistogram, Above, Neighbours, Distinct;
    NeighboursBelow(G, b);
    var nearby := Neighbours(G, b);
    var ngh := Above(nearby, d[..], k);
    var hist := Histogram(ngh);
    HistogramFalls(G, d0, k, b, ngh, hist);
    var pairs := Lower(d, k, hist);
    LowerPeels(G, done0, d0, k, b, done, d[..], hist, pairs);
    PeelKeeps(G, done0, d0, k, A, b, done, d[..]);
    buckets' := PushGroups(buckets, pairs);
    DegreesStay(G, done, d[..], k, A);
    MoveKeepsBuckets(done, d0, buckets, d[..], pairs, buckets');
  }

  lemma DegreesStay(G: Graph, done: seq<bool>, d: seq<int>, k: nat, A: set<nat>)
    requires Peeled(G, done, d, k, A)
    ensures |d| == |done| == |G| && forall v :: 0 <= v < |d| ==> 0 <= d[v]
  {
  }

  /** Those taken are at level k. */
  lemma TakenAtLevel(G: Graph, done: seq<bool>, d: seq<int>, k: nat, A: set<nat>, buckets: Buckets, b: seq<nat>)
    requires Peeled(G, done, d, k, A) && Bucketed(done, d, buckets) && k < |buckets|
    requires forall v: nat :: v in b <==> v in Flatten(buckets[k]) && !done[v]
    ensures Below(b, |G|) && forall i :: 0 <= i < |b| ==> b[i] < |G| && !done[b[i]] && d[b[i]] == k
  {
    forall i | 0 <= i < |b| ensures b[i] < |G| && !done[b[i]] && d[b[i]] == k {
      assert b[i] in b;
      var j :| 0 <= j < |Flatten(buckets[k])| && Flatten(buckets[k])[j] == b[i];
    }
  }

  /** One round: peels what bucket k holds, or, if nothing, ends level k. */
  method Round(G: Graph, done: array<bool>, d: array<int>, buckets: Buckets, k: nat, ghost A: set<nat>,
      ghost total: int)
    returns (more: nat, buckets': Buckets, ghost A': set<nat>)
    requires Symmetric(G) && done.Length == d.Length == |G| && done as object != d
    requires AtLevel(G, done[..], d[..], k, A, buckets, total) && total < |G|
    modifies done, d
    ensures |buckets'| == |buckets|
    ensures more > 0 ==> AtLevel(G, done[..], d[..], k, A', buckets', total + more)
    ensures more == 0 ==> AtLevel(G, done[..], d[..], k + 1, A', buckets', total) && k + 1 < |buckets'|
  {
    hide *;
    LevelInRange(G, done[..], d[..], k, A, buckets, total);
    var b;
    b, buckets' := PeelBucket(G, done, d, buckets, k, A, total);
    more, A' := |b|, A;
    if more == 0 {
      NextLevel(G, done[..], d[..], k, A, buckets', total);
      A' := Alive(done[..]);
    }
  }

  /** The coreness of every vertex. */
  method KCore(G: Graph) returns (d: array<int>)
    requires Symmetric(G) && |G| > 0
    ensures d.Length == |G| && forall v :: 0 <= v < |G| ==> d[v] >= 0 && Coreness(G, v, d[v])
  {
    var done, buckets;
    done, d, buckets := Start(G);
    StartLevel(G, done[..], d[..], buckets);
    PeelAll(G, done, d, buckets);
  }

  method PeelAll(G: Graph, done: array<bool>, d: array<int>, start: Buckets)
    requires Symmetric(G) && done.Length == d.Length == |G| && done as object != d
    requires AtLevel(G, done[..], d[..], 0, Alive(done[..]), start, 0)
    modifies done, d
    ensures forall v :: 0 <= v < |G| ==> d[v] >= 0 && Coreness(G, v, d[v])
  {
    hide *;
    var k, total, buckets := 0, 0, start;
    ghost var A := Alive(done[..]);
    while total < |G|
      invariant AtLevel(G, done[..], d[..], k, A, buckets, total)
      decreases |G| - total, |buckets| - k
    {
      var more;
      more, buckets, A := Round(G, done, d, buckets, k, A, total);
      if more == 0 {
        k := k + 1;
      }
      total := total + more;
    }
    AllPeeled(G, done[..], d[..], k, A, buckets, total);
  }
}
