/** The set-up of the maximum flow: the edges of the input listed vertex by vertex, and each cross-linked
    with the edge back by sorting the edges on their two ends and pairing neighbours in that order. */
module FlowNetwork {
  import opened PushRelabel
  import opened Sorting

  /** The neighbours of each vertex, with the capacities of the edges to them. */
  type Input = seq<seq<(nat, int)>>

  /** What compute_max_flow asks of its input: edges stay in the graph, and if there is an edge from u to v
      there is one from v to u. */
  ghost predicate Admitted(G: Input) {
    && (forall u, i :: 0 <= u < |G| && 0 <= i < |G[u]| ==> G[u][i].0 < |G| && G[u][i].1 >= 0)
    && forall u, i :: 0 <= u < |G| && 0 <= i < |G[u]| ==> HasEdge(G, G[u][i].0, u)
  }

  /** No two edges lead from one vertex to the same other. */
  ghost predicate NoParallels(G: Input) {
    forall u, i, j :: 0 <= u < |G| && 0 <= i < j < |G[u]| && G[u][i].0 == G[u][j].0 ==> G[u][i].0 == u
  }

  /** Of the edges from a vertex to itself there are an even number. */
  ghost predicate EvenLoops(G: Input) {
    forall u :: 0 <= u < |G| ==> |LoopPlaces(G, u, |G[u]|)| % 2 == 0
  }

  function LoopPlaces(G: Input, u: nat, k: nat): set<nat>
    requires u < |G| && k <= |G[u]|
  {
    set i | 0 <= i < k && G[u][i].0 == u
  }

  ghost predicate HasEdge(G: Input, u: nat, v: nat) {
    u < |G| && exists i :: 0 <= i < |G[u]| && G[u][i].0 == v
  }

  /** The edges without their partners. */
  datatype Listing = Listing(from: seq<nat>, to: seq<nat>, cap: seq<int>, out: seq<seq<nat>>)

  /** The edges of the first vertices, in order. */
  ghost predicate Lists(G: Input, u: nat, l: Listing)
    requires u <= |G|
  {
    && |l.from| == |l.to| == |l.cap| && |l.out| == u
    && (forall v :: 0 <= v < u ==> |l.out[v]| == |G[v]|)
    && (forall v, i :: 0 <= v < u && 0 <= i < |G[v]| ==> ListsAt(G, l, v, i))
    && (forall e :: 0 <= e < |l.from| ==> l.from[e] < u && e in l.out[l.from[e]])
    && forall v, i, j :: 0 <= v < u && 0 <= i < j < |l.out[v]| ==> l.out[v][i] != l.out[v][j]
  }

  ghost predicate ListsAt(G: Input, l: Listing, v: nat, i: nat) {
    && v < |G| && v < |l.out| && i < |l.out[v]| && i < |G[v]| && |l.from| == |l.to| == |l.cap|
    && var e := l.out[v][i];
    e < |l.from| && l.from[e] == v && (l.to[e], l.cap[e]) == G[v][i]
  }

  /** The edges of one more vertex. */
  method ListVertex(G: Input, u: nat, l: Listing) returns (l': Listing)
    requires u < |G| && Lists(G, u, l)
    ensures Lists(G, u + 1, l')
  {
    var base, k := |l.from|, |G[u]|;
    l' := Listing(l.from + seq(k, _ => u), l.to + seq(k, i requires 0 <= i < k => G[u][i].0),
      l.cap + seq(k, i requires 0 <= i < k => G[u][i].1), l.out + [seq(k, i requires 0 <= i < k => base + i)]);
    forall v, i | 0 <= v < u + 1 && 0 <= i < |G[v]| ensures ListsAt(G, l', v, i) {
      if v < u {
        assert ListsAt(G, l, v, i);
      }
    }
    forall e | 0 <= e < |l'.from| ensures l'.from[e] < u + 1 && e in l'.out[l'.from[e]] {
      if e >= base {
        assert l'.out[u][e - base] == e;
      }
    }
  }

  method ListEdges(G: Input) returns (l: Listing)
    ensures Lists(G, |G|, l)
  {
    l := Listing([], [], [], []);
    for u := 0 to |G|
      invariant Lists(G, u, l)
    {
      l := ListVertex(G, u, l);
    }
  }

  // ---------- the sorted edges ----------

  function Low(l: Listing, e: nat): nat
    requires e < |l.from| == |l.to|
  {
    if l.from[e] < l.to[e] then l.from[e] else l.to[e]
  }

  function High(l: Listing, e: nat): nat
    requires e < |l.from| == |l.to|
  {
    if l.from[e] < l.to[e] then l.to[e] else l.from[e]
  }

  /** The order of the sort: by lower end, then by higher. */
  predicate NotAfter(l: Listing, a: nat, b: nat) {
    a < |l.from| == |l.to| && b < |l.from| ==>
      Low(l, a) < Low(l, b) || (Low(l, a) == Low(l, b) && High(l, a) <= High(l, b))
  }

  /** Another edge, the other way; for a loop, another loop at the vertex. */
  ghost predicate IsBack(l: Listing, e: nat, d: nat) {
    d < |l.from| == |l.to| && e < |l.from| && d != e && l.from[d] == l.to[e] && l.to[d] == l.from[e]
  }

  ghost predicate SameEnds(l: Listing, e: nat, d: nat)
    requires e < |l.from| == |l.to| && d < |l.from|
  {
    Low(l, e) == Low(l, d) && High(l, e) == High(l, d)
  }

  ghost predicate SortedEdges(l: Listing, order: seq<nat>) {
    && |order| == |l.from| == |l.to| && (forall k :: 0 <= k < |order| ==> order[k] < |order|)
    && (forall j, k :: 0 <= j < k < |order| ==> order[j] != order[k] && NotAfter(l, order[j], order[k]))
    && forall e :: 0 <= e < |order| ==> e in order
  }

  /** Each even place holds an edge, and the next place an edge back. */
  ghost predicate AllPaired(l: Listing, order: seq<nat>) {
    |order| % 2 == 0 && PairsUpTo(l, order, |order| / 2)
  }

  ghost predicate PairsUpTo(l: Listing, order: seq<nat>, k: nat) {
    2 * k <= |order| && forall i :: 0 <= i < k ==> PairAt(l, order, i)
  }

  ghost predicate PairAt(l: Listing, order: seq<nat>, i: nat) {
    2 * i + 1 < |order| && IsBack(l, order[2 * i], order[2 * i + 1])
  }

  /** What the source sorts: an edge with its two ends. */
  datatype Tag = Tag(low: nat, high: nat, e: nat)

  predicate TagNotAfter(a: Tag, b: Tag) {
    a.low < b.low || (a.low == b.low && a.high <= b.high)
  }

  function Tags(l: Listing): seq<Tag>
    requires |l.from| == |l.to|
  {
    seq(|l.from|, e requires 0 <= e < |l.from| => Tag(Low(l, e), High(l, e), e))
  }

  lemma SortedTags(l: Listing, sorted: seq<Tag>, order: seq<nat>)
    requires |l.from| == |l.to| == |sorted| == |order|
    requires SortedBy(TagNotAfter, sorted) && multiset(sorted) == multiset(Tags(l))
    requires forall k :: 0 <= k < |order| ==> order[k] == sorted[k].e
    ensures SortedEdges(l, order)
  {
    var tags := Tags(l);
    SameMembers(sorted, tags);
    StaysDistinct(tags, sorted);
    forall k | 0 <= k < |order| ensures sorted[k].e < |order| && sorted[k] == tags[sorted[k].e] {
      assert sorted[k] in tags;
    }
    forall e | 0 <= e < |order| ensures e in order {
      assert tags[e] in tags;
      var k :| 0 <= k < |order| && sorted[k] == tags[e];
      assert order[k] == e;
    }
  }

  method SortByEnds(l: Listing) returns (order: seq<nat>)
    requires |l.from| == |l.to|
    ensures SortedEdges(l, order)
  {
    var sorted := Sort(Tags(l), TagNotAfter);
    order := seq(|sorted|, k requires 0 <= k < |sorted| => sorted[k].e);
    SortedTags(l, sorted, order);
  }

  lemma SomeOrder(l: Listing) returns (order: seq<nat>)
    requires |l.from| == |l.to|
    ensures SortedEdges(l, order)
  {
    var sorted := SortExists(Tags(l), TagNotAfter);
    order := seq(|sorted|, k requires 0 <= k < |sorted| => sorted[k].e);
    SortedTags(l, sorted, order);
  }

  /** Only edges with the same two ends stand between two such. */
  lemma Between(l: Listing, order: seq<nat>, i: nat, j: nat, k: nat)
    requires SortedEdges(l, order) && i <= j <= k < |order| && SameEnds(l, order[i], order[k])
    ensures SameEnds(l, order[i], order[j])
  {
    if i < j < k {
      assert NotAfter(l, order[i], order[j]) && NotAfter(l, order[j], order[k]);
    }
  }

  function Swap(order: seq<nat>, a: nat, b: nat): seq<nat>
    requires a < |order| && b < |order|
  {
    order[a := order[b]][b := order[a]]
  }

  lemma SwapSorted(l: Listing, order: seq<nat>, a: nat, b: nat)
    requires SortedEdges(l, order) && a < |order| && b < |order| && SameEnds(l, order[a], order[b])
    ensures SortedEdges(l, Swap(order, a, b))
  {
    var o := Swap(order, a, b);
    forall e | 0 <= e < |o| ensures e in o {
      assert e in order;
      var k :| 0 <= k < |order| && order[k] == e;
      assert o[if k == a then b else if k == b then a else k] == e;
    }
    forall j, k | 0 <= j < k < |o| ensures o[j] != o[k] && NotAfter(l, o[j], o[k]) {
      assert NotAfter(l, order[j], order[k]);
      if a != b {
        assert j != a || k != b ==> a <= b || b <= a;
      }
    }
  }

  // ---------- which sorted edges pair ----------

  /** The loops at v among the first k of the sorted edges. */
  ghost function LoopsIn(l: Listing, order: seq<nat>, v: nat, k: nat): set<nat>
    requires k <= |order| && |l.from| == |l.to|
  {
    set i | 0 <= i < k && order[i] < |l.from| && IsLoop(l, order[i], v) :: order[i]
  }

  ghost predicate IsLoop(l: Listing, e: nat, v: nat)
    requires e < |l.from| == |l.to|
  {
    l.from[e] == v && l.to[e] == v
  }

  ghost function Loops(l: Listing, v: nat): set<nat>
    requires |l.from| == |l.to|
  {
    set e | 0 <= e < |l.from| && IsLoop(l, e, v)
  }

  lemma TwoMore(before: set<nat>, a: nat, b: nat)
    requires a !in before && b !in before && a != b
    ensures |before + {a, b}| == |before| + 2
  {
    assert before + {a, b} == before + {a} + {b};
  }

  lemma LoopsGrow(l: Listing, order: seq<nat>, v: nat, k: nat)
    requires SortedEdges(l, order) && PairAt(l, order, k)
    ensures |LoopsIn(l, order, v, 2 * k + 2)| == |LoopsIn(l, order, v, 2 * k)|
      + if IsLoop(l, order[2 * k], v) then 2 else 0
  {
    hide NotAfter;
    var before, after := LoopsIn(l, order, v, 2 * k), LoopsIn(l, order, v, 2 * k + 2);
    var a, b := order[2 * k], order[2 * k + 1];
    assert IsLoop(l, a, v) <==> IsLoop(l, b, v);
    assert a != b && a !in before && b !in before;
    hide SortedEdges, PairAt, IsLoop;
    forall e | e in after ensures e in before || e == a || e == b {
      var i :| 0 <= i < 2 * k + 2 && order[i] == e;
    }
    assert before <= after;
    if IsLoop(l, a, v) {
      TwoMore(before, a, b);
      assert after == before + {a, b};
    } else {
      assert after == before;
    }
  }

  lemma NoneYet(l: Listing, order: seq<nat>, v: nat)
    requires |l.from| == |l.to|
    ensures LoopsIn(l, order, v, 0) == {}
  {
  }

  lemma {:induction false} PairsAreEven(l: Listing, order: seq<nat>, v: nat, k: nat)
    requires SortedEdges(l, order) && PairsUpTo(l, order, k)
    ensures |LoopsIn(l, order, v, 2 * k)| % 2 == 0
    decreases k
  {
    assert |l.from| == |l.to|;
    hide SortedEdges, PairAt, LoopsIn, IsLoop;
    if k > 0 {
      PairsAreEven(l, order, v, k - 1);
      LoopsGrow(l, order, v, k - 1);
    } else {
      NoneYet(l, order, v);
    }
  }

  lemma AllLoopsIn(l: Listing, order: seq<nat>, v: nat)
    requires SortedEdges(l, order)
    ensures LoopsIn(l, order, v, |order|) == Loops(l, v)
  {
    forall e | e in Loops(l, v) ensures e in LoopsIn(l, order, v, |order|) {
      assert e in order;
    }
  }

  ghost predicate Backed(l: Listing) {
    forall e :: 0 <= e < |l.from| == |l.to| && l.from[e] != l.to[e] ==> exists d: nat :: IsBack(l, e, d)
  }

  ghost predicate Parallel(l: Listing, e: nat, d: nat)
    requires e < |l.from| == |l.to| && d < |l.from|
  {
    l.from[e] != l.to[e] && l.from[d] == l.from[e] && l.to[d] == l.to[e]
  }

  ghost predicate Single(l: Listing) {
    |l.from| == |l.to| && forall e, d :: 0 <= e < |l.from| && 0 <= d < |l.from| && Parallel(l, e, d) ==> d == e
  }

  ghost predicate LoopsEven(l: Listing) {
    |l.from| == |l.to| && forall v: nat :: |Loops(l, v)| % 2 == 0
  }

  lemma OtherOfPair(l: Listing, order: seq<nat>, k: nat, j: nat) returns (i: nat)
    requires PairsUpTo(l, order, k) && j < 2 * k
    ensures i < 2 * k && order[j] < |l.from| == |l.to| && IsBack(l, order[j], order[i])
  {
    assert PairAt(l, order, j / 2);
    i := if j % 2 == 0 then j + 1 else j - 1;
  }

  lemma PlaceIn(l: Listing, order: seq<nat>, e: nat) returns (k: nat)
    requires SortedEdges(l, order) && e < |l.from|
    ensures k < |order| && order[k] == e
  {
    hide NotAfter;
    assert e in order;
    k :| 0 <= k < |order| && order[k] == e;
  }

  lemma NoneParallelBefore(l: Listing, order: seq<nat>, k: nat)
    requires SortedEdges(l, order) && Single(l) && k < |order|
    ensures order[k] < |order| == |l.from| == |l.to|
    ensures forall i :: 0 <= i < k ==> order[i] < |order| && !Parallel(l, order[k], order[i])
  {
    hide NotAfter;
  }

  /** An edge back of the next edge is not among those paired already. */
  lemma BackIsLater(l: Listing, order: seq<nat>, k: nat) returns (j: nat)
    requires SortedEdges(l, order) && PairsUpTo(l, order, k) && 2 * k < |order|
    requires Backed(l) && Single(l) && l.from[order[2 * k]] != l.to[order[2 * k]]
    ensures 2 * k < j < |order| && IsBack(l, order[2 * k], order[j])
  {
    hide SortedEdges, Single, PairsUpTo;
    NoneParallelBefore(l, order, 2 * k);
    var d: nat :| IsBack(l, order[2 * k], d);
    hide Backed;
    j := PlaceIn(l, order, d);
    if j < 2 * k {
      var i := OtherOfPair(l, order, k, j);
    }
  }

  /** An even number of loops at v are paired already, so another is to come. */
  lemma LoopIsLater(l: Listing, order: seq<nat>, k: nat) returns (j: nat)
    requires SortedEdges(l, order) && PairsUpTo(l, order, k) && 2 * k < |order|
    requires LoopsEven(l) && l.from[order[2 * k]] == l.to[order[2 * k]]
    ensures 2 * k < j < |order| && IsBack(l, order[2 * k], order[j])
  {
    var e := order[2 * k];
    var v := l.from[e];
    PairsAreEven(l, order, v, k);
    var before := LoopsIn(l, order, v, 2 * k);
    hide NotAfter, PairsUpTo;
    assert e !in before && before + {e} <= Loops(l, v);
    assert forall i :: 0 <= i < 2 * k && IsLoop(l, order[i], v) ==> order[i] in before;
    assert |before + {e}| == |before| + 1;
    assert before + {e} != Loops(l, v);
    var d :| d in Loops(l, v) && d !in before + {e};
    j := PlaceIn(l, order, d);
  }

  /** The edge after an edge of even place is an edge back. */
  lemma NextIsBack(l: Listing, order: seq<nat>, k: nat)
    requires SortedEdges(l, order) && PairsUpTo(l, order, k) && 2 * k < |order|
    requires Backed(l) && Single(l) && LoopsEven(l)
    ensures PairAt(l, order, k)
  {
    hide NotAfter, PairsUpTo, Backed, LoopsEven;
    var e := order[2 * k];
    var j;
    if l.from[e] == l.to[e] {
      j := LoopIsLater(l, order, k);
    } else {
      j := BackIsLater(l, order, k);
    }
    Between(l, order, 2 * k, 2 * k + 1, j);
    BackOrParallel(l, e, order[2 * k + 1]);
  }

  lemma BackOrParallel(l: Listing, e: nat, d: nat)
    requires e < |l.from| == |l.to| && d < |l.from| && e != d && SameEnds(l, e, d)
    ensures IsBack(l, e, d) || Parallel(l, e, d)
  {
  }

  lemma {:induction false} FirstPair(l: Listing, order: seq<nat>, k: nat)
    requires SortedEdges(l, order) && 2 * k <= |order| + 1
    requires Backed(l) && Single(l) && LoopsEven(l)
    ensures PairsUpTo(l, order, k)
    decreases k
  {
    hide SortedEdges, Backed, Single, LoopsEven;
    if k > 0 {
      FirstPair(l, order, k - 1);
      NextIsBack(l, order, k - 1);
    }
  }

  /** Of two parallel edges, some sorted order links two edges of one direction. */
  lemma ParallelMispair(l: Listing, order: seq<nat>, p: nat, q: nat) returns (o: seq<nat>)
    requires SortedEdges(l, order) && p < q < |order| && Parallel(l, order[p], order[q])
    ensures SortedEdges(l, o) && !AllPaired(l, o)
  {
    if p % 2 == 0 {
      Between(l, order, p, p + 1, q);
      SwapSorted(l, order, p + 1, q);
      o := Swap(order, p + 1, q);
      assert !PairAt(l, o, p / 2);
    } else if PairAt(l, order, p / 2) {
      SwapSorted(l, order, p - 1, q);
      o := Swap(order, p - 1, q);
      assert !PairAt(l, o, p / 2);
    } else {
      o := order;
    }
  }

  ghost predicate AlwaysPairs(l: Listing) {
    forall order :: SortedEdges(l, order) ==> AllPaired(l, order)
  }

  lemma MustBeSingle(l: Listing)
    requires |l.from| == |l.to| && AlwaysPairs(l)
    ensures Single(l)
  {
    var order := SomeOrder(l);
    forall e, d | 0 <= e < |l.from| && 0 <= d < |l.from| && Parallel(l, e, d) ensures d == e {
      assert e in order && d in order;
      var p :| 0 <= p < |order| && order[p] == e;
      var q :| 0 <= q < |order| && order[q] == d;
      if p != q {
        var o := ParallelMispair(l, order, if p < q then p else q, if p < q then q else p);
      }
    }
  }

  lemma MustBeEven(l: Listing)
    requires |l.from| == |l.to| && AlwaysPairs(l)
    ensures LoopsEven(l)
  {
    var order := SomeOrder(l);
    forall v: nat ensures |Loops(l, v)| % 2 == 0 {
      PairsAreEven(l, order, v, |order| / 2);
      AllLoopsIn(l, order, v);
    }
  }

  /** In a listing with an edge back for every edge but loops, linking neighbours of the sorted edges
      is right for every sorted order just if no two edges lead from one vertex to the same other and
      there are an even number of loops at each vertex. */
  lemma PairsExactly(l: Listing)
    requires |l.from| == |l.to| && Backed(l)
    ensures AlwaysPairs(l) <==> Single(l) && LoopsEven(l)
  {
    hide Single, LoopsEven, Backed, SortedEdges;
    if Single(l) && LoopsEven(l) {
      forall order | SortedEdges(l, order) ensures AllPaired(l, order) {
        FirstPair(l, order, (|order| + 1) / 2);
      }
    }
    if AlwaysPairs(l) {
      MustBeSingle(l);
      MustBeEven(l);
    }
  }

  // ---------- the links ----------

  /** The edges at places 2i and 2i + 1 are partners; a last edge left over has none. */
  ghost predicate Linked(order: seq<nat>, partner: seq<nat>) {
    && |partner| == |order|
    && (forall i :: 0 <= 2 * i && 2 * i + 1 < |order| ==> LinkAt(order, partner, i))
    && (|order| % 2 == 1 ==> order[|order| - 1] < |partner| && partner[order[|order| - 1]] == |order|)
  }

  ghost predicate LinkAt(order: seq<nat>, partner: seq<nat>, i: nat) {
    && 2 * i + 1 < |order| == |partner| && order[2 * i] < |partner| && order[2 * i + 1] < |partner|
    && partner[order[2 * i]] == order[2 * i + 1] && partner[order[2 * i + 1]] == order[2 * i]
  }

  /** Cross-links the edges at places 2i and 2i + 1; |order| stands for a null pointer. */
  method CrossLink(order: seq<nat>, ghost l: Listing) returns (partner: seq<nat>)
    requires SortedEdges(l, order)
    ensures Linked(order, partner)
    ensures AllPaired(l, order) <==> forall e :: 0 <= e < |partner| ==> Mutual(l, partner, e)
  {
    hide NotAfter, AllPaired, Mutual;
    partner := seq(|order|, _ => |order|);
    for i := 0 to |order| / 2
      invariant |partner| == |order| && forall j :: 0 <= j < i ==> LinkAt(order, partner, j)
      invariant forall k :: 2 * i <= k < |order| ==> partner[order[k]] == |order|
    {
      ghost var was := partner;
      partner := partner[order[2 * i] := order[2 * i + 1]][order[2 * i + 1] := order[2 * i]];
      forall j | 0 <= j < i ensures LinkAt(order, partner, j) {
        assert LinkAt(order, was, j);
      }
    }
    LinkedMeans(l, order, partner);
  }

  /** Partners are edges back of each other. */
  ghost predicate Mutual(l: Listing, partner: seq<nat>, e: nat) {
    e < |partner| && IsBack(l, e, partner[e]) && partner[e] < |partner| && partner[partner[e]] == e
  }

  lemma LinkedMeans(l: Listing, order: seq<nat>, partner: seq<nat>)
    requires SortedEdges(l, order) && Linked(order, partner)
    ensures AllPaired(l, order) <==> forall e :: 0 <= e < |partner| ==> Mutual(l, partner, e)
  {
    hide NotAfter;
    if AllPaired(l, order) {
      forall e | 0 <= e < |partner| ensures Mutual(l, partner, e) {
        assert e in order;
        var k :| 0 <= k < |order| && order[k] == e;
        assert PairAt(l, order, k / 2) && LinkAt(order, partner, k / 2);
      }
    }
    if forall e :: 0 <= e < |partner| ==> Mutual(l, partner, e) {
      forall i | 0 <= i < |order| / 2 ensures PairAt(l, order, i) {
        assert LinkAt(order, partner, i) && Mutual(l, partner, order[2 * i]);
      }
      if |order| % 2 == 1 {
        assert !Mutual(l, partner, order[|order| - 1]);
      }
    }
  }

  // ---------- the network ----------

  /** An edge is at its place in the list of its vertex. */
  lemma PlaceOf(G: Input, l: Listing, e: nat) returns (i: nat)
    requires Lists(G, |G|, l) && e < |l.from|
    ensures l.from[e] < |G| && i < |G[l.from[e]]| && ListsAt(G, l, l.from[e], i) && l.out[l.from[e]][i] == e
  {
    var v := l.from[e];
    assert e in l.out[v];
    i :| 0 <= i < |l.out[v]| && l.out[v][i] == e;
    assert ListsAt(G, l, v, i);
  }

  lemma ListedBacked(G: Input, l: Listing)
    requires Admitted(G) && Lists(G, |G|, l)
    ensures |l.from| == |l.to| && Backed(l)
  {
    forall e | 0 <= e < |l.from| && l.from[e] != l.to[e] ensures exists d: nat :: IsBack(l, e, d) {
      var v := l.from[e];
      var i := PlaceOf(G, l, e);
      var w := G[v][i].0;
      assert HasEdge(G, w, v);
      var j :| 0 <= j < |G[w]| && G[w][j].0 == v;
      assert ListsAt(G, l, w, j);
      assert IsBack(l, e, l.out[w][j]);
    }
  }

  /** Parallel edges of the input are parallel when listed, and the other way around. */
  lemma ListedSingle(G: Input, l: Listing)
    requires Lists(G, |G|, l)
    ensures Single(l) <==> NoParallels(G)
  {
    if NoParallels(G) {
      forall e, d | 0 <= e < |l.from| && 0 <= d < |l.from| && Parallel(l, e, d) ensures d == e {
        var i := PlaceOf(G, l, e);
        var j := PlaceOf(G, l, d);
        assert i < j || j < i || i == j;
      }
    }
    if Single(l) {
      forall u, i, j | 0 <= u < |G| && 0 <= i < j < |G[u]| && G[u][i].0 == G[u][j].0 ensures G[u][i].0 == u {
        assert ListsAt(G, l, u, i) && ListsAt(G, l, u, j);
        assert l.out[u][i] != l.out[u][j];
        assert !Parallel(l, l.out[u][i], l.out[u][j]);
      }
    }
  }

  ghost function LoopEdges(G: Input, l: Listing, u: nat, k: nat): set<nat>
    requires u < |G| && u < |l.out| && k <= |G[u]| == |l.out[u]|
  {
    set i | 0 <= i < k && G[u][i].0 == u :: l.out[u][i]
  }

  lemma LoopEdgesGrow(G: Input, l: Listing, u: nat, k: nat)
    requires Lists(G, |G|, l) && u < |G| && k < |G[u]|
    ensures LoopPlaces(G, u, k + 1) == if G[u][k].0 == u then LoopPlaces(G, u, k) + {k} else LoopPlaces(G, u, k)
    ensures LoopEdges(G, l, u, k + 1)
      == if G[u][k].0 == u then LoopEdges(G, l, u, k) + {l.out[u][k]} else LoopEdges(G, l, u, k)
    ensures k !in LoopPlaces(G, u, k) && l.out[u][k] !in LoopEdges(G, l, u, k)
  {
    hide ListsAt;
  }

  lemma {:induction false} LoopsListed(G: Input, l: Listing, u: nat, k: nat)
    requires Lists(G, |G|, l) && u < |G| && k <= |G[u]|
    ensures |l.out| == |G| && |l.out[u]| == |G[u]| && |LoopPlaces(G, u, k)| == |LoopEdges(G, l, u, k)|
    decreases k
  {
    hide ListsAt;
    if k > 0 {
      LoopsListed(G, l, u, k - 1);
      LoopEdgesGrow(G, l, u, k - 1);
      hide *;
    } else {
      assert LoopPlaces(G, u, 0) == {} && LoopEdges(G, l, u, 0) == {};
    }
  }

  lemma ListedLoops(G: Input, l: Listing, u: nat)
    requires Lists(G, |G|, l)
    ensures |l.from| == |l.to|
    ensures u < |G| ==> |Loops(l, u)| == |LoopPlaces(G, u, |G[u]|)|
    ensures u >= |G| ==> Loops(l, u) == {}
  {
    if u < |G| {
      LoopsListed(G, l, u, |G[u]|);
      var listed := LoopEdges(G, l, u, |G[u]|);
      forall e | e in Loops(l, u) ensures e in listed {
        var i := PlaceOf(G, l, e);
      }
      forall i | 0 <= i < |G[u]| && G[u][i].0 == u ensures l.out[u][i] in Loops(l, u) {
        assert ListsAt(G, l, u, i);
      }
      assert listed == Loops(l, u);
    }
  }

  lemma ListedEven(G: Input, l: Listing)
    requires Lists(G, |G|, l)
    ensures LoopsEven(l) <==> EvenLoops(G)
  {
    forall u: nat ensures |l.from| == |l.to| && (u < |G| ==> |Loops(l, u)| == |LoopPlaces(G, u, |G[u]|)|)
      && (u >= |G| ==> Loops(l, u) == {})
    {
      ListedLoops(G, l, u);
    }
  }

  /** For every input with an edge back for each edge, the pairing is right whatever order the sort leaves
      equal edges in, just if there are no parallel edges and the loops at each vertex are even in number. */
  lemma PairingIsRight(G: Input, l: Listing)
    requires Admitted(G) && Lists(G, |G|, l)
    ensures (forall order :: SortedEdges(l, order) ==> AllPaired(l, order)) <==> NoParallels(G) && EvenLoops(G)
  {
    ListedBacked(G, l);
    ListedSingle(G, l);
    ListedEven(G, l);
    PairsExactly(l);
  }

  /** The network has the edges of the input, vertex by vertex. */
  ghost predicate Describes(net: Net, G: Input) {
    && net.n == |G| && |net.out| == |G| && |net.from| == |net.to| == |net.cap|
    && forall u :: 0 <= u < |G| ==> |net.out[u]| == |G[u]| && forall i :: 0 <= i < |G[u]| ==>
      net.out[u][i] < |net.to| && net.from[net.out[u][i]] == u
      && (net.to[net.out[u][i]], net.cap[net.out[u][i]]) == G[u][i]
  }

  lemma DescribedBy(G: Input, l: Listing, net: Net)
    requires Lists(G, |G|, l) && net.n == |G| && (net.from, net.to, net.cap, net.out) == (l.from, l.to, l.cap, l.out)
    ensures Describes(net, G)
  {
    forall u, i | 0 <= u < |G| && 0 <= i < |G[u]|
      ensures i < |net.out[u]| && net.out[u][i] < |net.to| && net.from[net.out[u][i]] == u
      ensures (net.to[net.out[u][i]], net.cap[net.out[u][i]]) == G[u][i]
    {
      assert ListsAt(G, l, u, i);
    }
  }

  function Linking(G: Input, l: Listing, partner: seq<nat>): Net {
    Net(|G|, l.from, l.to, l.cap, partner, l.out)
  }

  /** A network is one to run on just if its partners are edges back of each other. */
  lemma ValidMeans(G: Input, l: Listing, partner: seq<nat>)
    requires Admitted(G) && Lists(G, |G|, l) && |partner| == |l.from|
    ensures Linking(G, l, partner).Valid() <==> forall e :: 0 <= e < |partner| ==> Mutual(l, partner, e)
  {
    var net := Linking(G, l, partner);
    if forall e :: 0 <= e < |partner| ==> Mutual(l, partner, e) {
      forall e | 0 <= e < |l.from| ensures net.EdgeOk(e) {
        var i := PlaceOf(G, l, e);
        assert Mutual(l, partner, e);
      }
      forall u | 0 <= u < |G| ensures net.OutOk(u) {
        forall i | 0 <= i < |l.out[u]| ensures l.out[u][i] < |l.from| && l.from[l.out[u][i]] == u {
          assert ListsAt(G, l, u, i);
        }
      }
    }
    if net.Valid() {
      forall e | 0 <= e < |partner| ensures Mutual(l, partner, e) {
        assert net.EdgeOk(e);
      }
    }
  }

  function EdgesOf(net: Net): Listing {
    Listing(net.from, net.to, net.cap, net.out)
  }

  /** The set-up: a network with the edges of the input, linked as the sort has left them.  It is one to run
      on just if the sorted edges pair, which they do whenever there are no parallel edges and the loops are
      even in number; then the source is full and the flow can begin. */
  method Initialize(G: Input, source: nat) returns (f: MaxFlow, ghost order: seq<nat>)
    requires Admitted(G) && source < |G|
    ensures fresh(f) && Describes(f.net, G)
    ensures SortedEdges(EdgesOf(f.net), order) && Linked(order, f.net.partner)
    ensures f.net.Valid() <==> AllPaired(EdgesOf(f.net), order)
    ensures NoParallels(G) && EvenLoops(G) ==> f.net.Valid()
    ensures f.net.Valid() ==> f.Ready(Supply(f.net.n, source))
    ensures |f.excess| == |f.labels| == |G| && |f.flow| == |f.net.from| && f.active == []
    ensures forall v :: 0 <= v < |G| ==> f.excess[v] == if v == source then 0x7fff_ffff else 0
    ensures forall e :: 0 <= e < |f.flow| ==> f.flow[e] == 0
  {
    hide Admitted, Lists, SortedEdges, AllPaired, Linked, Mutual, NoParallels, EvenLoops, Describes;
    var l := ListEdges(G);
    ListSizes(G, l);
    PairingIsRight(G, l);
    var sorted := SortByEnds(l);
    var partner := CrossLink(sorted, l);
    LinkedSize(l, sorted, partner);
    var net := Linking(G, l, partner);
    DescribedBy(G, l, net);
    ValidMeans(G, l, partner);
    f := new MaxFlow(net, source);
    order := sorted;
    assert EdgesOf(net) == l;
  }

  lemma ListSizes(G: Input, l: Listing)
    requires Lists(G, |G|, l)
    ensures |l.from| == |l.to| == |l.cap| && |l.out| == |G|
  {
  }

  lemma LinkedSize(l: Listing, order: seq<nat>, partner: seq<nat>)
    requires SortedEdges(l, order) && Linked(order, partner)
    ensures |partner| == |l.from|
  {
  }

  // ---------- inputs that may not pair ----------

  const PARALLEL: Input := [[(1, 5), (1, 5)], [(0, 5), (0, 5)]]

  const LOOP: Input := [[(0, 5)]]

  /** The header admits both. */
  lemma ParallelEdges()
    ensures Admitted(PARALLEL) && EvenLoops(PARALLEL) && !NoParallels(PARALLEL)
  {
    assert PARALLEL[0][0].0 == 1 && PARALLEL[0][1].0 == 1 && PARALLEL[1][0].0 == 0;
    assert LoopPlaces(PARALLEL, 0, 2) == {} && LoopPlaces(PARALLEL, 1, 2) == {};
  }

  lemma LoneLoop()
    ensures Admitted(LOOP) && NoParallels(LOOP) && !EvenLoops(LOOP)
  {
    var row := LOOP[0];
    assert row[0].0 == 0;
    var places := LoopPlaces(LOOP, 0, |row|);
    assert places == {0};
    assert |places| == 1;
  }
}
