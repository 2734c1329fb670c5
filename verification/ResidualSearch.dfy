/** The search of a global relabel: the distances to the sink over edges with capacity left, level by level
    from the sink back.  The threads of a level try to claim vertices by compare-and-swap, in any order. */
module ResidualSearch {
  import opened Permutations
  import opened PushRelabel

  /** Edge e has capacity left. */
  predicate Residual(net: Net, flow: seq<int>, e: nat) {
    e < |net.from| == |net.to| == |net.cap| == |flow| && flow[e] < net.cap[e]
  }

  /** From v the sink is k edges with capacity left away, on some path. */
  ghost predicate Reach(net: Net, flow: seq<int>, sink: nat, v: nat, k: nat)
    decreases k
  {
    if k == 0 then v == sink
    else exists e: nat :: Residual(net, flow, e) && net.from[e] == v && Reach(net, flow, sink, net.to[e], k - 1)
  }

  /** What is asked of a distance: no edge with capacity left goes down by more than one level, and from
      every vertex but the sink that has a distance some such edge goes down by one. */
  ghost predicate Steep(net: Net, flow: seq<int>, d: seq<int>, e: nat)
    requires net.Valid() && |d| == net.n && Residual(net, flow, e)
  {
    assert net.EdgeOk(e);
    d[net.from[e]] <= d[net.to[e]] + 1
  }

  ghost predicate Down(net: Net, flow: seq<int>, d: seq<int>, v: nat, e: nat)
    requires net.Valid() && |d| == net.n
  {
    Residual(net, flow, e) && net.from[e] == v && net.to[e] < |d| && v < |d| && d[v] == d[net.to[e]] + 1
  }

  ghost predicate Distances(net: Net, flow: seq<int>, sink: nat, d: seq<int>)
    requires net.Valid()
  {
    && |d| == net.n && |flow| == |net.from| && sink < net.n && d[sink] == 0
    && (forall v :: 0 <= v < net.n ==> 0 <= d[v] <= net.n)
    && (forall v :: 0 <= v < net.n && v != sink && d[v] < net.n ==> exists e: nat :: Down(net, flow, d, v, e))
    && forall e: nat :: Residual(net, flow, e) ==> Steep(net, flow, d, e)
  }

  ghost predicate Ends(net: Net, e: nat) {
    && e < |net.from| == |net.to| == |net.partner| == |net.cap| && net.from[e] < net.n && net.to[e] < net.n
    && net.partner[e] < |net.from| && net.partner[net.partner[e]] == e
    && net.from[net.partner[e]] == net.to[e] && net.to[net.partner[e]] == net.from[e]
  }

  lemma EdgeEnds(net: Net, e: nat)
    requires net.Valid() && e < |net.from|
    ensures Ends(net, e)
  {
    assert net.EdgeOk(e);
  }

  /** Such numbers are the distances: the least number of edges on a path to the sink, and n if there is
      none. */
  lemma {:induction false} NoShorter(net: Net, flow: seq<int>, sink: nat, d: seq<int>, v: nat, k: nat)
    requires net.Valid() && Distances(net, flow, sink, d) && v < net.n && Reach(net, flow, sink, v, k)
    ensures d[v] <= k
    decreases k
  {
    hide Net.Valid;
    if k > 0 {
      var e: nat :| Residual(net, flow, e) && net.from[e] == v && Reach(net, flow, sink, net.to[e], k - 1);
      EdgeEnds(net, e);
      assert Steep(net, flow, d, e);
      NoShorter(net, flow, sink, d, net.to[e], k - 1);
    }
  }

  lemma {:induction false} DistanceReached(net: Net, flow: seq<int>, sink: nat, d: seq<int>, v: nat)
    requires net.Valid() && Distances(net, flow, sink, d) && v < net.n && d[v] < net.n
    ensures d[v] >= 0 && Reach(net, flow, sink, v, d[v])
    decreases if v < |d| && d[v] >= 0 then d[v] else 0
  {
    hide Net.Valid;
    if v != sink {
      var e: nat :| Down(net, flow, d, v, e);
      EdgeEnds(net, e);
      DistanceReached(net, flow, sink, d, net.to[e]);
    }
  }

  lemma DistanceIsLeast(net: Net, flow: seq<int>, sink: nat, d: seq<int>, v: nat)
    requires net.Valid() && Distances(net, flow, sink, d) && v < net.n
    ensures forall k: nat :: Reach(net, flow, sink, v, k) ==> d[v] <= k
    ensures d[v] < net.n ==> d[v] >= 0 && Reach(net, flow, sink, v, d[v])
  {
    forall k: nat | Reach(net, flow, sink, v, k) ensures d[v] <= k {
      NoShorter(net, flow, sink, d, v, k);
    }
    if d[v] < net.n {
      DistanceReached(net, flow, sink, d, v);
    }
  }

  // ---------- the search ----------

  ghost function Visited(d: seq<int>): set<nat> {
    set v | 0 <= v < |d| && d[v] < |d|
  }

  /** Before the search of a level: what has a distance is tight, and what leads to an earlier level has
      one. */
  ghost predicate Searched(net: Net, flow: seq<int>, sink: nat, d: seq<int>, level: nat, frontier: seq<nat>)
    requires net.Valid()
  {
    && |d| == net.n && |flow| == |net.from| && sink < net.n && d[sink] == 0
    && (forall v :: 0 <= v < net.n ==> 0 <= d[v] <= level || d[v] == net.n)
    && (forall v :: 0 <= v < net.n && v != sink && d[v] < net.n ==> exists e: nat :: Down(net, flow, d, v, e))
    && (forall e: nat :: Residual(net, flow, e) && BelowLevel(net, d, e, level) ==> Steep(net, flow, d, e))
    && (forall v: nat :: v in frontier <==> v < net.n && d[v] == level && level < net.n)
    && (frontier != [] ==> level < |Visited(d)|)
  }

  ghost predicate BelowLevel(net: Net, d: seq<int>, e: nat, level: nat) {
    e < |net.to| && net.to[e] < |d| && d[net.to[e]] < level
  }

  lemma OutIs(net: Net, u: nat)
    requires net.Valid() && u < net.n
    ensures u < |net.out| && forall e: nat :: e in net.out[u] <==> e < |net.from| && net.from[e] == u
  {
    assert net.OutOk(u);
  }

  /** The edges of the frontier. */
  method EdgesOf(net: Net, frontier: seq<nat>) returns (todo: seq<nat>)
    requires net.Valid() && forall k :: 0 <= k < |frontier| ==> frontier[k] < net.n
    ensures forall e: nat :: e in todo <==> e < |net.from| && net.from[e] in frontier
  {
    todo := [];
    for k := 0 to |frontier|
      invariant forall e: nat :: e in todo <==> e < |net.from| && net.from[e] in frontier[..k]
    {
      OutIs(net, frontier[k]);
      assert frontier[..k + 1] == frontier[..k] + [frontier[k]];
      todo := todo + net.out[frontier[k]];
    }
    assert frontier[..|frontier|] == frontier;
  }

  /** Vertex v was claimed for the level: it had no distance, and an edge with capacity left goes from it
      to the level before. */
  ghost predicate Claimed(net: Net, flow: seq<int>, d: seq<int>, level: nat, v: nat)
    requires net.Valid() && |d| == net.n
  {
    v < net.n && d[v] == net.n
      && exists e: nat :: Residual(net, flow, e) && net.from[e] == v && net.to[e] < net.n && d[net.to[e]] == level
  }

  /** While the threads of a level run: d0 is how it began, and todo the edges not yet tried. */
  ghost predicate Claiming(net: Net, flow: seq<int>, d0: seq<int>, d: seq<int>, level: nat, frontier: seq<nat>,
      todo: seq<nat>, next: seq<nat>)
    requires net.Valid() && |d0| == net.n
  {
    && |d| == net.n
    && (forall v :: 0 <= v < net.n ==> d[v] == d0[v] || (d[v] == level + 1 && Claimed(net, flow, d0, level, v)))
    && (forall v: nat :: v in next <==> v < net.n && d[v] != d0[v])
    && (forall e: nat :: e < |net.from| && net.from[e] in frontier && e !in todo && BackResidual(net, flow, e) ==>
      HasDistance(net, d, e))
    && forall k :: 0 <= k < |todo| ==> todo[k] < |net.from| && net.from[todo[k]] in frontier
  }

  ghost predicate BackResidual(net: Net, flow: seq<int>, e: nat) {
    e < |net.partner| && Residual(net, flow, net.partner[e])
  }

  /** The other end of e has a distance. */
  ghost predicate HasDistance(net: Net, d: seq<int>, e: nat) {
    e < |net.to| && net.to[e] < |d| && d[net.to[e]] < net.n
  }

  /** A level that claims a vertex is below n: each one before has a vertex, and this vertex is another. */
  lemma LevelFits(d: seq<int>, v: nat, level: nat)
    requires v < |d| && d[v] == |d| && level < |Visited(d)|
    ensures level + 1 < |d|
  {
    var rest := Range(|d|) - Visited(d);
    assert v in rest;
    assert Visited(d) + rest == Range(|d|);
  }

  /** One thread tries its edge. */
  method TryClaim(net: Net, flow: seq<int>, d: seq<int>, level: nat, e: nat, next: seq<nat>)
    returns (d': seq<int>, next': seq<nat>)
    requires net.Valid() && |d| == net.n && |flow| == |net.from| && e < |net.from|
    ensures net.EdgeOk(e)
    ensures
      var v := net.to[e];
      if net.cap[net.partner[e]] != flow[net.partner[e]] && d[v] == net.n then d' == d[v := level + 1]
        && next' == next + [v]
      else d' == d && next' == next
  {
    assert net.EdgeOk(e);
    var v := net.to[e];
    d', next' := d, next;
    if net.cap[net.partner[e]] != flow[net.partner[e]] && d[v] == net.n {
      d', next' := d[v := level + 1], next + [v];
    }
  }

  /** Its claim is right, and whether it succeeded or not the other end of its edge has a distance if the
      edge back has capacity left. */
  lemma ClaimKeeps(net: Net, flow: seq<int>, sink: nat, d0: seq<int>, d: seq<int>, level: nat, frontier: seq<nat>,
      todo: seq<nat>, next: seq<nat>, e: nat, rest: seq<nat>, d': seq<int>, next': seq<nat>)
    requires net.Valid() && Searched(net, flow, sink, d0, level, frontier)
      && Claiming(net, flow, d0, d, level, frontier, todo, next)
    requires e in todo && (forall x :: x in todo ==> x == e || x in rest)
      && (forall k :: 0 <= k < |rest| ==> rest[k] in todo)
    requires Ends(net, e) && |flow| == |net.from| && flow[net.partner[e]] <= net.cap[net.partner[e]]
    requires
      var v := net.to[e];
      if net.cap[net.partner[e]] != flow[net.partner[e]] && d[v] == net.n then d' == d[v := level + 1]
        && next' == next + [v]
      else d' == d && next' == next
    ensures Claiming(net, flow, d0, d', level, frontier, rest, next')
  {
    hide Net.Valid, Down, Steep;
    var v := net.to[e];
    var k :| 0 <= k < |todo| && todo[k] == e;
    var u := net.from[e];
    assert u in frontier && d0[u] == level;
    if d[v] == net.n {
      ClaimFits(net, flow, sink, d0, d, level, frontier, todo, next, v);
      if next' != next {
        assert Residual(net, flow, net.partner[e]);
        assert Claimed(net, flow, d0, level, v);
      }
    }
    forall x: nat | x < |net.from| && net.from[x] in frontier && x !in rest && BackResidual(net, flow, x)
      ensures HasDistance(net, d', x)
    {
      if x == e {
        if d[v] != net.n {
          BelowN(net, flow, sink, d0, d, level, frontier, todo, next, v);
        }
      } else {
        assert HasDistance(net, d, x);
      }
    }
  }

  lemma ClaimFits(net: Net, flow: seq<int>, sink: nat, d0: seq<int>, d: seq<int>, level: nat, frontier: seq<nat>,
      todo: seq<nat>, next: seq<nat>, v: nat)
    requires net.Valid() && Searched(net, flow, sink, d0, level, frontier)
      && Claiming(net, flow, d0, d, level, frontier, todo, next)
    requires frontier != [] && v < net.n && d[v] == net.n
    ensures d0[v] == net.n && level + 1 < net.n && v !in next
  {
    hide Net.Valid, Down, Steep;
    LevelFits(d0, v, level);
  }

  lemma BelowN(net: Net, flow: seq<int>, sink: nat, d0: seq<int>, d: seq<int>, level: nat, frontier: seq<nat>,
      todo: seq<nat>, next: seq<nat>, v: nat)
    requires net.Valid() && Searched(net, flow, sink, d0, level, frontier)
      && Claiming(net, flow, d0, d, level, frontier, todo, next)
    requires frontier != [] && v < net.n && d[v] != net.n
    ensures 0 <= d[v] < net.n && (d[v] == d0[v] <= level || (d[v] == level + 1 && d0[v] == net.n))
  {
    hide Net.Valid;
    assert frontier[0] in frontier;
    if d[v] == level + 1 && d0[v] == net.n {
      LevelFits(d0, v, level);
    }
  }

  // ---------- the end of a level ----------

  /** Distances of the level and below stand on a step down. */
  lemma TightAfter(net: Net, flow: seq<int>, sink: nat, d0: seq<int>, d: seq<int>, level: nat, frontier: seq<nat>,
      next: seq<nat>, v: nat)
    requires net.Valid() && Searched(net, flow, sink, d0, level, frontier)
      && Claiming(net, flow, d0, d, level, frontier, [], next)
    requires frontier != [] && v < net.n && v != sink && d[v] < net.n
    ensures exists e: nat :: Down(net, flow, d, v, e)
  {
    hide Net.Valid, Steep;
    BelowN(net, flow, sink, d0, d, level, frontier, [], next, v);
    if d[v] == d0[v] {
      var e: nat :| Down(net, flow, d0, v, e);
      assert Down(net, flow, d, v, e);
    } else {
      var e: nat :| Residual(net, flow, e) && net.from[e] == v && net.to[e] < net.n && d0[net.to[e]] == level;
      assert frontier[0] in frontier;
      assert Down(net, flow, d, v, e);
    }
  }

  lemma SteepAfter(net: Net, flow: seq<int>, sink: nat, d0: seq<int>, d: seq<int>, level: nat, frontier: seq<nat>,
      next: seq<nat>, e: nat)
    requires net.Valid() && Searched(net, flow, sink, d0, level, frontier)
      && Claiming(net, flow, d0, d, level, frontier, [], next)
    requires frontier != [] && Residual(net, flow, e) && BelowLevel(net, d, e, level + 1)
    ensures Steep(net, flow, d, e)
  {
    hide Net.Valid, Down;
    EdgeEnds(net, e);
    var u, v := net.to[e], net.from[e];
    assert frontier[0] in frontier;
    BelowN(net, flow, sink, d0, d, level, frontier, [], next, u);
    if d[u] < level {
      assert BelowLevel(net, d0, e, level);
      assert Steep(net, flow, d0, e);
    } else {
      var back := net.partner[e];
      assert BackResidual(net, flow, back) && net.from[back] in frontier;
      assert HasDistance(net, d, back);
      BelowN(net, flow, sink, d0, d, level, frontier, [], next, v);
    }
  }

  lemma VisitedGrows(net: Net, flow: seq<int>, sink: nat, d0: seq<int>, d: seq<int>, level: nat, frontier: seq<nat>,
      next: seq<nat>)
    requires net.Valid() && Searched(net, flow, sink, d0, level, frontier)
      && Claiming(net, flow, d0, d, level, frontier, [], next)
    requires frontier != [] && next != []
    ensures level + 1 < net.n && level + 1 < |Visited(d)|
  {
    hide Net.Valid, Down, Steep;
    var v := next[0];
    assert v in next;
    LevelFits(d0, v, level);
    OneMoreVisited(d0, d, v);
  }

  lemma OneMoreVisited(d0: seq<int>, d: seq<int>, v: nat)
    requires |d0| == |d| && v < |d| && d0[v] >= |d| && d[v] < |d|
    requires forall x :: 0 <= x < |d| && d0[x] < |d| ==> d[x] < |d|
    ensures |Visited(d0)| < |Visited(d)|
  {
    var rest := Visited(d) - Visited(d0) - {v};
    assert Visited(d) == Visited(d0) + {v} + rest;
  }

  lemma SinkStays(net: Net, flow: seq<int>, sink: nat, d0: seq<int>, d: seq<int>, level: nat, frontier: seq<nat>,
      next: seq<nat>)
    requires net.Valid() && Searched(net, flow, sink, d0, level, frontier)
      && Claiming(net, flow, d0, d, level, frontier, [], next)
    ensures d[sink] == 0
  {
    hide Net.Valid, Down, Steep;
  }

  lemma LevelEnds(net: Net, flow: seq<int>, sink: nat, d0: seq<int>, d: seq<int>, level: nat, frontier: seq<nat>,
      next: seq<nat>)
    requires net.Valid() && Searched(net, flow, sink, d0, level, frontier)
      && Claiming(net, flow, d0, d, level, frontier, [], next)
    requires frontier != []
    ensures Searched(net, flow, sink, d, level + 1, next)
  {
    hide Net.Valid, Down, Steep, Claimed, BackResidual, Residual;
    assert frontier[0] in frontier;
    forall v | 0 <= v < net.n && v != sink && d[v] < net.n ensures exists e: nat :: Down(net, flow, d, v, e) {
      TightAfter(net, flow, sink, d0, d, level, frontier, next, v);
    }
    forall e: nat | Residual(net, flow, e) && BelowLevel(net, d, e, level + 1) ensures Steep(net, flow, d, e) {
      SteepAfter(net, flow, sink, d0, d, level, frontier, next, e);
    }
    forall v | 0 <= v < net.n && d[v] != net.n
      ensures 0 <= d[v] <= level + 1 && (d[v] == level + 1 ==> d0[v] != d[v]) && (d0[v] != net.n ==> d[v] == d0[v])
    {
      BelowN(net, flow, sink, d0, d, level, frontier, [], next, v);
    }
    SinkStays(net, flow, sink, d0, d, level, frontier, next);
    if next != [] {
      VisitedGrows(net, flow, sink, d0, d, level, frontier, next);
    }
  }

  /** One level: every edge of the frontier is tried once, in any order. */
  method SearchLevel(net: Net, flow: seq<int>, d: seq<int>, level: nat, frontier: seq<nat>, ghost sink: nat)
    returns (d': seq<int>, next: seq<nat>)
    requires net.Valid() && Searched(net, flow, sink, d, level, frontier) && frontier != []
    requires forall e :: 0 <= e < |flow| ==> flow[e] <= net.cap[e]
    ensures Searched(net, flow, sink, d', level + 1, next)
  {
    hide Net.Valid, Searched, Claiming;
    FrontierFits(net, flow, sink, d, level, frontier);
    var todo: seq<nat> := EdgesOf(net, frontier);
    d', next := d, [];
    LevelBegins(net, flow, d, level, frontier, todo);
    while todo != []
      invariant |d'| == net.n && Claiming(net, flow, d, d', level, frontier, todo, next)
      invariant forall k :: 0 <= k < |todo| ==> todo[k] < |net.from|
      decreases |todo|
    {
      var k: nat :| k < |todo|;
      var e: nat, rest: seq<nat> := todo[k], todo[..k] + todo[k + 1..];
      EdgeEnds(net, e);
      ghost var before, nextBefore := d', next;
      d', next := TryClaim(net, flow, d', level, e, next);
      ClaimKeeps(net, flow, sink, d, before, level, frontier, todo, nextBefore, e, rest, d', next);
      todo := rest;
    }
    LevelEnds(net, flow, sink, d, d', level, frontier, next);
  }

  lemma FrontierFits(net: Net, flow: seq<int>, sink: nat, d: seq<int>, level: nat, frontier: seq<nat>)
    requires net.Valid() && Searched(net, flow, sink, d, level, frontier)
    ensures |d| == net.n && |flow| == |net.from| && forall k :: 0 <= k < |frontier| ==> frontier[k] < net.n
  {
    forall k | 0 <= k < |frontier| ensures frontier[k] < net.n {
      assert frontier[k] in frontier;
    }
  }

  lemma LevelBegins(net: Net, flow: seq<int>, d: seq<int>, level: nat, frontier: seq<nat>, todo: seq<nat>)
    requires net.Valid() && |d| == net.n && forall e: nat :: e in todo <==> e < |net.from| && net.from[e] in frontier
    ensures Claiming(net, flow, d, d, level, frontier, todo, [])
    ensures forall k :: 0 <= k < |todo| ==> todo[k] < |net.from|
  {
    hide Net.Valid;
    forall k | 0 <= k < |todo| ensures todo[k] < |net.from| && net.from[todo[k]] in frontier {
      assert todo[k] in todo;
    }
  }

  /** The whole search, from the sink back. */
  method Search(net: Net, flow: seq<int>, sink: nat) returns (d: seq<int>)
    requires net.Valid() && |flow| == |net.from| && sink < net.n
    requires forall e :: 0 <= e < |flow| ==> flow[e] <= net.cap[e]
    ensures Distances(net, flow, sink, d)
  {
    d := seq(net.n, v requires 0 <= v < net.n => if v == sink then 0 else net.n);
    var frontier, level := [sink], 0;
    SearchBegins(net, flow, sink, d);
    hide Net.Valid, Searched, Distances;
    while frontier != []
      invariant 0 <= level <= net.n && Searched(net, flow, sink, d, level, frontier)
      invariant frontier != [] ==> level < net.n
      decreases net.n - level, |frontier|
    {
      d, frontier := SearchLevel(net, flow, d, level, frontier, sink);
      level := level + 1;
      LevelBelow(net, flow, sink, d, level, frontier);
    }
    SearchEnds(net, flow, sink, d, level);
  }

  lemma SearchBegins(net: Net, flow: seq<int>, sink: nat, d: seq<int>)
    requires net.Valid() && |flow| == |net.from| && sink < net.n && |d| == net.n
    requires forall v :: 0 <= v < net.n ==> d[v] == if v == sink then 0 else net.n
    ensures Searched(net, flow, sink, d, 0, [sink])
  {
    hide Net.Valid;
    assert sink in Visited(d);
  }

  lemma LevelBelow(net: Net, flow: seq<int>, sink: nat, d: seq<int>, level: nat, frontier: seq<nat>)
    requires net.Valid() && Searched(net, flow, sink, d, level, frontier)
    ensures frontier != [] ==> level < net.n
  {
    if frontier != [] {
      assert frontier[0] in frontier;
    }
  }

  lemma SearchEnds(net: Net, flow: seq<int>, sink: nat, d: seq<int>, level: nat)
    requires net.Valid() && Searched(net, flow, sink, d, level, []) && level <= net.n
    ensures Distances(net, flow, sink, d)
  {
    hide Net.Valid, Down;
    forall e: nat | Residual(net, flow, e) ensures Steep(net, flow, d, e) {
      EdgeEnds(net, e);
      var u := net.to[e];
      assert u !in [];
      if d[u] < net.n {
        assert BelowLevel(net, d, e, level);
      }
    }
  }

  /** A global relabel by that search: labels are distances over edges with capacity left, so no such edge
      goes down by more than one, and a vertex is active exactly if it has excess and the sink is within
      reach, other than the sink. */
  method Relabel(f: MaxFlow, sink: nat, ghost base: seq<int>)
    requires f.Ready(base) && sink < f.net.n
    modifies f
    ensures f.Ready(base) && f.net.Valid() && f.flow == old(f.flow) && Distances(f.net, f.flow, sink, f.labels)
    ensures f.excess == old(f.excess) && |f.excess| == |f.labels| == f.net.n
    ensures forall u: nat :: u in f.active <==> u < f.net.n && 0 < f.labels[u] < f.net.n && f.excess[u] > 0
  {
    ReadySizes(f.net, f.labels, base, f.active, f.Mem());
    RoundIsSettled(f.net, f.labels, base, f.active, f.Mem(), Pcs(|f.active|, Begin));
    var d := Search(f.net, f.flow, sink);
    f.GlobalRelabel(d, base);
  }
}
