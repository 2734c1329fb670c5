/** Common prefixes of neighbouring suffixes: by doubling the compared length, resolving each round
    with range minima over the array that the round itself is writing, and, sequentially, along the
    string. */
module LcpTable {
  import opened Permutations
  import opened Suffixes
  import opened RangeMin

  /** How many characters are compared directly. */
  const HEAD := 111
  const BLOCK := 111

  // ---------- prefixes of suffixes apart in the order ----------

  lemma LcpOfThree(s: seq<nat>, i: nat, j: nat, k: nat)
    requires i <= |s| && j <= |s| && k <= |s| && SuffixLess(s, i, j) && SuffixLess(s, j, k)
    ensures Lcp(s, i, k) == Cap(Lcp(s, i, j), Lcp(s, j, k))
  {
    var p, q := Lcp(s, i, j), Lcp(s, j, k);
    LessComparesAtLcp(s, i, j);
    LessComparesAtLcp(s, j, k);
    var m := Cap(p, q);
    AgreeTransitive(s, i, j, k, m);
    assert p < q ==> Same(s, j, k, p);
    assert q < p ==> Same(s, i, j, q);
    assert IsLcp(s, i, k, m);
    LcpIsUnique(s, i, k, m, Lcp(s, i, k));
  }

  /** The common prefix of the k-th and the next suffix. */
  function Next(s: seq<nat>, sa: seq<nat>, k: nat): nat
    requires k + 1 < |sa| && Below(sa, |s|)
  {
    Lcp(s, sa[k], sa[k + 1])
  }

  /** The common prefix of two suffixes is the least of those between neighbours, so capped at len it
      is that at any place that is least up to len. */
  lemma {:induction false} LcpOfRange(s: seq<nat>, sa: seq<nat>, i: nat, j: nat)
    requires IsSuffixArray(s, sa) && i < j < |sa|
    ensures forall k :: i <= k < j ==> Lcp(s, sa[i], sa[j]) <= Next(s, sa, k)
    ensures exists k :: i <= k < j && Lcp(s, sa[i], sa[j]) == Next(s, sa, k)
  {
    hide Lcp, SuffixLess;
    if i + 1 < j {
      LcpOfRange(s, sa, i, j - 1);
      LcpOfThree(s, sa[i], sa[j - 1], sa[j]);
      var k :| i <= k < j - 1 && Lcp(s, sa[i], sa[j - 1]) == Next(s, sa, k);
    }
    assert Lcp(s, sa[j - 1], sa[j]) == Next(s, sa, j - 1);
  }

  lemma LcpSplit(s: seq<nat>, i: nat, j: nat, len: nat)
    requires Agree(s, i, j, len)
    ensures Lcp(s, i, j) == len + Lcp(s, i + len, j + len)
  {
    var rest := Lcp(s, i + len, j + len);
    forall q | 0 <= q < len + rest ensures Same(s, i, j, q) {
      assert q >= len ==> Same(s, i + len, j + len, q - len);
    }
    LcpIsUnique(s, i, j, Lcp(s, i, j), len + rest);
  }

  lemma LcpAtLeast(s: seq<nat>, i: nat, j: nat, len: nat)
    requires i <= |s| && j <= |s|
    ensures len <= Lcp(s, i, j) <==> Agree(s, i, j, len)
  {
    var l := Lcp(s, i, j);
    assert !Same(s, i, j, l);
  }

  // ---------- a round ----------

  /** What is known of a prefix when those shorter than len are: n if it is not. */
  function Known(l: nat, len: nat, n: nat): nat {
    if l < len then l else n
  }

  function Goal(s: seq<nat>, sa: seq<nat>, len: nat): (goal: seq<nat>)
    requires |sa| > 0 && Below(sa, |s|)
  {
    seq(|sa| - 1, k requires 0 <= k < |sa| - 1 => Known(Next(s, sa, k), len, |sa|))
  }

  ghost predicate Remaining(s: seq<nat>, sa: seq<nat>, len: nat, remain: seq<nat>)
    requires Below(sa, |s|)
  {
    && (forall t :: 0 <= t < |remain| ==> remain[t] + 1 < |sa| && len <= Next(s, sa, remain[t]))
    && forall i: nat :: i + 1 < |sa| && len <= Next(s, sa, i) ==> i in remain
  }

  lemma PrefixesAreShort(s: seq<nat>, sa: seq<nat>, k: nat)
    requires IsSuffixArray(s, sa) && k + 1 < |sa|
    ensures Next(s, sa, k) < |sa| && sa[k + 1] + Next(s, sa, k) < |s|
  {
    LessComparesAtLcp(s, sa[k], sa[k + 1]);
  }

  /** The writes of a round change only values that are n, and only to values that are at least len. */
  lemma RoundIsStable(s: seq<nat>, sa: seq<nat>, len: nat)
    requires IsSuffixArray(s, sa) && |sa| > 0 && len <= |sa|
    ensures Stable(Goal(s, sa, len), Goal(s, sa, 2 * len), len)
  {
  }

  /** The suffixes of one place, len further on, are in the string and in the same order. */
  lemma FurtherOn(s: seq<nat>, sa: seq<nat>, isa: seq<nat>, i: nat, len: nat)
    requires IsSuffixArray(s, sa) && Inverse(sa, isa) && i + 1 < |sa| && len <= Next(s, sa, i)
    ensures len <= |s| && sa[i + 1] + len < |s|
    ensures sa[i] + len < |s| ==>
      SuffixLess(s, sa[i] + len, sa[i + 1] + len) && isa[sa[i] + len] < isa[sa[i + 1] + len] < |sa|
    ensures sa[i] + len < |s| ==> Next(s, sa, i) == len + Lcp(s, sa[i] + len, sa[i + 1] + len)
    ensures sa[i] + len >= |s| ==> Next(s, sa, i) == len
  {
    var x, y, l := sa[i], sa[i + 1], Next(s, sa, i);
    LessComparesAtLcp(s, x, y);
    LcpAtLeast(s, x, y, len);
    LcpSplit(s, x, y, len);
    if x + len < |s| {
      AgreeFurther(s, x, y, len, l);
      assert SmallerAt(s, x + len, y + len, l - len);
      assert sa[isa[x + len]] == x + len && sa[isa[y + len]] == y + len;
      OrderIsRank(s, sa, isa[x + len], isa[y + len]);
    }
  }

  /** A place that is least up to len tells the common prefix up to len. */
  lemma QueryTells(s: seq<nat>, sa: seq<nat>, i: nat, j: nat, len: nat, r: int)
    requires IsSuffixArray(s, sa) && i < j < |sa| && len <= |sa|
    requires LeastUpTo(Goal(s, sa, len), len, i, j - 1, r)
    ensures r < |sa| - 1 && Cap(Goal(s, sa, len)[r], len) == Cap(Lcp(s, sa[i], sa[j]), len)
  {
    LcpOfRange(s, sa, i, j);
    var k :| i <= k < j && Lcp(s, sa[i], sa[j]) == Next(s, sa, k);
    assert Goal(s, sa, len)[k] == Known(Next(s, sa, k), len, |sa|);
    assert Goal(s, sa, len)[r] == Known(Next(s, sa, r), len, |sa|);
  }

  lemma SuffixArrayInRange(s: seq<nat>, sa: seq<nat>)
    requires IsSuffixArray(s, sa)
    ensures |sa| == |s| && Below(sa, |s|)
  {
  }

  // ---------- the array ----------

  /** Compares up to HEAD characters of two neighbours.  The sorted order keeps it inside s. */
  method CompareHeads(s: seq<nat>, sa: seq<nat>, i: nat) returns (l: nat)
    requires IsSuffixArray(s, sa) && i + 1 < |sa|
    ensures l == Goal(s, sa, HEAD)[i]
  {
    var n, j := |sa|, 0;
    var end := if HEAD < n - sa[i] then HEAD else n - sa[i];
    LessComparesAtLcp(s, sa[i], sa[i + 1]);
    LcpAtLeast(s, sa[i], sa[i + 1], 0);
    while j < end && s[sa[i] + j] == s[sa[i + 1] + j]
      invariant j <= end && Agree(s, sa[i], sa[i + 1], j) && j <= Next(s, sa, i)
    {
      assert Same(s, sa[i], sa[i + 1], j);
      j := j + 1;
      LcpAtLeast(s, sa[i], sa[i + 1], j);
    }
    if j < HEAD {
      assert IsLcp(s, sa[i], sa[i + 1], j);
      LcpIsUnique(s, sa[i], sa[i + 1], j, Next(s, sa, i));
    }
    l := if j < HEAD then j else n;
  }

  /** One place of the filter, in a round where other places are being decided at the same time:
      whether to keep it, having written the prefix if not. */
  method Decide(s: seq<nat>, sa: seq<nat>, isa: seq<nat>, rq: RangeMin, i: nat, len: nat) returns (keep: bool)
    requires IsSuffixArray(s, sa) && Inverse(sa, isa) && i + 1 < |sa| && 0 < len <= Next(s, sa, i)
    requires rq.Valid() && rq.built == Goal(s, sa, len) && rq.Sees(Goal(s, sa, 2 * len))
    modifies rq.a
    ensures rq.Sees(Goal(s, sa, 2 * len)) && Stays(old(rq.a[..]), rq.a[..], Goal(s, sa, 2 * len))
    ensures rq.a[i] == Goal(s, sa, 2 * len)[i] && (keep <==> 2 * len <= Next(s, sa, i))
  {
    hide LeastUpTo, IsSuffixArray, Lcp, Table;
    var n := |sa|;
    SuffixArrayInRange(s, sa);
    var goal := Goal(s, sa, 2 * len);
    PrefixesAreShort(s, sa, i);
    RoundIsStable(s, sa, len);
    FurtherOn(s, sa, isa, i, len);
    if sa[i] + len >= n {
      rq.a[i] := len;
      return false;
    }
    var i1 := isa[sa[i] + len];
    var i2 := isa[sa[i + 1] + len];
    var r := rq.Query(i1, i2 - 1, goal, len);
    QueryTells(s, sa, i1, i2, len, r);
    var l := rq.Read(r, goal, len);
    if l < len {
      rq.a[i] := len + l;
      return false;
    }
    return true;
  }

  /** The bodies of the filter, in any order. */
  method DecideAll(s: seq<nat>, sa: seq<nat>, isa: seq<nat>, rq: RangeMin, remain: seq<nat>, len: nat)
    returns (kept: seq<bool>)
    requires IsSuffixArray(s, sa) && Inverse(sa, isa) && |sa| > 0 && Below(sa, |s|)
    requires 0 < len && Remaining(s, sa, len, remain)
    requires rq.Valid() && rq.built == Goal(s, sa, len) == rq.a[..] && rq.a.Length == |sa| - 1
    modifies rq.a
    ensures |kept| == |remain| && rq.a[..] == Goal(s, sa, 2 * len)
    ensures forall t :: 0 <= t < |remain| ==> (kept[t] <==> 2 * len <= Next(s, sa, remain[t]))
  {
    hide IsSuffixArray, Inverse, Next, Table, Stable;
    ghost var goal := Goal(s, sa, 2 * len);
    kept := seq(|remain|, _ => true);
    var waiting := Range(|remain|);
    while waiting != {}
      invariant waiting <= Range(|remain|) && |kept| == |remain| && rq.Sees(goal)
      invariant forall t :: 0 <= t < |remain| && t !in waiting ==> rq.a[remain[t]] == goal[remain[t]]
      invariant forall t :: 0 <= t < |remain| && t !in waiting ==> (kept[t] <==> 2 * len <= Next(s, sa, remain[t]))
      decreases |waiting|
    {
      var t :| t in waiting;
      var keep := Decide(s, sa, isa, rq, remain[t], len);
      kept := kept[t := keep];
      waiting := waiting - {t};
    }
    AllWritten(s, sa, len, remain, rq.a[..]);
  }

  /** A round over the places that remain. */
  method Round(s: seq<nat>, sa: seq<nat>, isa: seq<nat>, L: array<nat>, remain: seq<nat>, len: nat)
    returns (next: seq<nat>)
    requires IsSuffixArray(s, sa) && Inverse(sa, isa) && L.Length == |sa| - 1
    requires 0 < len && remain != [] && Remaining(s, sa, len, remain) && L[..] == Goal(s, sa, len)
    modifies L
    ensures L[..] == Goal(s, sa, 2 * len) && Remaining(s, sa, 2 * len, next)
  {
    hide Inverse, Next, Goal, Table;
    assert remain[0] + 1 < |sa|;
    var rq := new RangeMin(L, BLOCK);
    var kept := DecideAll(s, sa, isa, rq, remain, len);
    next := [];
    for t := 0 to |remain|
      invariant forall u :: 0 <= u < |next| ==> next[u] + 1 < |sa| && 2 * len <= Next(s, sa, next[u])
      invariant forall u :: 0 <= u < t && kept[u] ==> remain[u] in next
    {
      if kept[t] {
        next := next + [remain[t]];
      }
    }
  }

  /** What no place of a round writes is right already. */
  lemma AllWritten(s: seq<nat>, sa: seq<nat>, len: nat, remain: seq<nat>, now: seq<nat>)
    requires |sa| > 0 && Below(sa, |s|) && Remaining(s, sa, len, remain)
    requires |now| == |sa| - 1
    requires forall k :: 0 <= k < |now| ==> now[k] == Goal(s, sa, len)[k] || now[k] == Goal(s, sa, 2 * len)[k]
    requires forall t :: 0 <= t < |remain| ==> now[remain[t]] == Goal(s, sa, 2 * len)[remain[t]]
    ensures now == Goal(s, sa, 2 * len)
  {
  }

  /** The true common prefix of every two neighbours. */
  method LcpArray(s: seq<nat>, sa: seq<nat>) returns (L: array<nat>)
    requires IsSuffixArray(s, sa) && |sa| > 0
    ensures fresh(L) && L.Length == |sa| - 1 && forall i :: 0 <= i < L.Length ==> L[i] == Lcp(s, sa[i], sa[i + 1])
  {
    hide Lcp, SuffixLess;
    var n, len := |sa|, HEAD;
    L := new nat[n - 1];
    for i := 0 to n - 1
      invariant forall k :: 0 <= k < i ==> L[k] == Goal(s, sa, HEAD)[k]
    {
      L[i] := CompareHeads(s, sa, i);
    }
    assert L[..] == Goal(s, sa, HEAD);
    forall k | 0 <= k < n - 1 ensures Next(s, sa, k) < n {
      PrefixesAreShort(s, sa, k);
    }
    var remain: seq<nat> := [];
    for i := 0 to n - 1
      invariant forall t :: 0 <= t < |remain| ==> remain[t] < i && L[remain[t]] == n
      invariant forall x :: 0 <= x < i && L[x] == n ==> x in remain
    {
      if L[i] == n {
        remain := remain + [i];
      }
    }
    assert Remaining(s, sa, len, remain);
    if remain == [] {
      NoneRemain(s, sa, len, remain);
      return;
    }
    var isa := Inverted(s, sa);
    while remain != []
      invariant 0 < len && L[..] == Goal(s, sa, len) && Remaining(s, sa, len, remain)
      decreases 2 * n - len
    {
      PrefixesAreShort(s, sa, remain[0]);
      remain := Round(s, sa, isa, L, remain, len);
      len := len * 2;
    }
    NoneRemain(s, sa, len, remain);
  }

  lemma NoneRemain(s: seq<nat>, sa: seq<nat>, len: nat, remain: seq<nat>)
    requires |sa| > 0 && Below(sa, |s|) && Remaining(s, sa, len, remain) && remain == []
    ensures forall k :: 0 <= k < |sa| - 1 ==> Goal(s, sa, len)[k] == Lcp(s, sa[k], sa[k + 1])
  {
  }

  method Inverted(s: seq<nat>, sa: seq<nat>) returns (isa: seq<nat>)
    requires IsSuffixArray(s, sa)
    ensures Inverse(sa, isa)
  {
    SuffixArrayDistinct(s, sa);
    DistinctCovers(sa, |sa|);
    isa := seq(|sa|, _ => 0);
    for i := 0 to |sa|
      invariant |isa| == |sa| && Below(isa, |sa|)
      invariant forall k :: 0 <= k < i ==> isa[sa[k]] == k
    {
      isa := isa[sa[i] := i];
    }
    forall x | 0 <= x < |sa| ensures sa[isa[x]] == x {
      assert x in sa;
      var k :| 0 <= k < |sa| && sa[k] == x;
    }
  }

  // ---------- along the string ----------

  /** Some smaller suffix shares h characters with the one at i. */
  ghost predicate Shares(s: seq<nat>, i: nat, h: nat) {
    h == 0 || exists j: nat :: SuffixLess(s, j, i) && Agree(s, j, i, h)
  }

  /** The nearest smaller suffix shares as much as any smaller one. */
  lemma NearestSharesMost(s: seq<nat>, sa: seq<nat>, rank: seq<nat>, i: nat, h: nat)
    requires IsSuffixArray(s, sa) && Inverse(sa, rank) && i < |s| && Shares(s, i, h)
    ensures h > 0 ==> rank[i] > 0
    ensures rank[i] > 0 ==> h <= Lcp(s, sa[rank[i] - 1], i)
  {
    hide IsSuffixArray, Lcp, SuffixLess;
    SuffixArrayInRange(s, sa);
    if h > 0 {
      var j: nat :| SuffixLess(s, j, i) && Agree(s, j, i, h);
      var k, m := rank[j], rank[i];
      assert sa[k] == j && sa[m] == i;
      OrderIsRank(s, sa, k, m);
      LcpAtLeast(s, j, i, h);
      LcpOfRange(s, sa, k, m);
      assert Lcp(s, j, i) <= Next(s, sa, m - 1);
    }
  }

  /** A suffix that shares h characters shares all but one of them a place further on. */
  lemma SharesNext(s: seq<nat>, i: nat, j: nat, h: nat)
    requires SuffixLess(s, j, i) && h > 1 && Agree(s, j, i, h)
    ensures Shares(s, i + 1, h - 1)
  {
    LessComparesAtLcp(s, j, i);
    LcpAtLeast(s, j, i, h);
    AgreeFurther(s, j, i, 1, Lcp(s, j, i));
    AgreeFurther(s, j, i, 1, h);
    assert SmallerAt(s, j + 1, i + 1, Lcp(s, j, i) - 1);
  }

  /** The sequential construction: lcp[k] pairs the suffixes k - 1 and k of the order. */
  method BuildLcp(s: seq<nat>, sa: seq<nat>) returns (lcp: seq<nat>)
    requires IsSuffixArray(s, sa)
    ensures |lcp| == |sa| && (|lcp| > 0 ==> lcp[0] == 0)
    ensures forall k :: 0 < k < |lcp| ==> lcp[k] == Lcp(s, sa[k - 1], sa[k])
  {
    hide IsSuffixArray, Lcp, SuffixLess;
    SuffixArrayInRange(s, sa);
    var n, h := |s|, 0;
    var rank := Inverted(s, sa);
    lcp := seq(n, _ => 0);
    for i := 0 to n
      invariant |lcp| == n && (n > 0 ==> lcp[0] == 0) && (i < n ==> Shares(s, i, h))
      invariant forall k :: 0 < k < n && sa[k] < i ==> lcp[k] == Lcp(s, sa[k - 1], sa[k])
    {
      NearestSharesMost(s, sa, rank, i, h);
      if rank[i] > 0 {
        var j := sa[rank[i] - 1];
        LcpAtLeast(s, j, i, h);
        while i + h < n && j + h < n && s[i + h] == s[j + h]
          invariant Agree(s, j, i, h)
          decreases n - h
        {
          assert Same(s, j, i, h);
          h := h + 1;
        }
        assert IsLcp(s, j, i, h);
        LcpIsUnique(s, j, i, h, Lcp(s, j, i));
        NeighbourIsLess(s, sa, rank[i] - 1);
        lcp := lcp[rank[i] := h];
        if h > 1 {
          SharesNext(s, i, j, h);
        }
      }
      if h > 0 {
        h := h - 1;
      }
    }
  }

  lemma NeighbourIsLess(s: seq<nat>, sa: seq<nat>, k: nat)
    requires IsSuffixArray(s, sa) && k + 1 < |sa|
    ensures SuffixLess(s, sa[k], sa[k + 1])
  {
  }
}
