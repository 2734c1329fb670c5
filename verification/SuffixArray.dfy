/** Suffix array by prefix doubling over shrinking segments.
    It lists the suffixes in the order of the renumbered string: the right one unless all 256 byte values
    occur, and then never, since byte 255 is renumbered below the others. */
module SuffixArray {
  import opened Powers
  import opened Sorting
  import opened Permutations
  import opened Suffixes

  // ---------- comparing by the first k characters ----------

  /** The renumbered string, 0 past its end. */
  function At(t: seq<nat>, i: nat): nat {
    if i < |t| then t[i] else 0
  }

  ghost predicate SameAt(t: seq<nat>, i: nat, j: nat, q: nat) {
    At(t, i + q) == At(t, j + q)
  }

  ghost predicate Equal(t: seq<nat>, i: nat, j: nat, k: nat) {
    forall q :: 0 <= q < k ==> SameAt(t, i, j, q)
  }

  ghost predicate LessAt(t: seq<nat>, i: nat, j: nat, p: nat) {
    Equal(t, i, j, p) && At(t, i + p) < At(t, j + p)
  }

  ghost predicate Less(t: seq<nat>, i: nat, j: nat, k: nat) {
    exists p :: 0 <= p < k && LessAt(t, i, j, p)
  }

  lemma {:induction false} Trichotomy(t: seq<nat>, i: nat, j: nat, k: nat)
    ensures Equal(t, i, j, k) || Less(t, i, j, k) || Less(t, j, i, k)
    ensures Equal(t, i, j, k) ==> !Less(t, i, j, k)
    ensures Less(t, i, j, k) ==> !Less(t, j, i, k)
  {
    EqualSymmetric(t, i, j, k);
    if k > 0 {
      Trichotomy(t, i, j, k - 1);
      EqualSymmetric(t, i, j, k - 1);
      if Equal(t, i, j, k - 1) {
        assert LessAt(t, i, j, k - 1) || LessAt(t, j, i, k - 1) || SameAt(t, i, j, k - 1);
      }
    }
    assert forall p: nat :: p < k && LessAt(t, i, j, p) ==> !SameAt(t, i, j, p);
    assert forall p: nat, q: nat :: LessAt(t, i, j, p) && LessAt(t, j, i, q) && p < q ==> SameAt(t, j, i, p);
    assert forall p: nat, q: nat :: LessAt(t, i, j, p) && LessAt(t, j, i, q) && q < p ==> SameAt(t, i, j, q);
  }

  lemma EqualSymmetric(t: seq<nat>, i: nat, j: nat, k: nat)
    ensures Equal(t, i, j, k) == Equal(t, j, i, k)
  {
    assert forall q: nat :: SameAt(t, i, j, q) == SameAt(t, j, i, q);
  }

  /** Comparing 2k characters is comparing k, and then the next k. */
  lemma Doubling(t: seq<nat>, i: nat, j: nat, k: nat)
    ensures Equal(t, i, j, 2 * k) == (Equal(t, i, j, k) && Equal(t, i + k, j + k, k))
    ensures Less(t, i, j, k) ==> Less(t, i, j, 2 * k)
    ensures Equal(t, i, j, k) && Less(t, i + k, j + k, k) ==> Less(t, i, j, 2 * k)
  {
    Shifted(t, i, j, k, k);
    assert forall q: nat :: k <= q < 2 * k ==> SameAt(t, i, j, q) == SameAt(t, i + k, j + k, q - k);
    var i', j' := i + k, j + k;
    forall q | 0 <= q < k ensures Equal(t, i, j, 2 * k) ==> SameAt(t, i', j', q) {
      assert SameAt(t, i', j', q) == SameAt(t, i, j, q + k);
    }
    if Equal(t, i, j, k) && Less(t, i + k, j + k, k) {
      var p :| 0 <= p < k && LessAt(t, i + k, j + k, p);
      Shifted(t, i, j, k, p);
      assert LessAt(t, i, j, k + p);
    }
  }

  lemma Shifted(t: seq<nat>, i: nat, j: nat, k: nat, p: nat)
    ensures Equal(t, i, j, k) && Equal(t, i + k, j + k, p) ==> Equal(t, i, j, k + p)
  {
    if Equal(t, i, j, k) && Equal(t, i + k, j + k, p) {
      forall q | 0 <= q < k + p ensures SameAt(t, i, j, q) {
        if q >= k {
          assert SameAt(t, i + k, j + k, q - k);
        }
      }
    }
  }

  // ---------- packing the first characters into a number ----------

  function Pack(t: seq<nat>, i: nat, m: nat, k: nat): nat {
    if k == 0 then 0 else Pack(t, i, m, k - 1) * m + At(t, i + k - 1)
  }

  /** Packed numbers compare as the packed characters do. */
  lemma {:induction false} PackOrder(t: seq<nat>, i: nat, j: nat, m: nat, k: nat)
    requires m > 0 && forall x :: 0 <= x < |t| ==> t[x] < m
    ensures Pack(t, i, m, k) == Pack(t, j, m, k) <==> Equal(t, i, j, k)
    ensures Pack(t, i, m, k) < Pack(t, j, m, k) <==> Less(t, i, j, k)
  {
    if k > 0 {
      PackOrder(t, i, j, m, k - 1);
      Trichotomy(t, i, j, k - 1);
      Trichotomy(t, i, j, k);
      var a, b := Pack(t, i, m, k - 1), Pack(t, j, m, k - 1);
      var x, y := At(t, i + k - 1), At(t, j + k - 1);
      HighDigit(a, b, x, y, m);
      HighDigit(b, a, y, x, m);
      assert Equal(t, i, j, k) <==> Equal(t, i, j, k - 1) && SameAt(t, i, j, k - 1);
      assert LessAt(t, i, j, k - 1) <==> Equal(t, i, j, k - 1) && x < y;
      if Less(t, i, j, k) {
        var p :| 0 <= p < k && LessAt(t, i, j, p);
        assert p < k - 1 ==> Less(t, i, j, k - 1);
      }
    }
  }

  lemma HighDigit(a: nat, b: nat, x: nat, y: nat, m: nat)
    requires x < m && y < m
    ensures a < b ==> a * m + x < b * m + y
  {
    if a < b {
      assert a * m + m == (a + 1) * m <= b * m;
    }
  }

  // ---------- padded comparison and suffix comparison ----------

  ghost predicate Positive(t: seq<nat>) {
    forall x :: 0 <= x < |t| ==> t[x] > 0
  }

  /** t renumbers the characters of s without changing their order. */
  ghost predicate SameOrder(s: seq<nat>, t: seq<nat>) {
    |s| == |t| && forall x, y :: 0 <= x < |s| && 0 <= y < |s| ==>
      (s[x] < s[y] <==> t[x] < t[y]) && (s[x] == s[y] <==> t[x] == t[y])
  }

  /** A suffix that is smaller on its first k padded characters is smaller. */
  lemma LessIsSuffixLess(t: seq<nat>, i: nat, j: nat, k: nat)
    requires i < |t| && j < |t| && Less(t, i, j, k)
    ensures SuffixLess(t, i, j)
  {
    var p :| 0 <= p < k && LessAt(t, i, j, p);
    var e := if i + p <= |t| then p else |t| - i;
    forall q | 0 <= q < e ensures Same(t, i, j, q) {
      assert SameAt(t, i, j, q);
    }
    assert SmallerAt(t, i, j, e);
  }

  /** Renumbering without changing the order of the characters does not change that of the suffixes. */
  lemma OrderCarries(s: seq<nat>, t: seq<nat>, sa: seq<nat>)
    requires SameOrder(s, t) && IsSuffixArray(t, sa)
    ensures IsSuffixArray(s, sa)
  {
    forall k, m | 0 <= k < m < |sa| ensures SuffixLess(s, sa[k], sa[m]) {
      var p: nat :| SmallerAt(t, sa[k], sa[m], p);
      assert forall q: nat :: Same(t, sa[k], sa[m], q) ==> Same(s, sa[k], sa[m], q);
      assert SmallerAt(s, sa[k], sa[m], p);
    }
  }

  /** The string ends in two characters that cannot be told from its padding. */
  predicate EndsInZeros(t: seq<nat>) {
    |t| >= 2 && t[|t| - 1] == 0 && t[|t| - 2] == 0
  }

  /** From i on the string is its own shift to j, and so all zeros. */
  lemma {:induction false} ShiftIsZero(t: seq<nat>, i: nat, j: nat, x: nat)
    requires i < j && i <= x && forall q: nat :: SameAt(t, i, j, q)
    ensures At(t, x) == 0
    decreases |t| - x
  {
    if x < |t| {
      assert SameAt(t, i, j, x - i);
      ShiftIsZero(t, i, j, x + (j - i));
    }
  }

  /** Two suffixes that agree on n or more padded characters: only at the end of a string like that. */
  lemma EqualMeansSame(t: seq<nat>, i: nat, j: nat, k: nat)
    requires i < j < |t| && k >= |t| && Equal(t, i, j, k)
    ensures EndsInZeros(t)
  {
    forall q: nat | true ensures SameAt(t, i, j, q) {
    }
    ShiftIsZero(t, i, j, |t| - 1);
    ShiftIsZero(t, i, j, |t| - 2);
  }

  // ---------- renumbering the characters ----------

  /** How many of the byte values below c occur. */
  function PresentBelow(ss: seq<nat>, c: nat): nat {
    if c == 0 then 0 else PresentBelow(ss, c - 1) + if c - 1 in ss then 1 else 0
  }

  /** The dense number of byte c, starting at 1, stored in a byte. */
  function Renumber(ss: seq<nat>, c: nat): nat {
    (1 + PresentBelow(ss, c)) % 256
  }

  function Renumbered(ss: seq<nat>): seq<nat> {
    seq(|ss|, i requires 0 <= i < |ss| => Renumber(ss, ss[i]))
  }

  ghost predicate Bytes(ss: seq<nat>) {
    forall i :: 0 <= i < |ss| ==> ss[i] < 256
  }

  /** Every one of the 256 byte values occurs. */
  predicate AllBytes(ss: seq<nat>) {
    forall c :: 0 <= c < 256 ==> c in ss
  }

  lemma {:induction false} PresentGrows(ss: seq<nat>, c: nat, d: nat)
    requires c <= d
    ensures PresentBelow(ss, c) <= PresentBelow(ss, d) <= PresentBelow(ss, c) + (d - c)
    ensures c < d && c in ss ==> PresentBelow(ss, c) < PresentBelow(ss, d)
    ensures PresentBelow(ss, d) == PresentBelow(ss, c) + (d - c) ==> forall b :: c <= b < d ==> b in ss
    ensures (forall b :: c <= b < d ==> b in ss) ==> PresentBelow(ss, d) == PresentBelow(ss, c) + (d - c)
  {
    if c < d {
      PresentGrows(ss, c, d - 1);
    }
  }

  /** Unless all byte values occur, the renumbering keeps the order and gives positive numbers. */
  lemma RenumberKeepsOrder(ss: seq<nat>)
    requires Bytes(ss) && !AllBytes(ss)
    ensures SameOrder(ss, Renumbered(ss)) && Positive(Renumbered(ss))
  {
    forall i | 0 <= i < |ss| ensures PresentBelow(ss, ss[i]) < 255 {
      PresentGrows(ss, 0, ss[i]);
      PresentGrows(ss, ss[i] + 1, 256);
    }
    forall x, y | 0 <= x < |ss| && 0 <= y < |ss| && ss[x] < ss[y]
      ensures Renumbered(ss)[x] < Renumbered(ss)[y]
    {
      PresentGrows(ss, ss[x], ss[y]);
    }
  }

  /** If all occur, byte 255 gets the number of the end of the string, below that of byte 0. */
  lemma RenumberWraps(ss: seq<nat>)
    requires AllBytes(ss)
    ensures Renumber(ss, 255) == 0 && forall c :: 0 <= c < 255 ==> Renumber(ss, c) == c + 1
  {
    forall c | 0 <= c < 256 ensures PresentBelow(ss, c) == c {
      PresentGrows(ss, 0, c);
    }
  }

  lemma RenumberedBelow(ss: seq<nat>)
    requires Bytes(ss)
    ensures forall i :: 0 <= i < |ss| ==> Renumbered(ss)[i] < 1 + PresentBelow(ss, 256)
    ensures ss != [] ==> PresentBelow(ss, 256) >= 1
  {
    forall i | 0 <= i < |ss| ensures Renumbered(ss)[i] < 1 + PresentBelow(ss, 256) {
      PresentGrows(ss, ss[i], 256);
    }
    if ss != [] {
      PresentGrows(ss, ss[0], 256);
    }
  }

  /** The number of characters that fit in 96 bits when each takes one of m values. */
  function PackWidth(m: nat, k: nat, power: nat): (nchars: nat)
    requires m >= 2 && power >= 1
    ensures nchars >= k
    decreases 0x1_0000_0000_0000_0000_0000_0000 - power
  {
    if power * m > 0x1_0000_0000_0000_0000_0000_0000 then k
    else
      assert power * m >= power * 2;
      PackWidth(m, k + 1, power * m)
  }

  // ---------- segments ----------

  datatype Seg = Seg(start: nat, length: nat)

  predicate InSeg(g: Seg, p: int) {
    g.start <= p < g.start + g.length
  }

  /** names[i] is where the run of equal keys that holds i starts. */
  ghost predicate RunStarts(keys: seq<nat>, names: seq<nat>) {
    |names| == |keys| && forall i :: 0 <= i < |keys| ==>
      && names[i] <= i
      && (forall j :: names[i] <= j <= i ==> keys[j] == keys[i] && names[j] == names[i])
      && (names[i] > 0 ==> keys[names[i] - 1] != keys[i])
  }

  /** One entry for each position: the segment of the run that ends there, or the empty segment. */
  function SegsOf(names: seq<nat>, start: nat): seq<Seg>
    requires forall i :: 0 <= i < |names| ==> names[i] <= i
  {
    seq(|names|, i requires 0 <= i < |names| =>
      if i + 1 == |names| || names[i + 1] == i + 1 then Seg(start + names[i], i + 1 - names[i]) else Seg(0, 0))
  }

  function MaxScan(a: seq<nat>): (r: seq<nat>)
    ensures |r| == |a|
  {
    if a == [] then []
    else
      var r := MaxScan(a[..|a| - 1]);
      r + [if r != [] && r[|r| - 1] > a[|a| - 1] then r[|r| - 1] else a[|a| - 1]]
  }

  lemma {:induction false} MaxScanStep(a: seq<nat>, i: nat)
    requires i < |a|
    ensures MaxScan(a)[i] == if i > 0 && MaxScan(a)[i - 1] > a[i] then MaxScan(a)[i - 1] else a[i]
  {
    var front := a[..|a| - 1];
    if i < |a| - 1 {
      MaxScanStep(front, i);
    }
  }

  /** One more key starts a run or joins the last one. */
  lemma ExtendRuns(keys: seq<nat>, names: seq<nat>, key: nat, name: nat)
    requires keys != [] && RunStarts(keys, names)
    requires name == if keys[|keys| - 1] != key then |keys| else names[|names| - 1]
    ensures RunStarts(keys + [key], names + [name])
  {
  }

  function Marks(keys: seq<nat>): seq<nat> {
    seq(|keys|, j requires 0 <= j < |keys| => if j > 0 && keys[j] != keys[j - 1] then j else 0)
  }

  /** The parallel names: mark the run starts and take the running maximum. */
  lemma {:induction false} ScanGivesRunStarts(keys: seq<nat>, marks: seq<nat>, i: nat)
    requires i < |keys| && marks == Marks(keys)
    ensures RunStarts(keys[..i + 1], MaxScan(marks)[..i + 1])
  {
    hide RunStarts;
    MaxScanStep(marks, i);
    var names := MaxScan(marks);
    if i == 0 {
      assert names[..1] == [0];
      OneRun(keys[..1], names[..1]);
    } else {
      ScanGivesRunStarts(keys, marks, i - 1);
      assert names[i - 1] <= i - 1 by { NamesBelow(keys[..i], names[..i], i - 1); }
      ExtendRuns(keys[..i], names[..i], keys[i], names[i]);
      assert keys[..i] + [keys[i]] == keys[..i + 1] && names[..i] + [names[i]] == names[..i + 1];
    }
  }

  lemma OneRun(keys: seq<nat>, names: seq<nat>)
    requires |keys| == 1 && names == [0]
    ensures RunStarts(keys, names)
  {
  }

  lemma NamesBelow(keys: seq<nat>, names: seq<nat>, i: nat)
    requires RunStarts(keys, names) && i < |keys|
    ensures |names| == |keys| && names[i] <= i
  {
  }

  /** split_segment: names the runs of equal keys, in sequence below 5000 keys, by a scan above. */
  method SplitSegment(keys: seq<nat>, start: nat) returns (names: seq<nat>, segOut: seq<Seg>)
    requires keys != []
    ensures RunStarts(keys, names) && (forall i :: 0 <= i < |names| ==> names[i] <= i)
    ensures segOut == SegsOf(names, start)
  {
    hide RunStarts;
    if |keys| < 5000 {
      names, segOut := [0], [];
      OneRun(keys[..1], names);
      for i := 1 to |keys|
        invariant |names| == i && RunStarts(keys[..i], names)
        invariant |segOut| == i - 1
        invariant forall j :: 0 <= j < i ==> names[j] <= j
        invariant forall j :: 0 <= j < i - 1 ==>
          segOut[j] == if names[j + 1] == j + 1 then Seg(start + names[j], j + 1 - names[j]) else Seg(0, 0)
      {
        var name := names[i - 1];
        ghost var next := if keys[i - 1] != keys[i] then i else name;
        ExtendRuns(keys[..i], names, keys[i], next);
        assert keys[..i] + [keys[i]] == keys[..i + 1];
        if keys[i - 1] != keys[i] {
          segOut := segOut + [Seg(name + start, i - name)];
          name := i;
        } else {
          segOut := segOut + [Seg(0, 0)];
        }
        names := names + [name];
      }
      assert keys[..|keys|] == keys;
      var name := names[|keys| - 1];
      segOut := segOut + [Seg(name + start, |keys| - name)];
    } else {
      var marks := Marks(keys);
      names := MaxScan(marks);
      ScanGivesRunStarts(keys, marks, |keys| - 1);
      assert keys[..|keys|] == keys && names[..|keys|] == names;
      forall i | 0 <= i < |keys| ensures names[i] <= i {
        NamesBelow(keys, names, i);
      }
      segOut := SegsOf(names, start);
    }
  }

  // ---------- ranks and segments, by position ----------

  /** The ranks in the order of the positions. */
  ghost function ByPos(ord: seq<nat>, rk: seq<nat>): seq<nat>
    requires Below(ord, |rk|)
  {
    seq(|ord|, p requires 0 <= p < |ord| => rk[ord[p]])
  }

  /** A rank is one more than the position where the run of equal ranks starts. */
  ghost predicate Grouped(R: seq<nat>) {
    forall p :: 0 <= p < |R| ==> 1 <= R[p] <= p + 1 && forall q :: R[p] - 1 <= q <= p ==> R[q] == R[p]
  }

  ghost predicate InAny(segs: seq<Seg>, p: int) {
    exists k :: 0 <= k < |segs| && InSeg(segs[k], p)
  }

  /** The position p is a whole run. */
  predicate Alone(R: seq<nat>, p: nat) {
    p < |R| && R[p] == p + 1 && (p + 1 < |R| ==> R[p + 1] == p + 2)
  }

  /** The nonempty segments are whole runs, one after another, and what they leave out is resolved. */
  ghost predicate SegsInv(R: seq<nat>, segs: seq<Seg>) {
    && (forall k :: 0 <= k < |segs| && segs[k].length > 0 ==>
          && segs[k].start + segs[k].length <= |R|
          && (forall p :: InSeg(segs[k], p) ==> R[p] == segs[k].start + 1)
          && (segs[k].start + segs[k].length < |R| ==>
            R[segs[k].start + segs[k].length] == segs[k].start + segs[k].length + 1))
    && (forall j, k :: 0 <= j < k < |segs| && segs[j].length > 0 && segs[k].length > 0 ==>
          segs[j].start + segs[j].length <= segs[k].start)
    && forall p :: 0 <= p < |R| ==> InAny(segs, p) || Alone(R, p)
  }

  /** Ranks that compare by the first h padded characters. */
  ghost predicate RanksPack(t: seq<nat>, h: nat, rk: seq<nat>) {
    forall a, b :: 0 <= a < |rk| && 0 <= b < |rk| ==>
      (rk[a] == rk[b] ==> Equal(t, a, b, h)) && (rk[a] < rk[b] ==> Less(t, a, b, h))
  }

  /** Suffixes of equal rank agree on h padded characters; one of lower rank is smaller. */
  ghost predicate RanksCompare(t: seq<nat>, h: nat, rk: seq<nat>) {
    forall a, b :: 0 <= a < |rk| && 0 <= b < |rk| ==>
      (rk[a] == rk[b] ==> Equal(t, a, b, h)) && (rk[a] < rk[b] ==> SuffixLess(t, a, b))
  }

  lemma PackCompares(t: seq<nat>, h: nat, rk: seq<nat>)
    requires |rk| == |t| && RanksPack(t, h, rk)
    ensures RanksCompare(t, h, rk)
  {
    forall a, b | 0 <= a < |rk| && 0 <= b < |rk| && rk[a] < rk[b] ensures SuffixLess(t, a, b) {
      LessIsSuffixLess(t, a, b, h);
    }
  }

  /** The rank of a suffix; 0 for the empty one and for those past the end. */
  function RankAt(rk: seq<nat>, o: nat): nat {
    if o >= |rk| then 0 else rk[o]
  }

  /** Two suffixes that agree on h padded characters compare as what follows them. */
  lemma AheadCompares(t: seq<nat>, h: nat, rk: seq<nat>, a: nat, b: nat)
    requires RanksCompare(t, h, rk) && |rk| == |t| && a < |t| && b < |t| && Equal(t, a, b, h)
    requires forall x :: 0 <= x < |rk| ==> rk[x] >= 1
    ensures RankAt(rk, a + h) == RankAt(rk, b + h) ==> Equal(t, a, b, 2 * h)
    ensures RankAt(rk, a + h) < RankAt(rk, b + h) ==> SuffixLess(t, a, b)
  {
    if RankAt(rk, a + h) == RankAt(rk, b + h) {
      if a + h >= |t| {
        assert Equal(t, a + h, b + h, h);
      }
      Doubling(t, a, b, h);
    } else if RankAt(rk, a + h) < RankAt(rk, b + h) {
      var e := if a + h < |t| then h else |t| - a;
      forall q | 0 <= q < e ensures Same(t, a, b, q) {
        assert SameAt(t, a, b, q);
      }
      if a + h < |t| {
        AgreeThenLess(t, a, b, h);
      } else {
        assert SmallerAt(t, a, b, e);
      }
    }
  }

  lemma AgreeThenLess(t: seq<nat>, a: nat, b: nat, h: nat)
    requires Agree(t, a, b, h) && SuffixLess(t, a + h, b + h)
    ensures SuffixLess(t, a, b)
  {
    var a', b' := a + h, b + h;
    var p: nat :| SmallerAt(t, a', b', p);
    forall q | 0 <= q < h + p ensures Same(t, a, b, q) {
      assert q >= h ==> Same(t, a', b', q - h);
    }
    assert SmallerAt(t, a, b, h + p);
  }

  lemma GroupedGrows(R: seq<nat>, p: nat, q: nat)
    requires Grouped(R) && p <= q < |R|
    ensures R[p] <= R[q]
  {
  }

  // ---------- one round ----------

  /** The keys the round sorts by: the ranks h characters ahead, by position. */
  ghost function KeysAhead(ord: seq<nat>, rk: seq<nat>, h: nat): seq<nat> {
    seq(|ord|, p requires 0 <= p < |ord| => RankAt(rk, ord[p] + h))
  }

  ghost predicate SegSorted(F: seq<nat>, g: Seg) {
    g.start + g.length <= |F| && forall p, q :: g.start <= p <= q < g.start + g.length ==> F[p] <= F[q]
  }

  /** Within a segment the new rank of a position tells where its run of equal keys starts. */
  ghost predicate Named(F: seq<nat>, R: seq<nat>, g: Seg) {
    && |F| == |R| && g.start + g.length <= |R|
    && forall p :: InSeg(g, p) ==>
         && g.start + 1 <= R[p] <= p + 1
         && (forall q :: R[p] - 1 <= q <= p ==> F[q] == F[p] && R[q] == R[p])
         && (R[p] - 1 > g.start ==> F[R[p] - 2] != F[p])
  }

  /** What a round does, by position: R and F are the ranks and keys before, R' the ranks after. */
  ghost predicate Refines(R: seq<nat>, F: seq<nat>, R': seq<nat>, segs: seq<Seg>) {
    && |R| == |F| == |R'|
    && (forall k :: 0 <= k < |segs| ==> segs[k].length > 0 && SegSorted(F, segs[k]) && Named(F, R', segs[k]))
    && forall p :: 0 <= p < |R| && !InAny(segs, p) ==> R'[p] == R[p]
  }

  lemma RefinedIsGrouped(R: seq<nat>, F: seq<nat>, R': seq<nat>, segs: seq<Seg>)
    requires Grouped(R) && SegsInv(R, segs) && Refines(R, F, R', segs)
    ensures Grouped(R')
  {
  }

  /** Positions of one new run were in one old run and have equal keys. */
  lemma SameNewRun(R: seq<nat>, F: seq<nat>, R': seq<nat>, segs: seq<Seg>, p: nat, q: nat)
    requires Grouped(R) && SegsInv(R, segs) && Refines(R, F, R', segs)
    requires p < q < |R'| && R'[p] == R'[q] && R'[p] <= p + 1
    ensures R[p] == R[q] && F[p] == F[q]
  {
    assert InAny(segs, q);
    var k :| 0 <= k < |segs| && InSeg(segs[k], q);
    assert Named(F, R', segs[k]);
    assert InSeg(segs[k], p);
  }

  /** Positions of one old run and different new runs have keys in order. */
  lemma OldRunSplit(R: seq<nat>, F: seq<nat>, R': seq<nat>, segs: seq<Seg>, p: nat, q: nat)
    requires Grouped(R) && SegsInv(R, segs) && Refines(R, F, R', segs)
    requires p < q < |R'| && R[p] == R[q] && R'[p] != R'[q]
    ensures F[p] < F[q]
  {
    assert InAny(segs, q);
    var k :| 0 <= k < |segs| && InSeg(segs[k], q);
    assert Named(F, R', segs[k]) && SegSorted(F, segs[k]);
    assert R[q] == segs[k].start + 1;
    var r := R'[q] - 2;
    assert p <= r;
    assert F[p] <= F[r] <= F[q];
  }

  /** A round doubles the number of characters the ranks compare. */
  lemma RoundDoubles(t: seq<nat>, h: nat, ord: seq<nat>, pos: seq<nat>, rk: seq<nat>, rk': seq<nat>, segs: seq<Seg>)
    requires Inverse(ord, pos) && |rk| == |rk'| == |t| == |ord|
    requires Grouped(ByPos(ord, rk)) && SegsInv(ByPos(ord, rk), segs)
    requires Refines(ByPos(ord, rk), KeysAhead(ord, rk, h), ByPos(ord, rk'), segs)
    requires RanksCompare(t, h, rk)
    ensures RanksCompare(t, 2 * h, rk')
  {
    hide SegsInv, Refines, Equal, SuffixLess;
    var R, F, R' := ByPos(ord, rk), KeysAhead(ord, rk, h), ByPos(ord, rk');
    RefinedIsGrouped(R, F, R', segs);
    forall x | 0 <= x < |rk| ensures rk[x] >= 1 {
      assert R[pos[x]] == rk[x];
    }
    forall a, b | 0 <= a < |rk| && 0 <= b < |rk|
      ensures rk'[a] == rk'[b] ==> Equal(t, a, b, 2 * h)
      ensures rk'[a] < rk'[b] ==> SuffixLess(t, a, b)
    {
      var p, q := pos[a], pos[b];
      assert R[p] == rk[a] && R[q] == rk[b] && R'[p] == rk'[a] && R'[q] == rk'[b];
      if rk[a] == rk[b] {
        AheadCompares(t, h, rk, a, b);
      }
      if R'[p] == R'[q] {
        if p < q {
          SameNewRun(R, F, R', segs, p, q);
        } else if q < p {
          SameNewRun(R, F, R', segs, q, p);
        } else {
          assert Equal(t, a, b, 2 * h) by { EqualReflexive(t, a, 2 * h); }
        }
      } else if R'[p] < R'[q] {
        if q < p {
          GroupedGrows(R', q, p);
        }
        GroupedGrows(R, p, q);
        if R[p] == R[q] {
          OldRunSplit(R, F, R', segs, p, q);
        }
      }
    }
  }

  lemma EqualReflexive(t: seq<nat>, a: nat, k: nat)
    ensures Equal(t, a, a, k)
  {
  }

  /** The last two suffixes have the same rank. */
  ghost predicate Tied(rk: seq<nat>) {
    |rk| >= 2 && rk[|rk| - 1] == rk[|rk| - 2]
  }

  /** The characters past the end do not tell them apart. */
  lemma TieStays(h: nat, ord: seq<nat>, pos: seq<nat>, rk: seq<nat>, rk': seq<nat>, segs: seq<Seg>)
    requires Inverse(ord, pos) && |rk| == |rk'| == |ord| && h >= 2
    requires Grouped(ByPos(ord, rk)) && SegsInv(ByPos(ord, rk), segs)
    requires Refines(ByPos(ord, rk), KeysAhead(ord, rk, h), ByPos(ord, rk'), segs)
    requires Tied(rk)
    ensures Tied(rk')
  {
    hide SegsInv, Refines, Grouped;
    var R, F, R' := ByPos(ord, rk), KeysAhead(ord, rk, h), ByPos(ord, rk');
    var p, q := pos[|rk| - 1], pos[|rk| - 2];
    assert R[p] == R[q] && F[p] == F[q] == 0;
    if R'[p] != R'[q] {
      OldRunSplit(R, F, R', segs, if p < q then p else q, if p < q then q else p);
    }
    assert R'[p] == rk'[|rk| - 1] && R'[q] == rk'[|rk| - 2];
  }

  lemma TiedAtFirst(t: seq<nat>, k: nat, rk: seq<nat>)
    requires EndsInZeros(t) && |rk| == |t| && RanksPack(t, k, rk)
    ensures Tied(rk)
  {
    var a, b := |t| - 2, |t| - 1;
    assert Equal(t, a, b, k) && Equal(t, b, a, k);
    Trichotomy(t, a, b, k);
    Trichotomy(t, b, a, k);
  }

  /** A tie is never resolved. */
  lemma TieIsOpen(ord: seq<nat>, rk: seq<nat>)
    requires Below(ord, |rk|) && Distinct(ord) && |ord| == |rk| && Tied(rk)
    ensures !SegsInv(ByPos(ord, rk), [])
  {
    var pos, R := InverseOf(ord), ByPos(ord, rk);
    var p, q := pos[|rk| - 1], pos[|rk| - 2];
    assert R[p] == R[q] && p != q;
    assert !(Alone(R, p) && Alone(R, q));
  }

  /** x stands in the segment. */
  ghost predicate FromSeg(ord: seq<nat>, g: Seg, x: nat) {
    exists q :: InSeg(g, q) && q < |ord| && ord[q] == x
  }

  method SortByAhead(part: seq<nat>, rk: seq<nat>, h: nat) returns (sorted: seq<nat>)
    ensures |sorted| == |part| && multiset(sorted) == multiset(part)
    ensures forall i, j :: 0 <= i < j < |sorted| ==> RankAt(rk, sorted[i] + h) <= RankAt(rk, sorted[j] + h)
  {
    sorted := Sort(part, (a: nat, b: nat) => RankAt(rk, a + h) <= RankAt(rk, b + h));
  }

  /** Sorting a stretch by the keys ahead: the same suffixes, now in order of key. */
  method SortStretch(ord: seq<nat>, rk: seq<nat>, h: nat, g: Seg) returns (ord': seq<nat>)
    requires g.start + g.length <= |ord|
    ensures |ord'| == |ord| && multiset(ord') == multiset(ord)
    ensures SegSorted(KeysAhead(ord', rk, h), g)
    ensures forall p :: 0 <= p < |ord| && !InSeg(g, p) ==> ord'[p] == ord[p]
    ensures forall p :: InSeg(g, p) ==> p < |ord'| && FromSeg(ord, g, ord'[p])
  {
    hide FromSeg, SegSorted, KeysAhead;
    var st, en := g.start, g.start + g.length;
    var sorted := SortByAhead(ord[st..en], rk, h);
    ord' := ord[..st] + sorted + ord[en..];
    StretchReplaced(ord, g, sorted);
    StretchSorted(ord, rk, h, g, sorted);
  }

  lemma StretchSorted(ord: seq<nat>, rk: seq<nat>, h: nat, g: Seg, sorted: seq<nat>)
    requires g.start + g.length <= |ord| && |sorted| == g.length
    requires forall i, j :: 0 <= i < j < |sorted| ==> RankAt(rk, sorted[i] + h) <= RankAt(rk, sorted[j] + h)
    ensures SegSorted(KeysAhead(ord[..g.start] + sorted + ord[g.start + g.length..], rk, h), g)
  {
  }

  lemma StretchReplaced(ord: seq<nat>, g: Seg, sorted: seq<nat>)
    requires g.start + g.length <= |ord|
    requires |sorted| == g.length && multiset(sorted) == multiset(ord[g.start..g.start + g.length])
    ensures
      var ord' := ord[..g.start] + sorted + ord[g.start + g.length..];
      && multiset(ord') == multiset(ord)
      && (forall p :: 0 <= p < |ord| && !InSeg(g, p) ==> ord'[p] == ord[p])
      && forall p :: InSeg(g, p) ==> p < |ord'| && FromSeg(ord, g, ord'[p])
  {
    var st, en := g.start, g.start + g.length;
    var ord' := ord[..st] + sorted + ord[en..];
    assert ord == ord[..st] + ord[st..en] + ord[en..];
    SameMembers(sorted, ord[st..en]);
    forall p | InSeg(g, p) ensures FromSeg(ord, g, ord'[p]) {
      assert ord'[p] == sorted[p - st];
      assert sorted[p - st] in ord[st..en];
      var j :| 0 <= j < en - st && ord[st..en][j] == sorted[p - st];
      assert InSeg(g, st + j) && ord[st + j] == ord'[p];
    }
  }

  /** The first half of a round: every segment is sorted by the ranks h characters ahead.  The ranks
      are only read, so the segments, which are disjoint, may be sorted in any order or at once. */
  method SortPhase(ord: seq<nat>, rk: seq<nat>, h: nat, segs: seq<Seg>) returns (ord': seq<nat>)
    requires |ord| == |rk| && Below(ord, |rk|) && SegsInv(ByPos(ord, rk), segs)
    requires forall k :: 0 <= k < |segs| ==> segs[k].length > 0
    ensures |ord'| == |ord| && multiset(ord') == multiset(ord) && Below(ord', |rk|)
    ensures ByPos(ord', rk) == ByPos(ord, rk)
    ensures forall k :: 0 <= k < |segs| ==> SegSorted(KeysAhead(ord', rk, h), segs[k])
  {
    hide SegsInv, SegSorted, KeysAhead, ByPos;
    ord' := ord;
    for k := 0 to |segs|
      invariant |ord'| == |ord| && multiset(ord') == multiset(ord) && Below(ord', |rk|)
      invariant ByPos(ord', rk) == ByPos(ord, rk) && SortedUpTo(ord', rk, h, segs, k)
    {
      ord' := SortOne(ord', rk, h, segs, k);
    }
  }

  /** The first k segments are in order of the keys ahead. */
  ghost predicate SortedUpTo(ord: seq<nat>, rk: seq<nat>, h: nat, segs: seq<Seg>, k: nat) {
    forall j :: 0 <= j < k && j < |segs| ==> SegSorted(KeysAhead(ord, rk, h), segs[j])
  }

  method SortOne(ord: seq<nat>, rk: seq<nat>, h: nat, segs: seq<Seg>, k: nat) returns (ord': seq<nat>)
    requires |ord| == |rk| && Below(ord, |rk|) && SegsInv(ByPos(ord, rk), segs) && k < |segs|
    requires (forall j :: 0 <= j < |segs| ==> segs[j].length > 0) && SortedUpTo(ord, rk, h, segs, k)
    ensures |ord'| == |ord| && multiset(ord') == multiset(ord) && Below(ord', |rk|)
    ensures ByPos(ord', rk) == ByPos(ord, rk) && SortedUpTo(ord', rk, h, segs, k + 1)
  {
    hide SegSorted, KeysAhead, SegsInv, ByPos, FromSeg;
    SegFits(ByPos(ord, rk), segs, k);
    assert |ByPos(ord, rk)| == |ord| by { ByPosSize(ord, rk); }
    ord' := SortStretch(ord, rk, h, segs[k]);
    SortedOneMore(ord, ord', rk, h, segs, k);
  }

  lemma SortedOneMore(ord: seq<nat>, ord': seq<nat>, rk: seq<nat>, h: nat, segs: seq<Seg>, k: nat)
    requires |ord'| == |ord| == |rk| && Below(ord, |rk|) && SegsInv(ByPos(ord, rk), segs) && k < |segs|
    requires (forall j :: 0 <= j < |segs| ==> segs[j].length > 0) && SortedUpTo(ord, rk, h, segs, k)
    requires SegSorted(KeysAhead(ord', rk, h), segs[k])
    requires forall p :: 0 <= p < |ord| && !InSeg(segs[k], p) ==> ord'[p] == ord[p]
    requires forall p :: InSeg(segs[k], p) ==> p < |ord'| && FromSeg(ord, segs[k], ord'[p])
    ensures Below(ord', |rk|) && ByPos(ord', rk) == ByPos(ord, rk) && SortedUpTo(ord', rk, h, segs, k + 1)
  {
    hide SegSorted, KeysAhead, SegsInv, ByPos, FromSeg;
    SegFits(ByPos(ord, rk), segs, k);
    ByPosSize(ord, rk);
    SortKeepsRanks(ord, ord', rk, segs[k]);
    forall j | 0 <= j < k ensures SegSorted(KeysAhead(ord', rk, h), segs[j]) {
      SortedElsewhere(ord, ord', rk, h, segs, j, k);
    }
  }

  lemma ByPosSize(ord: seq<nat>, rk: seq<nat>)
    requires Below(ord, |rk|)
    ensures |ByPos(ord, rk)| == |ord|
  {
  }

  lemma SegFits(R: seq<nat>, segs: seq<Seg>, k: nat)
    requires SegsInv(R, segs) && k < |segs| && segs[k].length > 0
    ensures segs[k].start + segs[k].length <= |R| && forall p :: InSeg(segs[k], p) ==> R[p] == segs[k].start + 1
  {
  }

  /** Sorting one segment leaves the keys of another. */
  lemma SortedElsewhere(before: seq<nat>, ord': seq<nat>, rk: seq<nat>, h: nat, segs: seq<Seg>, j: nat, k: nat)
    requires j < k < |segs| && |ord'| == |before| == |rk| && Below(before, |rk|) && Below(ord', |rk|)
    requires SegsInv(ByPos(before, rk), segs)
    requires forall p :: 0 <= p < |before| && !InSeg(segs[k], p) ==> ord'[p] == before[p]
    requires segs[j].length > 0 && segs[k].length > 0 && SegSorted(KeysAhead(before, rk, h), segs[j])
    ensures SegSorted(KeysAhead(ord', rk, h), segs[j])
  {
    SegFits(ByPos(before, rk), segs, j);
    assert forall p :: InSeg(segs[j], p) ==> !InSeg(segs[k], p);
    hide SegsInv, ByPos;
    assert forall p :: InSeg(segs[j], p) ==> KeysAhead(ord', rk, h)[p] == KeysAhead(before, rk, h)[p];
  }

  lemma SortKeepsRanks(ord: seq<nat>, ord': seq<nat>, rk: seq<nat>, g: Seg)
    requires |ord'| == |ord| && Below(ord, |rk|) && g.start + g.length <= |ord|
    requires forall p :: InSeg(g, p) ==> ByPos(ord, rk)[p] == g.start + 1
    requires forall p :: 0 <= p < |ord| && !InSeg(g, p) ==> ord'[p] == ord[p]
    requires forall p :: InSeg(g, p) ==> p < |ord'| && FromSeg(ord, g, ord'[p])
    ensures Below(ord', |rk|) && ByPos(ord', rk) == ByPos(ord, rk)
  {
  }

  // ---------- the second half of a round ----------

  method WriteRanks(ranks: array<nat>, ord: seq<nat>, start: nat, names: seq<nat>)
    requires Below(ord, ranks.Length) && Distinct(ord) && start + |names| <= |ord|
    modifies ranks
    ensures forall p :: 0 <= p < |ord| ==>
      ranks[ord[p]] == if start <= p < start + |names| then names[p - start] + start + 1 else old(ranks[ord[p]])
  {
    for i := 0 to |names|
      invariant forall p :: 0 <= p < |ord| ==>
        ranks[ord[p]] == if start <= p < start + i then names[p - start] + start + 1 else old(ranks[ord[p]])
    {
      ranks[ord[start + i]] := names[i] + start + 1;
    }
  }

  /** The ranks written for a segment name its runs. */
  lemma NamesGiveRanks(F: seq<nat>, R: seq<nat>, g: Seg, names: seq<nat>)
    requires |F| == |R| && g.start + g.length <= |F| && RunStarts(F[g.start..g.start + g.length], names)
    requires forall p :: InSeg(g, p) ==> R[p] == names[p - g.start] + g.start + 1
    ensures Named(F, R, g)
  {
    var keys := F[g.start..g.start + g.length];
    forall p | InSeg(g, p)
      ensures g.start + 1 <= R[p] <= p + 1
      ensures forall q :: R[p] - 1 <= q <= p ==> F[q] == F[p] && R[q] == R[p]
      ensures R[p] - 1 > g.start ==> F[R[p] - 2] != F[p]
    {
      var i := p - g.start;
      assert names[i] <= i && keys[i] == F[p];
      forall q | R[p] - 1 <= q <= p ensures F[q] == F[p] && R[q] == R[p] {
        var j := q - g.start;
        assert keys[j] == keys[i] && names[j] == names[i] && keys[j] == F[q];
      }
      assert names[i] > 0 ==> keys[names[i] - 1] == F[R[p] - 2];
    }
  }

  /** The segments of a segment's runs: whole runs of the new ranks, in order, covering it. */
  ghost predicate SplitOf(R: seq<nat>, g: Seg, segs: seq<Seg>) {
    && (forall k :: 0 <= k < |segs| && segs[k].length > 0 ==>
          && g.start <= segs[k].start && segs[k].start + segs[k].length <= g.start + g.length <= |R|
          && (forall p :: InSeg(segs[k], p) ==> R[p] == segs[k].start + 1)
          && (segs[k].start + segs[k].length < g.start + g.length ==>
                R[segs[k].start + segs[k].length] == segs[k].start + segs[k].length + 1))
    && (forall j, k :: 0 <= j < k < |segs| && segs[j].length > 0 && segs[k].length > 0 ==>
          segs[j].start + segs[j].length <= segs[k].start)
    && forall p :: InSeg(g, p) ==> InAny(segs, p)
  }

  lemma SegsOfSplits(keys: seq<nat>, names: seq<nat>, R: seq<nat>, g: Seg)
    requires |keys| == g.length && RunStarts(keys, names) && g.start + g.length <= |R|
    requires forall i :: 0 <= i < |names| ==> names[i] <= i
    requires forall p :: InSeg(g, p) ==> R[p] == names[p - g.start] + g.start + 1
    ensures SplitOf(R, g, SegsOf(names, g.start))
  {
    var segs := SegsOf(names, g.start);
    forall k | 0 <= k < |segs| && segs[k].length > 0
      ensures forall p :: InSeg(segs[k], p) ==> R[p] == segs[k].start + 1
      ensures segs[k].start + segs[k].length < g.start + g.length ==>
        R[segs[k].start + segs[k].length] == segs[k].start + segs[k].length + 1
    {
      SegOfRun(keys, names, R, g, k);
    }
    hide RunStarts, InAny;
    forall j, k | 0 <= j < k < |segs| && segs[j].length > 0 && segs[k].length > 0
      ensures segs[j].start + segs[j].length <= segs[k].start
    {
      RunEndsBefore(keys, names, j, k);
    }
    forall p | InSeg(g, p) ensures InAny(segs, p) {
      InRun(keys, names, g, p);
    }
  }

  lemma InRun(keys: seq<nat>, names: seq<nat>, g: Seg, p: int)
    requires |keys| == g.length && RunStarts(keys, names) && InSeg(g, p)
    requires forall i :: 0 <= i < |names| ==> names[i] <= i
    ensures InAny(SegsOf(names, g.start), p)
  {
    var e := RunEnd(keys, names, p - g.start);
    assert InSeg(SegsOf(names, g.start)[e], p);
  }

  /** A nonempty entry is the run that ends there. */
  lemma SegOfRun(keys: seq<nat>, names: seq<nat>, R: seq<nat>, g: Seg, k: nat)
    requires |keys| == g.length && RunStarts(keys, names) && g.start + g.length <= |R|
    requires forall i :: 0 <= i < |names| ==> names[i] <= i
    requires forall p :: InSeg(g, p) ==> R[p] == names[p - g.start] + g.start + 1
    requires k < |names| && SegsOf(names, g.start)[k].length > 0
    ensures
      var e := SegsOf(names, g.start)[k];
      && e.start + e.length <= |R| && (forall p :: InSeg(e, p) ==> InSeg(g, p) && R[p] == e.start + 1)
      && (e.start + e.length < g.start + g.length ==> R[e.start + e.length] == e.start + e.length + 1)
  {
    var e := SegsOf(names, g.start)[k];
    forall p | InSeg(e, p) ensures InSeg(g, p) && R[p] == e.start + 1 {
      assert names[p - g.start] == names[k];
    }
  }

  /** After the end of a run, names are past it. */
  lemma RunEndsBefore(keys: seq<nat>, names: seq<nat>, j: nat, k: nat)
    requires RunStarts(keys, names) && j < k < |keys| && names[j + 1] == j + 1
    ensures names[k] >= j + 1
  {
  }

  lemma RunEnd(keys: seq<nat>, names: seq<nat>, i: nat) returns (e: nat)
    requires RunStarts(keys, names) && i < |keys|
    ensures i <= e < |keys| && names[e] == names[i] && names[e] <= i && (e + 1 == |keys| || names[e + 1] == e + 1)
    decreases |keys| - i
  {
    e := i;
    while e + 1 < |keys| && names[e + 1] != e + 1
      invariant i <= e < |keys| && names[e] == names[i]
      decreases |keys| - e
    {
      assert names[e + 1] <= e ==> names[e] == names[e + 1];
      e := e + 1;
    }
  }

  /** The second half of a round: every segment is split into the runs of its keys, which become
      ranks.  A segment's ranks are written at its own suffixes only, and the keys were read before,
      so the segments may be split in any order or at once. */
  method SplitPhase(ranks: array<nat>, ord: seq<nat>, h: nat, segs: seq<Seg>) returns (outs: seq<Seg>)
    requires |ord| == ranks.Length && Below(ord, ranks.Length) && Distinct(ord)
    requires Grouped(ByPos(ord, ranks[..])) && SegsInv(ByPos(ord, ranks[..]), segs)
    requires forall k :: 0 <= k < |segs| ==> segs[k].length > 0 && SegSorted(KeysAhead(ord, ranks[..], h), segs[k])
    modifies ranks
    ensures Refines(ByPos(ord, old(ranks[..])), KeysAhead(ord, old(ranks[..]), h), ByPos(ord, ranks[..]), segs)
    ensures SegsInv(ByPos(ord, ranks[..]), outs)
  {
    ghost var R, F := ByPos(ord, ranks[..]), KeysAhead(ord, ranks[..], h);
    var rk := ranks[..];
    var ahead := seq(|ord|, p requires 0 <= p < |ord| => RankAt(rk, ord[p] + h));
    outs := [];
    for k := 0 to |segs|
      invariant Splitting(R, F, ByPos(ord, ranks[..]), segs, k, outs)
    {
      outs := SplitOne(R, F, ranks, ord, ahead, segs, k, outs);
    }
    SplittingEnds(R, F, ByPos(ord, ranks[..]), segs, outs);
  }

  /** Splits one segment. */
  method SplitOne(ghost R: seq<nat>, ghost F: seq<nat>, ranks: array<nat>, ord: seq<nat>, ahead: seq<nat>,
      segs: seq<Seg>, k: nat, outs: seq<Seg>)
    returns (outs': seq<Seg>)
    requires |ord| == ranks.Length && Below(ord, ranks.Length) && Distinct(ord) && ahead == F && k < |segs|
    requires Splitting(R, F, ByPos(ord, ranks[..]), segs, k, outs)
    modifies ranks
    ensures Splitting(R, F, ByPos(ord, ranks[..]), segs, k + 1, outs')
  {
    var g := segs[k];
    SegToSplit(R, F, ByPos(ord, ranks[..]), segs, k, outs);
    hide Splitting, RunStarts, Named, SplitOf;
    ghost var before := ByPos(ord, ranks[..]);
    var keys := ahead[g.start..g.start + g.length];
    var names, splits := SplitSegment(keys, g.start);
    NamesLength(keys, names);
    WriteRanks(ranks, ord, g.start, names);
    ghost var after := ByPos(ord, ranks[..]);
    assert forall p :: InSeg(g, p) ==> after[p] == names[p - g.start] + g.start + 1;
    assert forall p :: 0 <= p < |ord| && !InSeg(g, p) ==> after[p] == before[p];
    SegsOfSplits(keys, names, after, g);
    NamesGiveRanks(F, after, g, names);
    SplitsOneMore(R, F, before, after, segs, k, outs, splits);
    outs' := outs + splits;
  }

  lemma SegToSplit(R: seq<nat>, F: seq<nat>, R': seq<nat>, segs: seq<Seg>, k: nat, outs: seq<Seg>)
    requires Splitting(R, F, R', segs, k, outs) && k < |segs|
    ensures segs[k].length > 0 && segs[k].start + segs[k].length <= |R| == |F| == |R'| && SegSorted(F, segs[k])
  {
  }

  lemma NamesLength(keys: seq<nat>, names: seq<nat>)
    requires RunStarts(keys, names)
    ensures |names| == |keys|
  {
  }

  /** After k segments: those are named, their runs are listed, the rest is as before. */
  ghost predicate Splitting(R: seq<nat>, F: seq<nat>, R': seq<nat>, segs: seq<Seg>, k: nat, outs: seq<Seg>) {
    && k <= |segs| && |R| == |F| == |R'| && Grouped(R) && SegsInv(R, segs)
    && (forall j :: 0 <= j < |segs| ==> segs[j].length > 0 && SegSorted(F, segs[j]))
    && (forall j :: 0 <= j < k ==> Named(F, R', segs[j]))
    && (forall p :: 0 <= p < |R| && !InAny(segs[..k], p) ==> R'[p] == R[p])
    && Listed(R', segs, k, outs)
  }

  lemma InAnyPrefix(segs: seq<Seg>, k: nat, p: int)
    requires k < |segs|
    ensures InAny(segs[..k + 1], p) <==> InAny(segs[..k], p) || InSeg(segs[k], p)
  {
  }

  /** The segments before the k-th end where it starts or earlier. */
  lemma EarlierEndBefore(R: seq<nat>, segs: seq<Seg>, k: nat, p: int)
    requires SegsInv(R, segs) && k < |segs| && (forall j :: 0 <= j < |segs| ==> segs[j].length > 0)
      && InAny(segs[..k], p)
    ensures p < segs[k].start
  {
  }

  lemma NamedStays(F: seq<nat>, R: seq<nat>, R': seq<nat>, g: Seg)
    requires Named(F, R, g) && |R'| == |R| && forall p :: InSeg(g, p) ==> R'[p] == R[p]
    ensures Named(F, R', g)
  {
  }

  /** The entry is a whole run of R, as far as its end tells. */
  ghost predicate WholeRun(R: seq<nat>, e: Seg) {
    var x := e.start + e.length;
    x <= |R| && (forall p :: InSeg(e, p) ==> R[p] == e.start + 1) && (x < |R| ==> R[x] == x + 1)
  }

  ghost predicate Inside(segs: seq<Seg>, k: nat, e: Seg)
    requires k <= |segs|
  {
    forall p :: InSeg(e, p) ==> InAny(segs[..k], p)
  }

  ghost predicate InOrder(outs: seq<Seg>) {
    forall i, j :: 0 <= i < j < |outs| && outs[i].length > 0 && outs[j].length > 0 ==>
      outs[i].start + outs[i].length <= outs[j].start
  }

  /** The entries listed so far are whole runs of R' inside the first k segments. */
  ghost predicate Listed(R': seq<nat>, segs: seq<Seg>, k: nat, outs: seq<Seg>)
    requires k <= |segs|
  {
    && (forall i :: 0 <= i < |outs| && outs[i].length > 0 ==> WholeRun(R', outs[i]) && Inside(segs, k, outs[i]))
    && InOrder(outs) && forall p :: 0 <= p < |R'| && InAny(segs[..k], p) ==> InAny(outs, p)
  }

  lemma NamedOneMore(R: seq<nat>, F: seq<nat>, before: seq<nat>, after: seq<nat>, segs: seq<Seg>, k: nat,
      outs: seq<Seg>)
    requires Splitting(R, F, before, segs, k, outs) && k < |segs| && |after| == |R|
    requires Named(F, after, segs[k])
    requires forall p :: 0 <= p < |R| && !InSeg(segs[k], p) ==> after[p] == before[p]
    ensures forall j :: 0 <= j < k + 1 ==> Named(F, after, segs[j])
    ensures forall p :: 0 <= p < |R| && !InAny(segs[..k + 1], p) ==> after[p] == R[p]
  {
    hide Listed, Named, Grouped, SegSorted;
    forall j | 0 <= j < k ensures Named(F, after, segs[j]) {
      assert Named(F, before, segs[j]);
      assert forall p :: InSeg(segs[j], p) ==> !InSeg(segs[k], p);
      NamedFits(F, before, segs[j]);
      NamedStays(F, before, after, segs[j]);
    }
    forall p | 0 <= p < |R| && !InAny(segs[..k + 1], p) ensures after[p] == R[p] {
      InAnyPrefix(segs, k, p);
    }
  }

  lemma NamedFits(F: seq<nat>, R: seq<nat>, g: Seg)
    requires Named(F, R, g)
    ensures g.start + g.length <= |R| == |F|
  {
  }

  lemma EntriesOneMore(R: seq<nat>, F: seq<nat>, before: seq<nat>, after: seq<nat>, segs: seq<Seg>, k: nat,
      outs: seq<Seg>, splits: seq<Seg>, i: nat)
    requires Splitting(R, F, before, segs, k, outs) && k < |segs| && |after| == |R|
    requires Named(F, after, segs[k]) && SplitOf(after, segs[k], splits)
    requires forall p :: 0 <= p < |R| && !InSeg(segs[k], p) ==> after[p] == before[p]
    requires i < |outs + splits| && (outs + splits)[i].length > 0
    ensures WholeRun(after, (outs + splits)[i]) && Inside(segs, k + 1, (outs + splits)[i])
  {
    hide Splitting, Named, SplitOf, InAny, WholeRun, Inside;
    if i < |outs| {
      OldEntryStays(R, F, before, after, segs, k, outs, i);
    } else {
      NewEntryIsRun(R, F, before, after, segs, k, outs, splits, i - |outs|);
    }
  }

  lemma OrderOneMore(R: seq<nat>, F: seq<nat>, before: seq<nat>, after: seq<nat>, segs: seq<Seg>, k: nat,
      outs: seq<Seg>, splits: seq<Seg>, i: nat, j: nat)
    requires Splitting(R, F, before, segs, k, outs) && k < |segs| && |after| == |R|
    requires Named(F, after, segs[k]) && SplitOf(after, segs[k], splits)
    requires forall p :: 0 <= p < |R| && !InSeg(segs[k], p) ==> after[p] == before[p]
    requires i < j < |outs + splits| && (outs + splits)[i].length > 0 && (outs + splits)[j].length > 0
    ensures (outs + splits)[i].start + (outs + splits)[i].length <= (outs + splits)[j].start
  {
    hide Splitting, Named, SplitOf, InAny, WholeRun, Inside, InSeg;
    OrdersKept(R, F, before, after, segs, k, outs, splits);
    if i < |outs| <= j {
      OldEntryStays(R, F, before, after, segs, k, outs, i);
      NewEntryIsRun(R, F, before, after, segs, k, outs, splits, j - |outs|);
    } else if i >= |outs| {
      assert (outs + splits)[i] == splits[i - |outs|] && (outs + splits)[j] == splits[j - |outs|];
    }
  }

  lemma ListedOneMore(R: seq<nat>, F: seq<nat>, before: seq<nat>, after: seq<nat>, segs: seq<Seg>, k: nat,
      outs: seq<Seg>, splits: seq<Seg>)
    requires Splitting(R, F, before, segs, k, outs) && k < |segs| && |after| == |R|
    requires Named(F, after, segs[k]) && SplitOf(after, segs[k], splits)
    requires forall p :: 0 <= p < |R| && !InSeg(segs[k], p) ==> after[p] == before[p]
    ensures Listed(after, segs, k + 1, outs + splits)
  {
    var outs' := outs + splits;
    OrdersKept(R, F, before, after, segs, k, outs, splits);
    hide Splitting, Named, SplitOf, InAny, WholeRun, Inside;
    forall i | 0 <= i < |outs'| && outs'[i].length > 0
      ensures WholeRun(after, outs'[i]) && Inside(segs, k + 1, outs'[i])
    {
      EntriesOneMore(R, F, before, after, segs, k, outs, splits, i);
    }
    forall p | 0 <= p < |after| && InAny(segs[..k + 1], p) ensures InAny(outs', p) {
      InAnyPrefix(segs, k, p);
      InAnyConcat(outs, splits, p);
    }
    forall i, j | 0 <= i < j < |outs'| && outs'[i].length > 0 && outs'[j].length > 0
      ensures outs'[i].start + outs'[i].length <= outs'[j].start
    {
      OrderOneMore(R, F, before, after, segs, k, outs, splits, i, j);
    }
  }

  /** What both lists say before they are joined. */
  lemma OrdersKept(R: seq<nat>, F: seq<nat>, before: seq<nat>, after: seq<nat>, segs: seq<Seg>, k: nat, outs: seq<Seg>,
      splits: seq<Seg>)
    requires Splitting(R, F, before, segs, k, outs) && k < |segs| && SplitOf(after, segs[k], splits)
    ensures InOrder(outs) && InOrder(splits)
    ensures forall p :: 0 <= p < |R| && InAny(segs[..k], p) ==> InAny(outs, p)
    ensures forall p :: InSeg(segs[k], p) ==> InAny(splits, p)
  {
  }

  lemma OldEntryStays(R: seq<nat>, F: seq<nat>, before: seq<nat>, after: seq<nat>, segs: seq<Seg>, k: nat,
      outs: seq<Seg>, i: nat)
    requires Splitting(R, F, before, segs, k, outs) && k < |segs| && |after| == |R| && Named(F, after, segs[k])
    requires forall p :: 0 <= p < |R| && !InSeg(segs[k], p) ==> after[p] == before[p]
    requires i < |outs| && outs[i].length > 0
    ensures outs[i].start + outs[i].length <= segs[k].start < |R|
    ensures WholeRun(after, outs[i]) && Inside(segs, k + 1, outs[i])
  {
    hide Grouped, SegSorted, InAny;
    var g, x := segs[k], outs[i].start + outs[i].length;
    assert WholeRun(before, outs[i]) && Inside(segs, k, outs[i]);
    forall p | InSeg(outs[i], p) ensures p < g.start && InAny(segs[..k + 1], p) {
      EarlierEndBefore(R, segs, k, p);
      InAnyPrefix(segs, k, p);
    }
    assert InSeg(outs[i], x - 1);
    assert InSeg(g, g.start);
  }

  lemma NewEntryIsRun(R: seq<nat>, F: seq<nat>, before: seq<nat>, after: seq<nat>, segs: seq<Seg>, k: nat,
      outs: seq<Seg>, splits: seq<Seg>, i: nat)
    requires Splitting(R, F, before, segs, k, outs) && k < |segs| && |after| == |R|
    requires SplitOf(after, segs[k], splits) && i < |splits| && splits[i].length > 0
    requires forall p :: 0 <= p < |R| && !InSeg(segs[k], p) ==> after[p] == before[p]
    ensures segs[k].start <= splits[i].start
    ensures WholeRun(after, splits[i]) && Inside(segs, k + 1, splits[i])
  {
    hide Grouped, SegSorted, Named, Listed, InAny;
    var g, x := segs[k], splits[i].start + splits[i].length;
    forall p | InSeg(splits[i], p) ensures InAny(segs[..k + 1], p) {
      InAnyPrefix(segs, k, p);
    }
    if x == g.start + g.length && x < |R| {
      forall p | InAny(segs[..k], p) ensures p < g.start {
        EarlierEndBefore(R, segs, k, p);
      }
      assert before[x] == R[x];
    }
  }

  lemma SplitsOneMore(R: seq<nat>, F: seq<nat>, before: seq<nat>, after: seq<nat>, segs: seq<Seg>, k: nat,
      outs: seq<Seg>, splits: seq<Seg>)
    requires Splitting(R, F, before, segs, k, outs) && k < |segs| && |after| == |R|
    requires Named(F, after, segs[k]) && SplitOf(after, segs[k], splits)
    requires forall p :: 0 <= p < |R| && !InSeg(segs[k], p) ==> after[p] == before[p]
    ensures Splitting(R, F, after, segs, k + 1, outs + splits)
  {
    hide Listed, Named, SegsInv, SplitOf, SegSorted, Grouped;
    NamedOneMore(R, F, before, after, segs, k, outs);
    ListedOneMore(R, F, before, after, segs, k, outs, splits);
  }

  lemma InAnyConcat(a: seq<Seg>, b: seq<Seg>, p: int)
    ensures InAny(a + b, p) <==> InAny(a, p) || InAny(b, p)
  {
    assert forall i :: 0 <= i < |a| ==> (a + b)[i] == a[i];
    assert forall i :: 0 <= i < |b| ==> (a + b)[|a| + i] == b[i];
    if k :| 0 <= k < |a + b| && InSeg((a + b)[k], p) {
      assert if k < |a| then InSeg(a[k], p) else InSeg(b[k - |a|], p);
    }
  }

  lemma SplittingEnds(R: seq<nat>, F: seq<nat>, R': seq<nat>, segs: seq<Seg>, outs: seq<Seg>)
    requires Splitting(R, F, R', segs, |segs|, outs)
    ensures Refines(R, F, R', segs) && SegsInv(R', outs)
  {
    assert segs[..|segs|] == segs;
    forall p | 0 <= p < |R'| ensures InAny(outs, p) || Alone(R', p) {
      if !InAny(segs, p) && p + 1 < |R| && InAny(segs, p + 1) {
        var k :| 0 <= k < |segs| && InSeg(segs[k], p + 1);
        assert Named(F, R', segs[k]);
      }
    }
  }

  // ---------- the first sort, on packed words ----------

  const LOW: nat := 0x1_0000_0000

  function Word(t: seq<nat>, m: nat, nchars: nat, i: nat): nat {
    Pack(t, i, m, nchars) * LOW + i
  }

  /** The sorted words name each suffix once, in order of their first nchars characters. */
  method SortWords(t: seq<nat>, m: nat, nchars: nat) returns (ord: seq<nat>, keys: seq<nat>)
    requires |t| <= LOW
    ensures |ord| == |keys| == |t| && Below(ord, |t|) && Distinct(ord)
    ensures forall p :: 0 <= p < |t| ==> keys[p] == Pack(t, ord[p], m, nchars)
    ensures forall p, q :: 0 <= p <= q < |t| ==> keys[p] <= keys[q]
  {
    var words: seq<int> := seq(|t|, i requires 0 <= i < |t| => Word(t, m, nchars, i));
    var sorted := Sort(words, (a, b) => a <= b);
    SameMembers(sorted, words);
    forall p | 0 <= p < |t| ensures sorted[p] >= 0 {
      assert sorted[p] in words;
    }
    ord := seq(|t|, p requires 0 <= p < |t| => sorted[p] % LOW);
    keys := seq(|t|, p requires 0 <= p < |t| => sorted[p] / LOW);
    forall p | 0 <= p < |t|
      ensures ord[p] < |t| && keys[p] == Pack(t, ord[p], m, nchars) && sorted[p] == words[ord[p]]
    {
      assert sorted[p] in words;
      var i :| 0 <= i < |t| && words[i] == sorted[p];
      Unpack(Pack(t, i, m, nchars), i);
    }
    WordsDistinct(t, m, nchars, words);
    StaysDistinct(words, sorted);
    forall p, q | 0 <= p <= q < |t| ensures keys[p] <= keys[q] {
      DivMonotone(sorted[p], sorted[q]);
    }
  }

  lemma Unpack(key: nat, i: nat)
    requires i < LOW
    ensures (key * LOW + i) % LOW == i && (key * LOW + i) / LOW == key
  {
  }

  lemma DivMonotone(a: nat, b: nat)
    requires a <= b
    ensures a / LOW <= b / LOW
  {
  }

  lemma WordsDistinct(t: seq<nat>, m: nat, nchars: nat, words: seq<int>)
    requires |t| <= LOW && words == seq(|t|, i requires 0 <= i < |t| => Word(t, m, nchars, i))
    ensures forall i, j :: 0 <= i < j < |words| ==> words[i] != words[j]
  {
  }

  /** split_segment_top: the ranks and segments by the packed words. */
  method SplitTop(t: seq<nat>, m: nat, nchars: nat, ord: seq<nat>, keys: seq<nat>)
    returns (ranks: array<nat>, segs: seq<Seg>)
    requires t != [] && |ord| == |keys| == |t| && Below(ord, |t|) && Distinct(ord)
    requires m > 0 && forall x :: 0 <= x < |t| ==> t[x] < m
    requires forall p :: 0 <= p < |t| ==> keys[p] == Pack(t, ord[p], m, nchars)
    requires forall p, q :: 0 <= p <= q < |t| ==> keys[p] <= keys[q]
    ensures fresh(ranks) && ranks.Length == |t|
    ensures Grouped(ByPos(ord, ranks[..])) && SegsInv(ByPos(ord, ranks[..]), segs)
    ensures RanksPack(t, nchars, ranks[..])
  {
    hide RunStarts, Pack, MaxScan, Marks, Grouped, SegsInv, RanksPack, ByPos, Distinct;
    var names := MaxScan(Marks(keys));
    ScanNames(keys);
    ranks := new nat[|t|](_ => 0);
    WriteRanks(ranks, ord, 0, names);
    segs := SegsOf(names, 0);
    TopInv(t, m, nchars, ord, keys, names, ranks[..]);
  }

  lemma ScanNames(keys: seq<nat>)
    requires keys != []
    ensures
      var names := MaxScan(Marks(keys));
      RunStarts(keys, names) && |names| == |keys| && forall i :: 0 <= i < |names| ==> names[i] <= i
  {
    hide RunStarts;
    var names := MaxScan(Marks(keys));
    ScanGivesRunStarts(keys, Marks(keys), |keys| - 1);
    assert keys[..|keys|] == keys && names[..|keys|] == names;
    forall i | 0 <= i < |keys| ensures names[i] <= i {
      NamesBelow(keys, names, i);
    }
  }

  lemma TopInv(t: seq<nat>, m: nat, nchars: nat, ord: seq<nat>, keys: seq<nat>, names: seq<nat>, rk: seq<nat>)
    requires |ord| == |keys| == |t| == |rk| == |names| && Below(ord, |t|) && Distinct(ord)
    requires m > 0 && forall x :: 0 <= x < |t| ==> t[x] < m
    requires forall p :: 0 <= p < |t| ==> keys[p] == Pack(t, ord[p], m, nchars)
    requires forall p, q :: 0 <= p <= q < |t| ==> keys[p] <= keys[q]
    requires RunStarts(keys, names) && forall i :: 0 <= i < |names| ==> names[i] <= i
    requires forall p :: 0 <= p < |ord| ==> rk[ord[p]] == names[p] + 1
    ensures Grouped(ByPos(ord, rk)) && SegsInv(ByPos(ord, rk), SegsOf(names, 0)) && RanksPack(t, nchars, rk)
  {
    hide RunStarts, Pack, Grouped, SegsInv, RanksPack;
    TopRanks(t, m, nchars, ord, keys, names, rk);
    TopSegs(keys, names, ByPos(ord, rk));
  }

  lemma TopSegs(keys: seq<nat>, names: seq<nat>, R: seq<nat>)
    requires RunStarts(keys, names) && |R| == |keys|
      && forall p :: 0 <= p < |R| ==> names[p] <= p && R[p] == names[p] + 1
    ensures |names| == |R| && Grouped(R) && SegsInv(R, SegsOf(names, 0))
  {
    TopGrouped(keys, names, R);
    var g := Seg(0, |R|);
    SegsOfSplits(keys, names, R, g);
    assert forall p :: 0 <= p < |R| ==> InSeg(g, p);
    assert forall p :: InSeg(g, p) ==> 0 <= p < |R|;
  }

  lemma TopRanks(t: seq<nat>, m: nat, nchars: nat, ord: seq<nat>, keys: seq<nat>, names: seq<nat>, rk: seq<nat>)
    requires |ord| == |keys| == |t| == |rk| && Below(ord, |t|) && Distinct(ord)
    requires m > 0 && forall x :: 0 <= x < |t| ==> t[x] < m
    requires forall p :: 0 <= p < |t| ==> keys[p] == Pack(t, ord[p], m, nchars)
    requires forall p, q :: 0 <= p <= q < |t| ==> keys[p] <= keys[q]
    requires RunStarts(keys, names) && forall p :: 0 <= p < |t| ==> rk[ord[p]] == names[p] + 1
    ensures RanksPack(t, nchars, rk)
  {
    hide RunStarts, Pack, Equal, Less;
    var pos := InverseOf(ord);
    forall a, b | 0 <= a < |t| && 0 <= b < |t|
      ensures rk[a] == rk[b] ==> Equal(t, a, b, nchars)
      ensures rk[a] < rk[b] ==> Less(t, a, b, nchars)
    {
      PackOrder(t, a, b, m, nchars);
      TopCompare(keys, names, pos[a], pos[b]);
    }
  }

  lemma TopGrouped(keys: seq<nat>, names: seq<nat>, R: seq<nat>)
    requires RunStarts(keys, names) && |R| == |keys| && forall p :: 0 <= p < |R| ==> R[p] == names[p] + 1
    ensures Grouped(R)
  {
  }

  lemma RunContains(keys: seq<nat>, names: seq<nat>, p: nat, q: nat)
    requires RunStarts(keys, names) && p < |keys| && q < |keys|
    ensures names[q] <= p <= q ==> names[p] == names[q]
  {
  }

  lemma TopCompare(keys: seq<nat>, names: seq<nat>, p: nat, q: nat)
    requires RunStarts(keys, names) && p < |keys| && q < |keys|
    requires forall i, j :: 0 <= i <= j < |keys| ==> keys[i] <= keys[j]
    ensures |names| == |keys|
    ensures names[p] == names[q] ==> keys[p] == keys[q]
    ensures names[p] < names[q] ==> keys[p] < keys[q]
  {
    if names[p] < names[q] {
      RunContains(keys, names, p, q);
      RunContains(keys, names, q, p);
      assert keys[p] <= keys[names[q] - 1] <= keys[q];
    } else if names[p] == names[q] {
      assert keys[names[p]] == keys[p] && keys[names[q]] == keys[q];
    }
  }

  // ---------- the rounds ----------

  /** Only the segments longer than 1 are kept. */
  method KeepLong(segOuts: seq<Seg>, ghost R: seq<nat>) returns (segs: seq<Seg>)
    requires SegsInv(R, segOuts)
    ensures SegsInv(R, segs) && forall k :: 0 <= k < |segs| ==> segs[k].length > 1
  {
    hide SegsInv;
    segs := [];
    ghost var from: seq<nat> := [];
    for i := 0 to |segOuts|
      invariant Kept(segOuts, i, segs, from)
    {
      if segOuts[i].length > 1 {
        segs, from := segs + [segOuts[i]], from + [i];
      }
    }
    KeptIsEnough(R, segOuts, segs, from);
  }

  /** segs are the long entries among the first i, from[k] telling where the k-th came from. */
  ghost predicate Kept(segOuts: seq<Seg>, i: nat, segs: seq<Seg>, from: seq<nat>) {
    && i <= |segOuts| && |from| == |segs|
    && (forall k :: 0 <= k < |segs| ==> segs[k].length > 1 && from[k] < i && segs[k] == segOuts[from[k]])
    && (forall j, k :: 0 <= j < k < |segs| ==> from[j] < from[k])
    && forall j :: 0 <= j < i && segOuts[j].length > 1 ==> segOuts[j] in segs
  }

  lemma KeptIsEnough(R: seq<nat>, segOuts: seq<Seg>, segs: seq<Seg>, from: seq<nat>)
    requires SegsInv(R, segOuts) && Kept(segOuts, |segOuts|, segs, from)
    ensures SegsInv(R, segs)
  {
  }

  lemma Pow2Of32()
    ensures Pow2(32) == LOW
  {
    assert Pow2(8) == 256;
    assert Pow2(16) == 65536;
    assert Pow2(24) == 16777216;
  }

  /** Segments are left only while two suffixes agree on as many characters as are compared. */
  lemma SegsMeanShort(t: seq<nat>, h: nat, ord: seq<nat>, rk: seq<nat>, segs: seq<Seg>)
    requires |ord| == |rk| == |t| && Below(ord, |t|) && Distinct(ord) && !EndsInZeros(t)
    requires SegsInv(ByPos(ord, rk), segs) && segs != [] && segs[0].length > 1
    requires RanksCompare(t, h, rk)
    ensures h < |t|
  {
    var g, R := segs[0], ByPos(ord, rk);
    assert InSeg(g, g.start) && InSeg(g, g.start + 1);
    assert R[g.start] == R[g.start + 1];
    var a, b := ord[g.start], ord[g.start + 1];
    assert Equal(t, a, b, h) && Equal(t, b, a, h);
    if h >= |t| {
      EqualMeansSame(t, if a < b then a else b, if a < b then b else a, h);
    }
  }

  /** With no segment left the ranks are the positions. */
  lemma ResolvedIsSorted(t: seq<nat>, h: nat, ord: seq<nat>, rk: seq<nat>)
    requires |ord| == |rk| == |t| && Below(ord, |t|)
    requires SegsInv(ByPos(ord, rk), []) && RanksCompare(t, h, rk)
    ensures IsSuffixArray(t, ord)
  {
    forall k, m | 0 <= k < m < |ord| ensures SuffixLess(t, ord[k], ord[m]) {
      assert Alone(ByPos(ord, rk), k) && Alone(ByPos(ord, rk), m);
    }
  }

  /** When byte 255 is renumbered below byte 0, the order that comes out is not that of the suffixes. */
  lemma WrappedIsNotSorted(ss: seq<nat>, ord: seq<nat>)
    requires AllBytes(ss) && IsSuffixArray(Renumbered(ss), ord)
    ensures !IsSuffixArray(ss, ord)
  {
    var t := Renumbered(ss);
    RenumberWraps(ss);
    SuffixArrayDistinct(t, ord);
    DistinctCovers(ord, |ss|);
    assert 255 in ss && 0 in ss;
    var x :| 0 <= x < |ss| && ss[x] == 255;
    var y :| 0 <= y < |ss| && ss[y] == 0;
    assert x in ord && y in ord;
    var p :| 0 <= p < |ord| && ord[p] == x;
    var q :| 0 <= q < |ord| && ord[q] == y;
    assert SmallerAt(t, x, y, 0) && SmallerAt(ss, y, x, 0);
    OrderIsRank(t, ord, p, q);
    if IsSuffixArray(ss, ord) {
      OrderIsRank(ss, ord, q, p);
    }
  }

  predicate EndsIn255s(ss: seq<nat>) {
    |ss| >= 2 && ss[|ss| - 1] == 255 && ss[|ss| - 2] == 255
  }

  /** The renumbered string ends in zeros only if all byte values occur and the last two are 255. */
  lemma ZerosAre255s(ss: seq<nat>)
    requires Bytes(ss)
    ensures EndsInZeros(Renumbered(ss)) <==> AllBytes(ss) && EndsIn255s(ss)
  {
    if AllBytes(ss) {
      RenumberWraps(ss);
      assert 0 in ss && 1 in ss;
    } else {
      RenumberKeepsOrder(ss);
    }
  }

  /** After `round` rounds the offset has doubled that often, and the last doubling was needed. */
  ghost predicate Doubled(t: seq<nat>, nchars: nat, offset: nat, round: nat) {
    offset == nchars * Pow2(round) && (!EndsInZeros(t) && round > 0 ==> Pow2(round - 1) < |t|)
  }

  lemma DoubledAgain(t: seq<nat>, nchars: nat, offset: nat, round: nat)
    requires Doubled(t, nchars, offset, round) && nchars > 0 && (!EndsInZeros(t) ==> offset < |t|)
    ensures Doubled(t, nchars, 2 * offset, round + 1)
  {
  }

  lemma DoublingEnds(t: seq<nat>, nchars: nat, offset: nat, round: nat)
    requires Doubled(t, nchars, offset, round) && round > 40 && |t| <= LOW
    ensures EndsInZeros(t)
  {
    Pow2Of32();
    Pow2Grows(32, round - 1);
  }

  datatype Outcome = TooManyRounds | Sorted(sa: seq<nat>)

  /** The rounds, from the first split on.  More than 40 of them is an internal error. */
  method Rounds(t: seq<nat>, nchars: nat, start: seq<nat>, ranks: array<nat>, outs: seq<Seg>) returns (r: Outcome)
    requires nchars >= 2 && 0 < |t| <= LOW && |start| == ranks.Length == |t|
    requires Below(start, |t|) && Distinct(start)
    requires Grouped(ByPos(start, ranks[..])) && SegsInv(ByPos(start, ranks[..]), outs)
    requires RanksPack(t, nchars, ranks[..])
    modifies ranks
    ensures r.Sorted? ==> IsSuffixArray(t, r.sa)
    ensures r.TooManyRounds? <==> EndsInZeros(t)
  {
    PackCompares(t, nchars, ranks[..]);
    if EndsInZeros(t) {
      TiedAtFirst(t, nchars, ranks[..]);
    }
    hide Grouped, SegsInv, RanksCompare, RanksPack, SegSorted, IsSuffixArray, Refines, KeysAhead, ByPos, Equal, Less,
      LessAt, Alone, InSeg, EndsInZeros, Tied;
    var C, segOuts := start, outs;
    var offset, round := nchars, 0;
    assert Doubled(t, nchars, offset, round);
    hide Doubled;
    while true
      invariant |C| == ranks.Length == |t| && Below(C, |t|) && Distinct(C)
      invariant Grouped(ByPos(C, ranks[..])) && SegsInv(ByPos(C, ranks[..]), segOuts)
      invariant RanksCompare(t, offset, ranks[..])
      invariant EndsInZeros(t) ==> Tied(ranks[..])
      invariant 0 <= round <= 41 && offset >= 2 && Doubled(t, nchars, offset, round)
      decreases 41 - round
    {
      if round > 40 {
        DoublingEnds(t, nchars, offset, round);
        return TooManyRounds;
      }
      round := round + 1;
      var segs := KeepLong(segOuts, ByPos(C, ranks[..]));
      if segs == [] {
        break;
      }
      if !EndsInZeros(t) {
        SegsMeanShort(t, offset, C, ranks[..], segs);
      }
      DoubledAgain(t, nchars, offset, round - 1);
      var D;
      D, segOuts := OneRound(t, C, ranks, segs, offset);
      C, offset := D, 2 * offset;
    }
    r := Sorted(C);
    ResolvedIsSorted(t, offset, C, ranks[..]);
    if EndsInZeros(t) {
      TieIsOpen(C, ranks[..]);
    }
  }

  /** Sorts every open segment by the ranks ahead, and splits it. */
  method OneRound(t: seq<nat>, C: seq<nat>, ranks: array<nat>, segs: seq<Seg>, offset: nat)
    returns (D: seq<nat>, segOuts: seq<Seg>)
    requires |C| == ranks.Length == |t| && Below(C, |t|) && Distinct(C) && offset >= 2
    requires Grouped(ByPos(C, ranks[..])) && SegsInv(ByPos(C, ranks[..]), segs)
    requires forall k :: 0 <= k < |segs| ==> segs[k].length > 0
    requires RanksCompare(t, offset, ranks[..])
    modifies ranks
    ensures |D| == ranks.Length && Below(D, |t|) && Distinct(D)
    ensures Grouped(ByPos(D, ranks[..])) && SegsInv(ByPos(D, ranks[..]), segOuts)
    ensures RanksCompare(t, 2 * offset, ranks[..])
    ensures old(Tied(ranks[..])) ==> Tied(ranks[..])
  {
    hide Grouped, SegsInv, RanksCompare, SegSorted, Refines, KeysAhead, Tied;
    ghost var rk := ranks[..];
    D := SortPhase(C, ranks[..], offset, segs);
    StaysDistinct(C, D);
    segOuts := SplitPhase(ranks, D, offset, segs);
    ghost var pos := InverseOf(D);
    RefinedIsGrouped(ByPos(D, rk), KeysAhead(D, rk, offset), ByPos(D, ranks[..]), segs);
    RoundDoubles(t, offset, D, pos, rk, ranks[..], segs);
    if Tied(rk) {
      TieStays(offset, D, pos, rk, ranks[..], segs);
    }
  }

  lemma SquareFits(m: nat)
    requires m <= 257
    ensures m * m <= 66049
  {
    assert m * m <= 257 * m;
  }

  /** At least two characters are packed. */
  lemma WidthIsTwo(ss: seq<nat>)
    ensures var m := 1 + PresentBelow(ss, 256); m >= 2 ==> PackWidth(m, 1, m) >= 2
  {
    PresentGrows(ss, 0, 256);
    var m := 1 + PresentBelow(ss, 256);
    hide PresentBelow;
    SquareFits(m);
    if m >= 2 {
      assert PackWidth(m, 1, m) == PackWidth(m, 2, m * m);
    }
  }

  /** The suffix array of a nonempty string of at most 2^32 bytes: the suffix order of the renumbered
      string, right exactly when some byte value does not occur.  Two trailing 255s that stand for the
      padding are never told apart. */
  method SuffixArrayOf(ss: seq<nat>) returns (r: Outcome)
    requires Bytes(ss) && 0 < |ss| <= LOW
    ensures r.Sorted? ==> IsSuffixArray(Renumbered(ss), r.sa)
    ensures r.TooManyRounds? <==> AllBytes(ss) && EndsIn255s(ss)
    ensures r.Sorted? && IsSuffixArray(ss, r.sa) <==> !AllBytes(ss)
  {
    hide Grouped, SegsInv, RanksPack, SameOrder, IsSuffixArray, Pack, EndsInZeros, AllBytes;
    var m := 1 + PresentBelow(ss, 256);
    RenumberedBelow(ss);
    var t := Renumbered(ss);
    WidthIsTwo(ss);
    var nchars := PackWidth(m, 1, m);
    var C, keys := SortWords(t, m, nchars);
    var ranks, segOuts := SplitTop(t, m, nchars, C, keys);
    r := Rounds(t, nchars, C, ranks, segOuts);
    ZerosAre255s(ss);
    if !AllBytes(ss) {
      RenumberKeepsOrder(ss);
      OrderCarries(ss, t, r.sa);
    } else if r.Sorted? {
      WrappedIsNotSorted(ss, r.sa);
    }
  }
}
