/** The Burrows-Wheeler transform, and its decoder by list ranking from random heads.  What the decoder
    reads from any string, and that it reads a text exactly from the text's transform. */
module BurrowsWheeler {
  import opened Options
  import opened Schedule
  import opened Sorting
  import opened Permutations
  import opened Suffixes
  import SuffixArray

  // ---------- the transform ----------

  /** The string with a null character in front. */
  function Padded(s: seq<nat>): seq<nat> {
    [0] + s
  }

  /** The next position, around the end. */
  function Succ(p: nat, n: nat): nat {
    if p + 1 < n then p + 1 else 0
  }

  function Pred(p: nat, n: nat): nat
    requires n > 0
  {
    if p == 0 then n - 1 else p - 1
  }

  /** The character before each suffix, in the order of the suffixes. */
  function Transform(ss: seq<nat>, sa: seq<nat>): seq<nat>
    requires |sa| == |ss| > 0 && Below(sa, |ss|)
  {
    seq(|sa|, i requires 0 <= i < |sa| => ss[Pred(sa[i], |ss|)])
  }

  ghost predicate TextBytes(s: seq<nat>) {
    forall i :: 0 <= i < |s| ==> 0 < s[i] < 256
  }

  /** Some suffix order of the padded string gives b. */
  ghost predicate Encodes(s: seq<nat>, sa: seq<nat>, b: seq<nat>) {
    IsSuffixArray(Padded(s), sa) && b == Transform(Padded(s), sa)
  }

  ghost predicate IsTransform(s: seq<nat>, b: seq<nat>) {
    exists sa :: Encodes(s, sa, b)
  }

  /** The string that the suffix array sorts: with its characters in the same order unless all byte values
      occur, and then with byte 255 below the others. */
  function Renumbered(s: seq<nat>): seq<nat> {
    SuffixArray.Renumbered(Padded(s))
  }

  /** The text on which the suffix array is not computed at all. */
  predicate NeverSorted(s: seq<nat>) {
    SuffixArray.AllBytes(Padded(s)) && SuffixArray.EndsIn255s(Padded(s))
  }

  /** The transform by the suffix order of the renumbered string, right or not. */
  method Encode(s: seq<nat>) returns (b: Option<seq<nat>>, ghost sa: seq<nat>)
    requires (forall i :: 0 <= i < |s| ==> s[i] < 256) && |s| < SuffixArray.LOW
    ensures b.None? <==> NeverSorted(s)
    ensures b.Some? ==> IsSuffixArray(Renumbered(s), sa) && b.value == Transform(Padded(s), sa)
    ensures !SuffixArray.AllBytes(Padded(s)) ==> b.Some? && Encodes(s, sa, b.value) && IsTransform(s, b.value)
  {
    var ss := Padded(s);
    var r := SuffixArray.SuffixArrayOf(ss);
    match r {
      case TooManyRounds => b, sa := None, [];
      case Sorted(order) => b, sa := Some(Transform(ss, order)), order;
    }
    assert !SuffixArray.AllBytes(ss) ==> b.Some? && Encodes(s, sa, b.value);
  }

  /** The transform lists all characters, the null among them. */
  lemma TransformHasNull(s: seq<nat>, sa: seq<nat>)
    requires |sa| == |s| + 1 && Below(sa, |sa|) && Distinct(sa)
    ensures |Transform(Padded(s), sa)| == |s| + 1 && 0 in Transform(Padded(s), sa)
  {
    var n, b := |sa|, Transform(Padded(s), sa);
    DistinctCovers(sa, n);
    var p := Succ(0, n);
    assert p in sa;
    var i :| 0 <= i < n && sa[i] == p;
    assert b[i] == Padded(s)[0];
  }

  // ---------- the links ----------

  datatype Link = Link(next: nat, c: nat)

  predicate NotAfter(x: Link, y: Link) {
    x.c < y.c || (x.c == y.c && x.next <= y.next)
  }

  /** The positions of b in the order of their characters, equal ones by position. */
  ghost predicate Before(b: seq<nat>, i: nat, j: nat) {
    i < |b| && j < |b| && (b[i] < b[j] || (b[i] == b[j] && i < j))
  }

  ghost predicate Ordered(b: seq<nat>, f: seq<nat>) {
    |f| == |b| && Below(f, |b|) && forall k, m :: 0 <= k < m < |f| ==> Before(b, f[k], f[m])
  }

  /** Only one sequence lists the positions in that order. */
  lemma {:induction false} OrderIsUnique(b: seq<nat>, f: seq<nat>, g: seq<nat>, k: nat)
    requires Ordered(b, f) && Ordered(b, g) && k <= |b|
    ensures f[..k] == g[..k]
  {
    if k > 0 {
      OrderIsUnique(b, f, g, k - 1);
      var x, y := f[k - 1], g[k - 1];
      DistinctCovers(f, |b|);
      DistinctCovers(g, |b|);
      assert y in f && x in g;
      var i :| 0 <= i < |b| && f[i] == y;
      var j :| 0 <= j < |b| && g[j] == x;
      forall u | 0 <= u < k - 1 ensures f[u] == g[u] {
        assert f[..k - 1][u] == g[..k - 1][u];
      }
      assert k - 1 <= i && k - 1 <= j;
      assert x == y || Before(b, x, y);
      assert x == y || Before(b, y, x);
    }
  }

  /** The library's stable sort of the positions by character. */
  method CountSort(b: seq<nat>) returns (links: seq<Link>)
    ensures |links| == |b| && forall k :: 0 <= k < |b| ==> links[k].next < |b| && links[k].c == b[links[k].next]
    ensures Ordered(b, seq(|b|, k requires 0 <= k < |b| => links[k].next))
  {
    var lnks := seq(|b|, i requires 0 <= i < |b| => Link(i, b[i]));
    links := Sort(lnks, (x, y) => NotAfter(x, y));
    SameMembers(links, lnks);
    forall k | 0 <= k < |b| ensures links[k].next < |b| && links[k].c == b[links[k].next] {
      assert links[k] in lnks;
    }
    StaysDistinct(lnks, links);
  }

  /** The null character comes first. */
  lemma NullIsFirst(s: seq<nat>, sa: seq<nat>, isa: seq<nat>)
    requires TextBytes(s) && IsSuffixArray(Padded(s), sa) && Inverse(sa, isa)
    ensures isa[0] == 0 && sa[0] == 0
  {
    var ss := Padded(s);
    assert ss[0] == 0;
    if isa[0] > 0 {
      StepFurther(ss, sa[0], 0);
    }
  }

  /** Where the suffix one further than the k-th stands in the order. */
  ghost function Follow(sa: seq<nat>, isa: seq<nat>): (f: seq<nat>)
    requires Inverse(sa, isa)
    ensures |f| == |sa|
  {
    seq(|sa|, k requires 0 <= k < |sa| => isa[Succ(sa[k], |sa|)])
  }

  /** The stable order of the transform is the successor map of the suffix order. */
  lemma FollowIsOrdered(s: seq<nat>, sa: seq<nat>, isa: seq<nat>, b: seq<nat>)
    requires TextBytes(s) && Encodes(s, sa, b) && Inverse(sa, isa)
    ensures Ordered(b, Follow(sa, isa))
  {
    var ss, f := Padded(s), Follow(sa, isa);
    var n := |ss|;
    forall k, m | 0 <= k < m < n ensures Before(b, f[k], f[m]) {
      FollowKeepsOrder(s, sa, isa, b, k, m);
    }
  }

  lemma FollowKeepsOrder(s: seq<nat>, sa: seq<nat>, isa: seq<nat>, b: seq<nat>, k: nat, m: nat)
    requires TextBytes(s) && Encodes(s, sa, b) && Inverse(sa, isa) && k < m < |sa|
    ensures Before(b, Follow(sa, isa)[k], Follow(sa, isa)[m])
  {
    hide SuffixLess, Lcp, TextBytes;
    var ss, p, q := Padded(s), sa[k], sa[m];
    var n := |ss|;
    var x, y := isa[Succ(p, n)], isa[Succ(q, n)];
    assert b[x] == ss[p] && b[y] == ss[q];
    NullIsFirst(s, sa, isa);
    StepFurther(ss, p, q);
    assert sa[x] == Succ(p, n) && sa[y] == Succ(q, n);
    if p + 1 < n && ss[p] == ss[q] {
      OrderIsRank(ss, sa, x, y);
    }
  }

  /** Suffixes compare by their first characters, or else one place further on. */
  lemma StepFurther(ss: seq<nat>, p: nat, q: nat)
    requires SuffixLess(ss, p, q) && p < |ss|
    ensures q < |ss| && ss[p] <= ss[q]
    ensures ss[p] == ss[q] ==> q + 1 < |ss| && (p + 1 < |ss| ==> SuffixLess(ss, p + 1, q + 1))
  {
    LessComparesAtLcp(ss, p, q);
    var l := Lcp(ss, p, q);
    if l > 0 {
      assert Same(ss, p, q, 0);
      AgreeFurther(ss, p, q, 1, l);
      assert SmallerAt(ss, p + 1, q + 1, l - 1);
    }
  }

  // ---------- marking the heads ----------

  const BLOCK_SIZE := 5000
  const BUFFER := BLOCK_SIZE * 30

  /** The range of the integer type the decoder picks for a string of n characters. */
  function IntRange(n: nat): nat {
    if n >= 0x8000_0000 then 0x1_0000_0000_0000_0000 else 0x1_0000_0000
  }

  datatype Memory = Memory(next: seq<nat>, flags: seq<bool>)

  /** Where a thread stands: loading the link it drew, flagging its target as a head, storing the mark. */
  datatype Pc = Load | Flag(lnk: nat) | Store(lnk: nat) | Ended

  ghost predicate Sized(n: nat, draws: seq<nat>, m: Memory, pcs: seq<Pc>) {
    && |m.next| == |m.flags| == n && |pcs| == |draws| && Below(draws, n)
    && forall t :: 0 <= t < |pcs| && (pcs[t].Flag? || pcs[t].Store?) ==> pcs[t].lnk < n
  }

  /** One memory access of the thread that drew link j. */
  function MarkStep(n: nat, j: nat, m: Memory, pc: Pc): (Memory, Pc)
    requires j < n == |m.next| == |m.flags| && (pc.Flag? || pc.Store? ==> pc.lnk < n)
  {
    match pc
    case Load => (m, if m.next[j] < n then Flag(m.next[j]) else Ended)
    case Flag(lnk) => (m.(flags := m.flags[lnk := true]), Store(lnk))
    case Store(lnk) => (m.(next := m.next[j := lnk + n]), Ended)
    case Ended => (m, Ended)
  }

  function StepsLeft(pc: Pc): nat {
    match pc
    case Load => 3
    case Flag(_) => 2
    case Store(_) => 1
    case Ended => 0
  }

  ghost predicate Drawn(draws: seq<nat>, k: nat) {
    k == 0 || k in draws
  }

  ghost predicate Injective(f: seq<nat>) {
    Distinct(f) && Below(f, |f|)
  }

  /** A link is the original one or has n added; then its target is flagged.  Only targets of drawn
      links are flagged. */
  ghost predicate MarkInv(f: seq<nat>, draws: seq<nat>, m: Memory, pcs: seq<Pc>) {
    && Sized(|f|, draws, m, pcs) && |f| > 0 && Injective(f) && m.next[0] == f[0] + |f|
    && (forall k :: 0 <= k < |f| ==> m.next[k] == f[k] || (m.next[k] == f[k] + |f| && m.flags[f[k]] && Drawn(draws, k)))
    && (forall k :: 0 <= k < |f| ==> (m.flags[f[k]] ==> Drawn(draws, k)))
    && forall t :: 0 <= t < |pcs| ==>
      match pcs[t]
      case Load => true
      case Flag(lnk) => lnk == f[draws[t]]
      case Store(lnk) => lnk == f[draws[t]] && m.flags[lnk]
      case Ended => m.next[draws[t]] == f[draws[t]] + |f|
  }

  lemma MarkStepKeepsInv(f: seq<nat>, draws: seq<nat>, m: Memory, pcs: seq<Pc>, t: nat)
    requires MarkInv(f, draws, m, pcs) && t < |pcs|
    ensures
      var (m', pc') := MarkStep(|f|, draws[t], m, pcs[t]);
      MarkInv(f, draws, m', pcs[t := pc'])
  {
  }

  /** The k-th link is marked, and its target flagged, exactly if it was drawn. */
  ghost predicate Final(f: seq<nat>, draws: seq<nat>, next: seq<nat>, flags: seq<bool>, k: nat) {
    && |next| == |flags| == |f| && k < |f| && f[k] < |f|
    && next[k] == (if Drawn(draws, k) then f[k] + |f| else f[k]) && (flags[f[k]] <==> Drawn(draws, k))
  }

  /** The marked links are exactly the drawn ones and the first, the flagged positions their targets. */
  lemma MarksAreDraws(f: seq<nat>, draws: seq<nat>, m: Memory, pcs: seq<Pc>)
    requires MarkInv(f, draws, m, pcs) && forall t :: 0 <= t < |pcs| ==> pcs[t].Ended?
    ensures forall k :: 0 <= k < |f| ==> Final(f, draws, m.next, m.flags, k)
  {
  }

  /** A mark added to a link stays within the integer type. */
  lemma MarksFit(f: seq<nat>, draws: seq<nat>, m: Memory, pcs: seq<Pc>)
    requires MarkInv(f, draws, m, pcs) && |f| < 0x8000_0000_0000_0000
    ensures forall k :: 0 <= k < |f| ==> m.next[k] < IntRange(|f|)
    ensures forall t :: 0 <= t < |pcs| && pcs[t].Store? ==> pcs[t].lnk + |f| < IntRange(|f|)
  {
  }

  lemma MarksStart(f: seq<nat>, draws: seq<nat>, flags: seq<bool>, pcs: seq<Pc>)
    requires |flags| == |f| > 0 && Injective(f) && Below(draws, |f|) && |pcs| == |draws|
    requires (forall x :: 0 <= x < |f| ==> !flags[x]) && forall t :: 0 <= t < |pcs| ==> pcs[t].Load?
    ensures MarkInv(f, draws, Memory(f[0 := f[0] + |f|], flags[f[0] := true]), pcs)
  {
  }

  lemma MarkSized(f: seq<nat>, draws: seq<nat>, m: Memory, pcs: seq<Pc>)
    requires MarkInv(f, draws, m, pcs)
    ensures Sized(|f|, draws, m, pcs)
  {
  }

  method MarkAccess(n: nat, j: nat, next: array<nat>, flags: array<bool>, pc: Pc) returns (pc': Pc)
    requires j < n == next.Length == flags.Length && (pc.Flag? || pc.Store? ==> pc.lnk < n)
    modifies next, flags
    ensures (Memory(next[..], flags[..]), pc') == MarkStep(n, j, Memory(old(next[..]), old(flags[..])), pc)
  {
    match pc
    case Load =>
      var lnk := next[j];
      pc' := if lnk < n then Flag(lnk) else Ended;
    case Flag(lnk) =>
      flags[lnk] := true;
      pc' := Store(lnk);
    case Store(lnk) =>
      next[j] := lnk + n;
      pc' := Ended;
    case Ended =>
      pc' := Ended;
  }

  /** The threads' marking, whatever the order of their accesses. */
  method RunMarks(next: array<nat>, flags: array<bool>, draws: seq<nat>, ghost f: seq<nat>)
    requires next.Length == flags.Length
    requires MarkInv(f, draws, Memory(next[..], flags[..]), seq(|draws|, _ => Load))
    modifies next, flags
    ensures forall k :: 0 <= k < |f| ==> Final(f, draws, next[..], flags[..], k)
  {
    hide MarkInv, Final;
    var pcs: seq<Pc> := seq(|draws|, _ => Load);
    while exists t :: 0 <= t < |pcs| && !pcs[t].Ended?
      invariant MarkInv(f, draws, Memory(next[..], flags[..]), pcs)
      decreases Work(StepsLeft, pcs)
    {
      var t :| 0 <= t < |pcs| && !pcs[t].Ended?;
      MarkSized(f, draws, Memory(next[..], flags[..]), pcs);
      MarkStepKeepsInv(f, draws, Memory(next[..], flags[..]), pcs, t);
      var pc := MarkAccess(next.Length, draws[t], next, flags, pcs[t]);
      WorkAfterStep(StepsLeft, pcs, t, pc);
      pcs := pcs[t := pc];
    }
    MarksAreDraws(f, draws, Memory(next[..], flags[..]), pcs);
  }

  /** Marks the first link and those that are drawn. */
  method MarkHeads(next: array<nat>, flags: array<bool>, draws: seq<nat>, ghost f: seq<nat>)
    requires next.Length == flags.Length == |f| > 0 && Injective(f) && Below(draws, |f|)
    requires next[..] == f && forall x :: 0 <= x < |f| ==> !flags[x]
    modifies next, flags
    ensures forall k :: 0 <= k < |f| ==> Final(f, draws, next[..], flags[..], k)
  {
    MarksStart(f, draws, flags[..], seq(|draws|, _ => Load));
    flags[next[0]] := true;
    next[0] := next[0] + next.Length;
    RunMarks(next, flags, draws, f);
  }

  // ---------- reading along the links ----------

  /** Positions, each reached over the link at the one before. */
  ghost predicate Chained(f: seq<nat>, T: seq<nat>) {
    |T| > 0 && Below(T, |f|) && forall i :: 0 <= i < |T| - 1 ==> T[i + 1] == f[T[i]]
  }

  /** Starts where the drawn link k leads, and meets no drawn link before its last position. */
  ghost predicate Open(f: seq<nat>, draws: seq<nat>, k: nat, T: seq<nat>) {
    && Injective(f) && k < |f| && Drawn(draws, k) && Chained(f, T) && T[0] == f[k] && Distinct(T)
    && forall i :: 0 <= i < |T| - 1 ==> !Drawn(draws, T[i])
  }

  /** Following an undrawn link leads to a new position. */
  lemma OpenGrows(f: seq<nat>, draws: seq<nat>, k: nat, T: seq<nat>)
    requires Open(f, draws, k, T) && !Drawn(draws, T[|T| - 1])
    ensures |T| < |f| && Open(f, draws, k, T + [f[T[|T| - 1]]])
  {
    var last := T[|T| - 1];
    forall i | 0 <= i < |T| ensures T[i] != f[last] {
      assert i > 0 ==> T[i] == f[T[i - 1]];
    }
    DistinctFits(T + [f[last]], |f|);
  }

  /** The positions up to the first drawn link. */
  ghost function Trail(f: seq<nat>, draws: seq<nat>, k: nat, T: seq<nat>): (R: seq<nat>)
    requires Open(f, draws, k, T)
    ensures Open(f, draws, k, R) && Drawn(draws, R[|R| - 1]) && |T| <= |R|
    decreases |f| - |T|
  {
    if Drawn(draws, T[|T| - 1]) then T
    else
      OpenGrows(f, draws, k, T);
      Trail(f, draws, k, T + [f[T[|T| - 1]]])
  }

  /** The block that begins where the drawn link k leads. */
  ghost function Block(f: seq<nat>, draws: seq<nat>, k: nat): (R: seq<nat>)
    requires Injective(f) && k < |f| && Drawn(draws, k)
    ensures Open(f, draws, k, R) && Drawn(draws, R[|R| - 1])
  {
    Trail(f, draws, k, [f[k]])
  }

  /** Nothing else begins there and ends at the first drawn link. */
  lemma {:induction false} BlockIsUnique(f: seq<nat>, draws: seq<nat>, k: nat, T: seq<nat>)
    requires Open(f, draws, k, T) && Drawn(draws, T[|T| - 1])
    ensures T == Block(f, draws, k)
  {
    var R := Block(f, draws, k);
    for i := 0 to if |R| < |T| then |R| else |T|
      invariant R[..i] == T[..i]
    {
      assert i > 0 ==> R[i - 1] == R[..i][i - 1] == T[i - 1];
    }
  }

  /** All positions from where the first link leads, until it is met again. */
  ghost function Orbit(f: seq<nat>): (R: seq<nat>)
    requires Injective(f) && |f| > 0
    ensures Open(f, [], 0, R) && R[|R| - 1] == 0
  {
    Block(f, [], 0)
  }

  /** The characters at positions of the links. */
  ghost function Spelled(b: seq<nat>, f: seq<nat>, T: seq<nat>): (t: seq<nat>)
    requires Below(f, |b|) && Below(T, |f|)
    ensures |t| == |T|
  {
    seq(|T|, i requires 0 <= i < |T| => b[f[T[i]]])
  }

  /** What the decoder reads: the characters of the orbit, but for the last. */
  ghost function Reading(b: seq<nat>, f: seq<nat>): seq<nat>
    requires Injective(f) && |f| == |b| > 0
  {
    var R := Orbit(f);
    Spelled(b, f, R[..|R| - 1])
  }

  /** The block is too long to decode: it has 150000 positions or more. */
  ghost predicate Overflows(f: seq<nat>, draws: seq<nat>, k: nat) {
    Injective(f) && k < |f| && Drawn(draws, k) && |Block(f, draws, k)| >= 150_000
  }

  // ---------- following the blocks ----------

  /** The links as the marking leaves them. */
  ghost predicate LinksAre(b: seq<nat>, f: seq<nat>, draws: seq<nat>, links: seq<Link>) {
    && Injective(f) && |links| == |f| == |b|
    && forall k :: 0 <= k < |f| ==> links[k] == Link(if Drawn(draws, k) then f[k] + |f| else f[k], b[f[k]])
  }

  lemma ModOnce(x: nat, n: nat)
    requires x < n
    ensures (x + n) % n == x
  {
  }

  /** One link. */
  lemma LinkAt(b: seq<nat>, f: seq<nat>, draws: seq<nat>, links: seq<Link>, k: nat)
    requires LinksAre(b, f, draws, links) && k < |f|
    ensures |links| == |f| == |b| && f[k] < |f| && links[k].c == b[f[k]]
    ensures
      var next := links[k].next;
      if Drawn(draws, k) then next >= |f| && next % |f| == f[k] else next == f[k]
  {
    ModOnce(f[k], |f|);
  }

  /** What following a block gives: its characters, and the head after it. */
  ghost function BlockOf(b: seq<nat>, f: seq<nat>, draws: seq<nat>, k: nat): (seq<nat>, nat)
    requires Injective(f) && |f| == |b| && k < |f| && Drawn(draws, k)
  {
    var R := Block(f, draws, k);
    (Spelled(b, f, R), f[R[|R| - 1]])
  }

  /** One turn of following a block. */
  lemma FollowStep(b: seq<nat>, f: seq<nat>, draws: seq<nat>, links: seq<Link>, k: nat, T: seq<nat>)
    requires LinksAre(b, f, draws, links) && Open(f, draws, k, T)
    ensures |T| > 0 && Below(T, |f|) && Below(f, |b|) && |links| == |f| && T[|T| - 1] < |links|
    ensures |T| <= |Trail(f, draws, k, T)|
    ensures
      var link := links[T[|T| - 1]];
      && Spelled(b, f, T) == Spelled(b, f, T[..|T| - 1]) + [link.c]
      && if link.next < |links| then
           && Open(f, draws, k, T + [link.next]) && |T| < |f|
           && Trail(f, draws, k, T + [link.next]) == Trail(f, draws, k, T)
         else Trail(f, draws, k, T) == T && link.next % |links| == f[T[|T| - 1]]
  {
    SpelledLast(b, f, T);
    LinkAt(b, f, draws, links, T[|T| - 1]);
    TrailStep(f, draws, k, T);
    hide LinksAre, Open, Trail, Spelled, Injective, Drawn;
  }

  lemma SpelledLast(b: seq<nat>, f: seq<nat>, T: seq<nat>)
    requires Below(f, |b|) && Below(T, |f|) && |T| > 0
    ensures Below(T[..|T| - 1], |f|) && f[T[|T| - 1]] < |b|
    ensures Spelled(b, f, T) == Spelled(b, f, T[..|T| - 1]) + [b[f[T[|T| - 1]]]]
  {
  }

  lemma TrailStep(f: seq<nat>, draws: seq<nat>, k: nat, T: seq<nat>)
    requires Open(f, draws, k, T)
    ensures Injective(f) && Below(T, |f|) && |T| > 0 && |T| <= |Trail(f, draws, k, T)|
    ensures
      var next := f[T[|T| - 1]];
      if Drawn(draws, T[|T| - 1]) then Trail(f, draws, k, T) == T
      else |T| < |f| && Open(f, draws, k, T + [next]) && Trail(f, draws, k, T + [next]) == Trail(f, draws, k, T)
  {
    if !Drawn(draws, T[|T| - 1]) {
      OpenGrows(f, draws, k, T);
    }
  }

  /** How following a block ends. */
  lemma FollowEnds(b: seq<nat>, f: seq<nat>, draws: seq<nat>, k: nat, T: seq<nat>)
    requires Injective(f) && |f| == |b| && k < |f| && Drawn(draws, k) && Open(f, draws, k, T)
    requires Trail(f, draws, k, T) == Block(f, draws, k)
    ensures |T| >= BUFFER ==> Overflows(f, draws, k)
    ensures Trail(f, draws, k, T) == T && |T| < BUFFER ==>
      !Overflows(f, draws, k) && BlockOf(b, f, draws, k) == (Spelled(b, f, T), f[T[|T| - 1]])
  {
    TrailGrows(f, draws, k, T);
    hide Trail, Block, Open, Injective, Drawn, Spelled, Below;
  }

  lemma TrailGrows(f: seq<nat>, draws: seq<nat>, k: nat, T: seq<nat>)
    requires Open(f, draws, k, T)
    ensures |T| <= |Trail(f, draws, k, T)| && Below(f, |f|) && Below(T, |f|) && |T| > 0
  {
  }

  /** The characters from one head up to the next, and that next head. */
  method FollowBlock(links: seq<Link>, head: nat, ghost b: seq<nat>, ghost f: seq<nat>, ghost draws: seq<nat>,
      ghost k: nat)
    returns (r: Option<(seq<nat>, nat)>)
    requires LinksAre(b, f, draws, links) && k < |f| && Drawn(draws, k) && f[k] == head
    ensures r.None? <==> Overflows(f, draws, k)
    ensures r.Some? ==> r.value == BlockOf(b, f, draws, k)
  {
    var n := |links|;
    var buffer: seq<nat>, pos: nat := [], head;
    ghost var T: seq<nat> := [head];
    FollowStep(b, f, draws, links, k, T);
    assert Injective(f) && |f| == |b| && Trail(f, draws, k, T) == Block(f, draws, k);
    hide LinksAre, Drawn, Open, Trail, Block, BlockOf, Overflows, Spelled, Below, Injective;
    while true
      invariant Open(f, draws, k, T) && Trail(f, draws, k, T) == Block(f, draws, k)
      invariant |T| > 0 && pos == T[|T| - 1] < n && |buffer| == |T| - 1 < BUFFER && |T| <= n
      invariant Below(T, |f|) && Below(T[..|T| - 1], |f|) && buffer == Spelled(b, f, T[..|T| - 1])
      decreases n - |T|
    {
      FollowStep(b, f, draws, links, k, T);
      FollowEnds(b, f, draws, k, T);
      var ln := links[pos];
      buffer := buffer + [ln.c];
      if |buffer| == BUFFER {
        return None;
      }
      pos := ln.next;
      if pos >= n {
        break;
      }
      T := T + [pos];
      FollowStep(b, f, draws, links, k, T);
      assert T[..|T| - 1] + [pos] == T;
    }
    r := Some((buffer, pos % n));
  }

  /** The flagged positions, in increasing order. */
  method PackHeads(flags: seq<bool>) returns (heads: seq<nat>)
    ensures Distinct(heads) && forall x: nat :: x in heads <==> x < |flags| && flags[x]
  {
    heads := [];
    for i := 0 to |flags|
      invariant Distinct(heads) && forall x: nat :: x in heads <==> x < i && flags[x]
    {
      if flags[i] {
        heads := heads + [i];
      }
    }
  }

  /** The heads are where the drawn links lead. */
  ghost predicate HeadsAre(f: seq<nat>, draws: seq<nat>, heads: seq<nat>) {
    && Injective(f) && Distinct(heads) && Below(heads, |f|)
    && forall k :: 0 <= k < |f| ==> (f[k] in heads <==> Drawn(draws, k))
  }

  lemma HeadIsTarget(f: seq<nat>, draws: seq<nat>, heads: seq<nat>, i: nat) returns (k: nat)
    requires HeadsAre(f, draws, heads) && i < |heads|
    ensures k < |f| && Drawn(draws, k) && f[k] == heads[i]
  {
    DistinctCovers(f, |f|);
    assert heads[i] in f && heads[i] in heads;
    k :| 0 <= k < |f| && f[k] == heads[i];
  }

  ghost predicate BlocksAre(b: seq<nat>, f: seq<nat>, draws: seq<nat>, heads: seq<nat>, blocks: seq<(seq<nat>, nat)>) {
    && |f| == |b| && HeadsAre(f, draws, heads) && |blocks| <= |heads|
    && forall i, k: nat :: 0 <= i < |blocks| && k < |f| && Drawn(draws, k) && heads[i] == f[k] ==>
      blocks[i] == BlockOf(b, f, draws, k)
  }

  /** None of the first i blocks fills the buffer. */
  ghost predicate Fits(f: seq<nat>, draws: seq<nat>, heads: seq<nat>, i: nat)
    requires i <= |heads|
  {
    forall j, k: nat :: 0 <= j < i && k < |f| && Drawn(draws, k) && heads[j] == f[k] ==> !Overflows(f, draws, k)
  }

  lemma OneBlockMore(b: seq<nat>, f: seq<nat>, draws: seq<nat>, heads: seq<nat>, blocks: seq<(seq<nat>, nat)>, k: nat)
    requires BlocksAre(b, f, draws, heads, blocks) && |blocks| < |heads|
    requires k < |f| && Drawn(draws, k) && heads[|blocks|] == f[k]
    ensures BlocksAre(b, f, draws, heads, blocks + [BlockOf(b, f, draws, k)])
  {
    hide BlockOf, Drawn;
    OneTarget(f, draws, heads);
  }

  /** A head is the target of one link. */
  lemma OneTarget(f: seq<nat>, draws: seq<nat>, heads: seq<nat>)
    requires HeadsAre(f, draws, heads)
    ensures forall k: nat, j: nat :: k < |f| && j < |f| && f[k] == f[j] ==> k == j
  {
  }

  lemma OneMoreFits(f: seq<nat>, draws: seq<nat>, heads: seq<nat>, i: nat, k: nat)
    requires HeadsAre(f, draws, heads) && i < |heads| && Fits(f, draws, heads, i)
    requires k < |f| && Drawn(draws, k) && heads[i] == f[k] && !Overflows(f, draws, k)
    ensures Fits(f, draws, heads, i + 1)
  {
    hide Overflows, Drawn;
    OneTarget(f, draws, heads);
  }

  lemma NoBlockOverflows(f: seq<nat>, draws: seq<nat>, heads: seq<nat>)
    requires HeadsAre(f, draws, heads) && Fits(f, draws, heads, |heads|)
    ensures forall k: nat :: !Overflows(f, draws, k)
  {
    forall k: nat | k < |f| && Drawn(draws, k) ensures !Overflows(f, draws, k) {
      assert f[k] in heads;
    }
  }

  method FollowAll(links: seq<Link>, heads: seq<nat>, ghost b: seq<nat>, ghost f: seq<nat>, ghost draws: seq<nat>)
    returns (r: Option<seq<(seq<nat>, nat)>>)
    requires LinksAre(b, f, draws, links) && HeadsAre(f, draws, heads)
    ensures r.None? <==> exists k: nat :: Overflows(f, draws, k)
    ensures r.Some? ==> |r.value| == |heads| && BlocksAre(b, f, draws, heads, r.value)
  {
    var blocks, failed := [], false;
    for i := 0 to |heads|
      invariant failed ==> exists k: nat :: Overflows(f, draws, k)
      invariant !failed ==> |blocks| == i && BlocksAre(b, f, draws, heads, blocks) && Fits(f, draws, heads, i)
    {
      hide *;
      ghost var k := HeadIsTarget(f, draws, heads, i);
      var block := FollowBlock(links, heads[i], b, f, draws, k);
      if block.None? {
        failed := true;
      } else if !failed {
        OneBlockMore(b, f, draws, heads, blocks, k);
        OneMoreFits(f, draws, heads, i, k);
        blocks := blocks + [block.value];
      }
    }
    if !failed {
      NoBlockOverflows(f, draws, heads);
    }
    r := if failed then None else Some(blocks);
  }

  // ---------- joining the blocks ----------

  ghost predicate Located(heads: seq<nat>, loc: seq<nat>) {
    Below(heads, |loc|) && forall i :: 0 <= i < |heads| ==> loc[heads[i]] == i
  }

  /** The place of each head in the list of heads. */
  method Locate(heads: seq<nat>, n: nat) returns (loc: seq<nat>)
    requires Distinct(heads) && Below(heads, n)
    ensures |loc| == n && Located(heads, loc)
  {
    loc := seq(n, _ => 0);
    for i := 0 to |heads|
      invariant |loc| == n && forall k :: 0 <= k < i ==> loc[heads[k]] == k
    {
      loc := loc[heads[i] := i];
    }
  }

  /** The link that leads to place w of the orbit; after its end comes its start. */
  ghost function LeadsTo(R: seq<nat>, w: nat): nat
    requires w <= |R|
  {
    if w == 0 then 0 else R[w - 1]
  }

  /** A block begins at place w of the orbit, or it is the end. */
  ghost predicate Breaks(f: seq<nat>, draws: seq<nat>, w: nat)
    requires Injective(f) && |f| > 0
  {
    w <= |Orbit(f)| && Drawn(draws, LeadsTo(Orbit(f), w))
  }

  /** Where the block that begins at place w ends. */
  ghost function NextBreak(f: seq<nat>, draws: seq<nat>, w: nat): (e: nat)
    requires Injective(f) && |f| > 0 && w < |Orbit(f)|
    ensures w < e && Breaks(f, draws, e) && forall v :: w < v < e ==> !Breaks(f, draws, v)
    decreases |Orbit(f)| - w
  {
    if Breaks(f, draws, w + 1) then w + 1 else NextBreak(f, draws, w + 1)
  }

  /** The block that begins at a place of the orbit is the orbit up to where the next one begins. */
  lemma OrbitBlock(f: seq<nat>, draws: seq<nat>, w: nat)
    requires Injective(f) && |f| > 0 && w < |Orbit(f)| && Breaks(f, draws, w)
    ensures
      var R := Orbit(f);
      var k, e := LeadsTo(R, w), NextBreak(f, draws, w);
      k < |f| && Drawn(draws, k) && f[k] == R[w] && Block(f, draws, k) == R[w..e]
  {
    var R, e := Orbit(f), NextBreak(f, draws, w);
    var k, T := LeadsTo(R, w), R[w..e];
    assert Chained(f, T) by {
      forall i | 0 <= i < |T| - 1 ensures T[i + 1] == f[T[i]] {
        assert R[w + i + 1] == f[R[w + i]];
      }
    }
    forall i | 0 <= i < |T| - 1 ensures !Drawn(draws, T[i]) {
      assert !Breaks(f, draws, w + i + 1);
    }
    BlockIsUnique(f, draws, k, T);
  }

  /** The place in the list of heads of the position at place w of the orbit. */
  ghost function Slot(f: seq<nat>, loc: seq<nat>, w: nat): nat
    requires Injective(f) && |f| > 0 && w < |Orbit(f)| && |loc| == |f|
  {
    loc[Orbit(f)[w]]
  }

  /** The heads at the breaks are listed, at different places. */
  lemma Slots(f: seq<nat>, draws: seq<nat>, heads: seq<nat>, loc: seq<nat>, v: nat, w: nat)
    requires HeadsAre(f, draws, heads) && |f| > 0 && |loc| == |f| && Located(heads, loc)
    requires v < |Orbit(f)| && Breaks(f, draws, v) && w < |Orbit(f)| && Breaks(f, draws, w)
    ensures Slot(f, loc, w) < |heads| && heads[Slot(f, loc, w)] == Orbit(f)[w]
    ensures v != w ==> Slot(f, loc, v) != Slot(f, loc, w)
  {
    OrbitBlock(f, draws, v);
    OrbitBlock(f, draws, w);
    assert Orbit(f)[w] in heads && Orbit(f)[v] in heads;
  }

  /** The blocks before place e have been moved out, which leaves them empty. */
  ghost predicate MovedUpTo(f: seq<nat>, draws: seq<nat>, loc: seq<nat>, start: seq<(seq<nat>, nat)>,
      now: seq<(seq<nat>, nat)>, e: nat)
    requires Injective(f) && |f| == |loc| > 0
  {
    && |now| == |start|
    && forall w :: 0 <= w < |Orbit(f)| && Breaks(f, draws, w) ==>
      var j := Slot(f, loc, w);
      j < |now| && now[j] == if w < e then ([], start[j].1) else start[j]
  }

  /** The listed heads at places before e are those used. */
  ghost predicate UsedUpTo(f: seq<nat>, draws: seq<nat>, loc: seq<nat>, m: nat, used: set<nat>, e: nat)
    requires Injective(f) && |f| == |loc| > 0
  {
    && used <= Range(m)
    && forall w :: 0 <= w < |Orbit(f)| && Breaks(f, draws, w) ==>
      Slot(f, loc, w) < m && (Slot(f, loc, w) in used <==> w < e)
  }

  /** Some head is left while the orbit is not used up. */
  lemma SomeLeft(f: seq<nat>, draws: seq<nat>, loc: seq<nat>, m: nat, used: set<nat>, e: nat)
    requires Injective(f) && |f| == |loc| > 0 && UsedUpTo(f, draws, loc, m, used, e) && e < |Orbit(f)|
      && Breaks(f, draws, e)
    ensures |used| < m
  {
    hide Orbit, Breaks;
    var missing := Range(m) - used;
    assert Slot(f, loc, e) in missing;
    assert used + missing == Range(m);
  }

  lemma UseOne(f: seq<nat>, draws: seq<nat>, heads: seq<nat>, loc: seq<nat>, used: set<nat>, e: nat)
    requires HeadsAre(f, draws, heads) && |f| == |loc| > 0 && Located(heads, loc)
    requires UsedUpTo(f, draws, loc, |heads|, used, e) && e < |Orbit(f)| && Breaks(f, draws, e)
    ensures Slot(f, loc, e) !in used
    ensures UsedUpTo(f, draws, loc, |heads|, used + {Slot(f, loc, e)}, NextBreak(f, draws, e))
  {
    hide HeadsAre, Located, Orbit, Breaks, Slot, Injective;
    Slots(f, draws, heads, loc, e, e);
    forall w | 0 <= w < |Orbit(f)| && Breaks(f, draws, w)
      ensures w != e ==> Slot(f, loc, w) != Slot(f, loc, e)
      ensures w < NextBreak(f, draws, e) <==> w <= e
    {
      Slots(f, draws, heads, loc, w, e);
    }
  }

  /** What the block at place w is. */
  lemma BlockAt(b: seq<nat>, f: seq<nat>, draws: seq<nat>, heads: seq<nat>, loc: seq<nat>, start: seq<(seq<nat>, nat)>,
      w: nat)
    requires |f| == |loc| > 0 && BlocksAre(b, f, draws, heads, start) && |start| == |heads| && Located(heads, loc)
    requires w < |Orbit(f)| && Breaks(f, draws, w)
    ensures
      var R, e := Orbit(f), NextBreak(f, draws, w);
      Slot(f, loc, w) < |start| && e <= |R| && start[Slot(f, loc, w)] == (Spelled(b, f, R[w..e]), f[R[e - 1]])
  {
    OrbitBlock(f, draws, w);
    Slots(f, draws, heads, loc, w, w);
    hide Injective, HeadsAre, Located, Orbit, Breaks, Block, NextBreak, Slot, Drawn, Below, Spelled;
    ListedBlock(b, f, draws, heads, start, Slot(f, loc, w), LeadsTo(Orbit(f), w));
    NextInRange(f, draws, w);
  }

  lemma ListedBlock(b: seq<nat>, f: seq<nat>, draws: seq<nat>, heads: seq<nat>, start: seq<(seq<nat>, nat)>, j: nat,
      k: nat)
    requires BlocksAre(b, f, draws, heads, start) && j < |start| && k < |f| && Drawn(draws, k) && heads[j] == f[k]
    ensures Below(Block(f, draws, k), |f|) && Below(f, |b|)
    ensures
      var R := Block(f, draws, k);
      start[j] == (Spelled(b, f, R), f[R[|R| - 1]])
  {
    assert start[j] == BlockOf(b, f, draws, k);
  }

  lemma NextInRange(f: seq<nat>, draws: seq<nat>, w: nat)
    requires Injective(f) && |f| > 0 && w < |Orbit(f)| && Breaks(f, draws, w)
    ensures
      var R, e := Orbit(f), NextBreak(f, draws, w);
      w < e <= |R| && Below(R, |f|) && R[w..e][e - w - 1] == R[e - 1]
  {
  }

  /** Moving out the block at place w, the first one left, or an empty one. */
  lemma MoveOne(f: seq<nat>, draws: seq<nat>, heads: seq<nat>, loc: seq<nat>, start: seq<(seq<nat>, nat)>,
      now: seq<(seq<nat>, nat)>, e: nat, w: nat)
    requires HeadsAre(f, draws, heads) && |f| == |loc| > 0 && |start| == |heads| && Located(heads, loc)
    requires MovedUpTo(f, draws, loc, start, now, e) && w < |Orbit(f)| && Breaks(f, draws, w)
      && (e < |Orbit(f)| ==> w == e)
    ensures
      var j := Slot(f, loc, w);
      && j < |now| == |start| && now[j] == (if e < |Orbit(f)| then start[j] else ([], start[j].1))
      && MovedUpTo(f, draws, loc, start, now[j := ([], now[j].1)], if e < |Orbit(f)| then NextBreak(f, draws, w) else e)
  {
    hide HeadsAre, Located, Orbit, Breaks, Slot, Injective;
    Slots(f, draws, heads, loc, w, w);
    forall v | 0 <= v < |Orbit(f)| && Breaks(f, draws, v)
      ensures v != w ==> Slot(f, loc, v) != Slot(f, loc, w)
      ensures v < NextBreak(f, draws, w) <==> v <= w
    {
      Slots(f, draws, heads, loc, v, w);
    }
  }

  lemma SpelledJoin(b: seq<nat>, f: seq<nat>, R: seq<nat>, e: nat, e': nat)
    requires Below(f, |b|) && Below(R, |f|) && e <= e' <= |R|
    ensures Spelled(b, f, R[..e']) == Spelled(b, f, R[..e]) + Spelled(b, f, R[e..e'])
  {
  }

  /** What has been joined is the orbit up to e; pos is where the link leading to place p leads; after
      i blocks i different heads are used, or the orbit is. */
  ghost predicate JoinInv(b: seq<nat>, f: seq<nat>, draws: seq<nat>, heads: seq<nat>, loc: seq<nat>,
      blocks: seq<(seq<nat>, nat)>, rest: seq<(seq<nat>, nat)>, joined: seq<nat>, pos: nat, i: nat, e: nat, p: nat,
      used: set<nat>)
  {
    && |f| == |loc| > 0 && BlocksAre(b, f, draws, heads, blocks) && |blocks| == |heads| && Located(heads, loc)
    && e <= |Orbit(f)| && Breaks(f, draws, e) && Breaks(f, draws, p) && (e < |Orbit(f)| ==> p == e && |used| == i)
    && joined == Spelled(b, f, Orbit(f)[..e]) && LeadsTo(Orbit(f), p) < |f| && pos == f[LeadsTo(Orbit(f), p)]
    && MovedUpTo(f, draws, loc, blocks, rest, e) && UsedUpTo(f, draws, loc, |heads|, used, e)
  }

  /** One turn of joining. */
  lemma JoinStep(b: seq<nat>, f: seq<nat>, draws: seq<nat>, heads: seq<nat>, loc: seq<nat>,
      blocks: seq<(seq<nat>, nat)>, rest: seq<(seq<nat>, nat)>, joined: seq<nat>, pos: nat, i: nat, e: nat, p: nat,
      used: set<nat>)
    returns (e': nat, p': nat, used': set<nat>)
    requires JoinInv(b, f, draws, heads, loc, blocks, rest, joined, pos, i, e, p, used)
    ensures pos < |loc| && loc[pos] < |rest|
    ensures
      var (text, next) := rest[loc[pos]];
      JoinInv(b, f, draws, heads, loc, blocks, rest[loc[pos] := ([], next)], joined + text, next, i + 1, e', p', used')
  {
    hide BlocksAre, HeadsAre, Located, Breaks, MovedUpTo, UsedUpTo, Orbit, Block, NextBreak, Injective, Spelled, Drawn,
      Below, LeadsTo;
    BlocksInRange(b, f, draws, heads, blocks);
    var R, w := Orbit(f), if p == |Orbit(f)| then 0 else p;
    PlaceOf(f, draws, p);
    BlockAt(b, f, draws, heads, loc, blocks, w);
    MoveOne(f, draws, heads, loc, blocks, rest, e, w);
    e', p', used' := e, NextBreak(f, draws, w), used;
    NextLeads(f, draws, w);
    if e < |R| {
      SpelledJoin(b, f, R, e, p');
      UseOne(f, draws, heads, loc, used, e);
      used' := used + {loc[pos]};
      e' := p';
    }
  }

  lemma BlocksInRange(b: seq<nat>, f: seq<nat>, draws: seq<nat>, heads: seq<nat>, blocks: seq<(seq<nat>, nat)>)
    requires |f| > 0 && BlocksAre(b, f, draws, heads, blocks)
    ensures HeadsAre(f, draws, heads) && Injective(f) && |f| == |b| && Below(f, |b|) && Below(Orbit(f), |f|)
  {
  }

  lemma NextLeads(f: seq<nat>, draws: seq<nat>, w: nat)
    requires Injective(f) && |f| > 0 && w < |Orbit(f)|
    ensures var e := NextBreak(f, draws, w);
      w < e <= |Orbit(f)| && LeadsTo(Orbit(f), e) == Orbit(f)[e - 1]
  {
  }

  lemma JoinEnds(b: seq<nat>, f: seq<nat>, draws: seq<nat>, heads: seq<nat>, loc: seq<nat>,
      blocks: seq<(seq<nat>, nat)>, rest: seq<(seq<nat>, nat)>, joined: seq<nat>, pos: nat, e: nat, p: nat,
      used: set<nat>)
    requires JoinInv(b, f, draws, heads, loc, blocks, rest, joined, pos, |heads|, e, p, used)
    ensures Injective(f) && |f| == |b| > 0 && joined == Spelled(b, f, Orbit(f))
  {
    hide MovedUpTo, UsedUpTo, Orbit, Breaks, Spelled;
    if e < |Orbit(f)| {
      SomeLeft(f, draws, loc, |heads|, used, e);
    }
    assert Orbit(f)[..|Orbit(f)|] == Orbit(f);
  }

  /** Joins as many blocks as there are heads, one after the other.  Blocks are moved out, so those
      met again after the orbit is used up add nothing. */
  method JoinBlocks(heads: seq<nat>, blocks: seq<(seq<nat>, nat)>, start: nat, n: nat, ghost b: seq<nat>,
      ghost f: seq<nat>, ghost draws: seq<nat>)
    returns (joined: seq<nat>)
    requires n == |f| > 0 && BlocksAre(b, f, draws, heads, blocks) && |blocks| == |heads| && start == f[0]
    ensures joined == Spelled(b, f, Orbit(f))
  {
    var loc := Locate(heads, n);
    var pos: nat, rest := start, blocks;
    joined := [];
    ghost var used: set<nat>, e: nat, p: nat := {}, 0, 0;
    JoinStarts(f, draws, heads, loc, blocks);
    assert JoinInv(b, f, draws, heads, loc, blocks, rest, joined, pos, 0, e, p, used);
    hide *;
    for i := 0 to |heads|
      invariant JoinInv(b, f, draws, heads, loc, blocks, rest, joined, pos, i, e, p, used)
    {
      ghost var e', p', used' := JoinStep(b, f, draws, heads, loc, blocks, rest, joined, pos, i, e, p, used);
      var j := loc[pos];
      var (text, next) := rest[j];
      rest, joined, pos := rest[j := ([], next)], joined + text, next;
      e, p, used := e', p', used';
    }
    JoinEnds(b, f, draws, heads, loc, blocks, rest, joined, pos, e, p, used);
  }

  lemma JoinStarts(f: seq<nat>, draws: seq<nat>, heads: seq<nat>, loc: seq<nat>, blocks: seq<(seq<nat>, nat)>)
    requires HeadsAre(f, draws, heads) && |f| == |loc| > 0 && Located(heads, loc) && |blocks| == |heads|
    ensures Breaks(f, draws, 0) && Breaks(f, draws, |Orbit(f)|)
    ensures MovedUpTo(f, draws, loc, blocks, blocks, 0) && UsedUpTo(f, draws, loc, |heads|, {}, 0)
  {
    forall w | 0 <= w < |Orbit(f)| && Breaks(f, draws, w) ensures Slot(f, loc, w) < |heads| {
      Slots(f, draws, heads, loc, w, w);
    }
  }

  /** The place after the end is the start. */
  lemma PlaceOf(f: seq<nat>, draws: seq<nat>, p: nat)
    requires Injective(f) && |f| > 0 && Breaks(f, draws, p)
    ensures
      var R := Orbit(f);
      var w := if p == |R| then 0 else p;
      && Breaks(f, draws, w) && w < |R| && p <= |R| && LeadsTo(R, p) < |f| && f[LeadsTo(R, p)] == R[w]
      && Breaks(f, draws, NextBreak(f, draws, w)) && LeadsTo(R, NextBreak(f, draws, w)) < |f|
  {
    var R := Orbit(f);
    assert forall i :: 0 <= i < |R| - 1 ==> R[i + 1] == f[R[i]];
  }

  // ---------- the decoder ----------

  lemma OrderedIsInjective(b: seq<nat>, f: seq<nat>)
    requires Ordered(b, f)
    ensures Injective(f)
  {
    forall k, m | 0 <= k < m < |f| ensures f[k] != f[m] {
      assert Before(b, f[k], f[m]);
    }
  }

  /** The links with their fields next as they are now. */
  method Relinked(links: seq<Link>, next: array<nat>) returns (marked: seq<Link>)
    requires next.Length == |links|
    ensures |marked| == |links| && forall k :: 0 <= k < |links| ==> marked[k] == Link(next[k], links[k].c)
  {
    marked := [];
    for k := 0 to |links|
      invariant |marked| == k && forall j :: 0 <= j < k ==> marked[j] == Link(next[j], links[j].c)
    {
      marked := marked + [Link(next[k], links[k].c)];
    }
  }

  /** The sorted links with the heads marked, the flags of the heads, and the first head. */
  method MarkedLinks(b: seq<nat>, draws: seq<nat>)
    returns (marked: seq<Link>, flagged: seq<bool>, start: nat, ghost f: seq<nat>)
    requires b != [] && Below(draws, |b|)
    ensures Ordered(b, f) && LinksAre(b, f, draws, marked) && start == f[0]
    ensures |flagged| == |b| && forall k :: 0 <= k < |b| ==> (flagged[f[k]] <==> Drawn(draws, k))
  {
    var n := |b|;
    var links := CountSort(b);
    f := seq(|b|, k requires 0 <= k < |b| => links[k].next);
    OrderedIsInjective(b, f);
    var next := new nat[n](k requires 0 <= k < |links| => links[k].next);
    var flags := new bool[n](_ => false);
    assert next[..] == f;
    start := next[0];
    hide Ordered, Injective, Drawn;
    MarkHeads(next, flags, draws, f);
    assert forall k :: 0 <= k < n ==> Final(f, draws, next[..], flags[..], k);
    flagged := flags[..];
    marked := Relinked(links, next);
    forall k | 0 <= k < n
      ensures marked[k] == Link(if Drawn(draws, k) then f[k] + n else f[k], b[f[k]])
      ensures f[k] < n && (flagged[f[k]] <==> Drawn(draws, k))
    {
      assert Final(f, draws, next[..], flags[..], k);
    }
  }

  /** What the decoder makes of b: what the stable order of its characters spells, unless a block is too
      long. */
  ghost predicate Decodes(b: seq<nat>, draws: seq<nat>, r: Option<seq<nat>>)
    requires b != []
  {
    exists f: seq<nat> :: Ordered(b, f) && Injective(f)
      && (r.None? <==> exists k: nat :: Overflows(f, draws, k)) && (r.Some? ==> r.value == Reading(b, f))
  }

  lemma DecodesIs(b: seq<nat>, draws: seq<nat>, f: seq<nat>, r: Option<seq<nat>>)
    requires b != [] && Ordered(b, f) && Injective(f)
    requires (r.None? <==> exists k: nat :: Overflows(f, draws, k)) && (r.Some? ==> r.value == Reading(b, f))
    ensures Decodes(b, draws, r)
  {
    hide Ordered, Injective, Overflows, Reading;
  }

  /** Decodes any nonempty string; draws are the links that the threads pick at random.  None: a block
      filled its buffer. */
  method Decode(b: seq<nat>, draws: seq<nat>) returns (r: Option<seq<nat>>, ghost f: seq<nat>)
    requires b != [] && Below(draws, |b|)
    ensures Ordered(b, f) && Injective(f)
    ensures r.None? <==> exists k: nat :: Overflows(f, draws, k)
    ensures r.Some? ==> r.value == Reading(b, f)
    ensures |b| < 150_000 ==> r.Some?
    ensures r.None? ==> exists k: nat :: k < |f| && Drawn(draws, k) && |Block(f, draws, k)| >= 150_000
    ensures Decodes(b, draws, r)
  {
    var links, flags, start;
    links, flags, start, f := MarkedLinks(b, draws);
    var heads := PackHeads(flags);
    HeadsFlagged(f, draws, flags, heads);
    hide Overflows, Orbit, Ordered, Below, LinksAre, HeadsAre;
    var blocks := FollowAll(links, heads, b, f, draws);
    if blocks.None? {
      DecodesIs(b, draws, f, None);
      ghost var k := LongBlock(f, draws);
      return None, f;
    }
    var res := JoinBlocks(heads, blocks.value, start, |b|, b, f, draws);
    assert res[..|res| - 1] == Spelled(b, f, Orbit(f)[..|Orbit(f)| - 1]);
    r := Some(res[..|res| - 1]);
    DecodesIs(b, draws, f, r);
  }

  lemma LongBlock(f: seq<nat>, draws: seq<nat>) returns (k: nat)
    requires exists k: nat :: Overflows(f, draws, k)
    ensures Injective(f) && 150_000 <= |f| && k < |f| && Drawn(draws, k) && |Block(f, draws, k)| >= 150_000
  {
    k :| Overflows(f, draws, k);
    DistinctFits(Block(f, draws, k), |f|);
  }

  lemma HeadsFlagged(f: seq<nat>, draws: seq<nat>, flags: seq<bool>, heads: seq<nat>)
    requires Injective(f) && |flags| == |f| && Distinct(heads)
    requires forall k :: 0 <= k < |f| ==> (flags[f[k]] <==> Drawn(draws, k))
    requires forall x: nat :: x in heads <==> x < |flags| && flags[x]
    ensures HeadsAre(f, draws, heads)
  {
    forall i | 0 <= i < |heads| ensures heads[i] < |f| {
      assert heads[i] in heads;
    }
  }

  // ---------- what decoding undoes ----------

  /** The order of the places from the one after the null around to it. */
  ghost function Walk(isa: seq<nat>): (R: seq<nat>)
    requires |isa| > 0
  {
    seq(|isa|, w requires 0 <= w < |isa| => isa[Succ(w, |isa|)])
  }

  /** Following the successor map of the suffix order from the null visits the text once around. */
  lemma WalkIsOrbit(s: seq<nat>, sa: seq<nat>, isa: seq<nat>)
    requires TextBytes(s) && IsSuffixArray(Padded(s), sa) && Inverse(sa, isa)
    ensures Injective(Follow(sa, isa)) && Walk(isa) == Orbit(Follow(sa, isa))
  {
    var n, f, R := |isa|, Follow(sa, isa), Walk(isa);
    NullIsFirst(s, sa, isa);
    assert Chained(f, R) && R[n - 1] == 0;
    BlockIsUnique(f, [], 0, R);
  }

  /** The character met at a place of the walk. */
  lemma WalkReads(s: seq<nat>, sa: seq<nat>, isa: seq<nat>, b: seq<nat>, i: nat)
    requires TextBytes(s) && Encodes(s, sa, b) && Inverse(sa, isa) && i < |s|
    ensures |b| == |sa| == |isa| == |s| + 1 && Walk(isa)[i] < |sa| && Follow(sa, isa)[Walk(isa)[i]] < |b|
    ensures b[Follow(sa, isa)[Walk(isa)[i]]] == s[i]
  {
    var n, p := |sa|, Succ(i, |sa|);
    assert sa[isa[p]] == p && sa[isa[Succ(p, n)]] == Succ(p, n);
    assert b[isa[Succ(p, n)]] == Padded(s)[p];
  }

  /** Decoding a transform gives the text. */
  lemma TransformReads(s: seq<nat>, sa: seq<nat>, b: seq<nat>, f: seq<nat>)
    requires TextBytes(s) && Encodes(s, sa, b) && Ordered(b, f) && Injective(f)
    ensures Reading(b, f) == s
  {
    SuffixArrayDistinct(Padded(s), sa);
    var isa := InverseOf(sa);
    var n, g := |sa|, Follow(sa, isa);
    FollowIsOrdered(s, sa, isa, b);
    OrderIsUnique(b, f, g, n);
    assert f == f[..n] == g[..n] == g;
    WalkIsOrbit(s, sa, isa);
    assert |Reading(b, f)| == |s|;
    hide Inverse, Ordered, TextBytes, Orbit, Follow, Walk, Injective;
    forall i | 0 <= i < |s| ensures Reading(b, f)[i] == s[i] {
      WalkReads(s, sa, isa, b, i);
    }
  }

  /** What reading s back says of the links: p is the place of suffix isa[p], whose link leads to that
      of the next suffix and carries its first character. */
  ghost predicate Threads(s: seq<nat>, b: seq<nat>, f: seq<nat>, isa: seq<nat>) {
    var n := |s| + 1;
    && |b| == |f| == |isa| == n && Injective(f) && Injective(isa) && isa[0] == 0
    && forall p :: 0 <= p < n ==> f[isa[p]] == isa[Succ(p, n)] && b[f[isa[p]]] == Padded(s)[p]
  }

  /** The steps of the orbit, around to its start. */
  lemma OrbitSteps(f: seq<nat>, i: nat)
    requires Injective(f) && |f| > 0 && i < |Orbit(f)|
    ensures Injective(Orbit(f)) || |Orbit(f)| < |f|
    ensures var R := Orbit(f);
      R[i] < |f| && R[|R| - 1] == 0 && f[R[i]] == if i + 1 < |R| then R[i + 1] else R[0]
  {
  }

  lemma ReadingAt(b: seq<nat>, f: seq<nat>, i: nat)
    requires Injective(f) && |f| == |b| > 0 && i + 1 < |Orbit(f)|
    ensures |Reading(b, f)| == |Orbit(f)| - 1 && Orbit(f)[i] < |f| && f[Orbit(f)[i]] < |b|
    ensures Reading(b, f)[i] == b[f[Orbit(f)[i]]]
  {
  }

  lemma ReadingThreads(s: seq<nat>, b: seq<nat>, f: seq<nat>) returns (isa: seq<nat>)
    requires |b| == |s| + 1 && 0 in b && Ordered(b, f) && Injective(f) && Reading(b, f) == s
    ensures Threads(s, b, f, isa)
  {
    var n, R := |b|, Orbit(f);
    assert |R| == n;
    OrbitSteps(f, n - 1);
    isa := [0] + R[..n - 1];
    assert Injective(isa);
    NullIsLeast(b, f);
    hide Ordered, Injective, Orbit, Reading;
    forall p | 0 <= p < n
      ensures isa[p] < |f| && f[isa[p]] < |b| && f[isa[p]] == isa[Succ(p, n)] && b[f[isa[p]]] == Padded(s)[p]
    {
      if p == 0 {
        OrbitSteps(f, n - 1);
      } else {
        OrbitSteps(f, p - 1);
        ReadingAt(b, f, p - 1);
      }
    }
  }

  lemma NullIsLeast(b: seq<nat>, f: seq<nat>)
    requires Ordered(b, f) && Injective(f) && 0 in b
    ensures b[f[0]] == 0
  {
    DistinctCovers(f, |b|);
    var x :| 0 <= x < |b| && b[x] == 0;
    assert x in f;
    var k :| 0 <= k < |f| && f[k] == x;
    assert k > 0 ==> Before(b, f[0], f[k]);
  }

  /** One step along the links. */
  lemma ThreadAt(s: seq<nat>, b: seq<nat>, f: seq<nat>, isa: seq<nat>, p: nat)
    requires TextBytes(s) && Threads(s, b, f, isa) && p <= |s|
    ensures |b| == |f| == |isa| == |s| + 1 && isa[p] < |s| + 1 && f[isa[p]] < |s| + 1
    ensures f[isa[p]] == (if p < |s| then isa[p + 1] else 0) && b[f[isa[p]]] == Padded(s)[p]
    ensures Padded(s)[p] == 0 <==> p == 0
  {
  }

  /** A first character in front of both leaves the order. */
  lemma LessExtends(ss: seq<nat>, p: nat, q: nat)
    requires p < |ss| && q < |ss| && ss[p] == ss[q] && SuffixLess(ss, p + 1, q + 1)
    ensures SuffixLess(ss, p, q)
  {
    var l: nat :| SmallerAt(ss, p + 1, q + 1, l);
    forall i | 0 <= i < l + 1 ensures Same(ss, p, q, i) {
      assert i > 0 ==> Same(ss, p + 1, q + 1, i - 1);
    }
    assert SmallerAt(ss, p, q, l + 1);
  }

  lemma FirstDiffers(ss: seq<nat>, p: nat, q: nat)
    requires p < |ss| && q < |ss| && ss[p] < ss[q]
    ensures SuffixLess(ss, p, q)
  {
    assert SmallerAt(ss, p, q, 0);
  }

  lemma EndsFirst(ss: seq<nat>, p: nat, q: nat)
    requires p + 1 == |ss| && q + 1 < |ss| && ss[p] == ss[q]
    ensures SuffixLess(ss, p, q)
  {
    assert Same(ss, p, q, 0);
    assert SmallerAt(ss, p, q, 1);
  }

  /** The order of two places is that of the characters, or of the places one further. */
  lemma PlacesCompare(s: seq<nat>, b: seq<nat>, f: seq<nat>, isa: seq<nat>, p: nat, q: nat)
    requires TextBytes(s) && Threads(s, b, f, isa) && Ordered(b, f)
    requires p <= |s| && q <= |s| && |isa| == |s| + 1 && isa[p] < isa[q]
    ensures q == |s| ==> Padded(s)[p] < Padded(s)[q]
    ensures Padded(s)[p] < Padded(s)[q]
      || (Padded(s)[p] == Padded(s)[q] && (p < |s| && q < |s| ==> isa[p + 1] < isa[q + 1]))
  {
    ThreadAt(s, b, f, isa, p);
    ThreadAt(s, b, f, isa, q);
    assert Before(b, f[isa[p]], f[isa[q]]);
  }

  /** The places are in the order of the suffixes. */
  lemma {:induction false} PlacesAreRanks(s: seq<nat>, b: seq<nat>, f: seq<nat>, isa: seq<nat>, p: nat, q: nat)
    requires TextBytes(s) && Threads(s, b, f, isa) && Ordered(b, f)
    requires p <= |s| && q <= |s| && |isa| == |s| + 1 && isa[p] < isa[q]
    ensures SuffixLess(Padded(s), p, q)
    decreases |s| - p
  {
    hide Threads, Ordered, TextBytes, SuffixLess;
    PlacesCompare(s, b, f, isa, p, q);
    var ss := Padded(s);
    if ss[p] < ss[q] {
      FirstDiffers(ss, p, q);
    } else if p == |s| {
      EndsFirst(ss, p, q);
    } else {
      PlacesAreRanks(s, b, f, isa, p + 1, q + 1);
      LessExtends(ss, p, q);
    }
  }

  lemma TransformAt(s: seq<nat>, b: seq<nat>, f: seq<nat>, isa: seq<nat>, sa: seq<nat>, i: nat)
    requires TextBytes(s) && Threads(s, b, f, isa) && Inverse(isa, sa) && i < |b|
    ensures |sa| == |s| + 1 && Below(sa, |sa|) && b[i] == Transform(Padded(s), sa)[i]
  {
    hide Threads, TextBytes, Injective, Inverse, Below, Distinct;
    InverseFits(isa, sa);
    ThreadAt(s, b, f, isa, 0);
    var k := LinkedFrom(s, b, f, isa, i);
    InverseAt(isa, sa, k);
    ThreadAt(s, b, f, isa, sa[k]);
    InverseAt(isa, sa, Succ(sa[k], |s| + 1));
    InverseAt(isa, sa, i);
  }

  lemma LinkedFrom(s: seq<nat>, b: seq<nat>, f: seq<nat>, isa: seq<nat>, i: nat) returns (k: nat)
    requires Threads(s, b, f, isa) && i < |b|
    ensures k < |f| && f[k] == i && isa[0] == 0
  {
    DistinctCovers(f, |b|);
    assert i in f;
    k :| 0 <= k < |f| && f[k] == i;
  }

  /** Only a transform decodes to the text. */
  lemma ReadingIsTransform(s: seq<nat>, b: seq<nat>, f: seq<nat>)
    requires TextBytes(s) && |b| == |s| + 1 && 0 in b && Ordered(b, f) && Injective(f) && Reading(b, f) == s
    ensures IsTransform(s, b)
  {
    var isa := ReadingThreads(s, b, f);
    var ss, n, sa := Padded(s), |b|, InverseOf(isa);
    hide Threads, Ordered, TextBytes, Reading, SuffixLess, Transform;
    forall k, m | 0 <= k < m < n ensures SuffixLess(ss, sa[k], sa[m]) {
      PlacesAreRanks(s, b, f, isa, sa[k], sa[m]);
    }
    forall i | 0 <= i < n ensures b[i] == Transform(ss, sa)[i] {
      TransformAt(s, b, f, isa, sa, i);
    }
    TransformLength(ss, sa);
    assert b == Transform(ss, sa);
    assert Encodes(s, sa, b);
  }

  lemma TransformLength(ss: seq<nat>, sa: seq<nat>)
    requires |sa| == |ss| > 0 && Below(sa, |ss|)
    ensures |Transform(ss, sa)| == |ss|
  {
  }

  // ---------- the round trip ----------

  /** The order of the suffixes and that of the renumbered ones give the text the same transform. */
  ghost predicate OrdersCoincide(s: seq<nat>) {
    exists sa, sb :: BothOrders(s, sa, sb) && Transform(Padded(s), sa) == Transform(Padded(s), sb)
  }

  ghost predicate BothOrders(s: seq<nat>, sa: seq<nat>, sb: seq<nat>) {
    IsSuffixArray(Padded(s), sa) && IsSuffixArray(Renumbered(s), sb)
  }

  /** A string has one suffix array. */
  lemma {:induction false} OneSuffixArray(ss: seq<nat>, sa: seq<nat>, sb: seq<nat>, k: nat)
    requires IsSuffixArray(ss, sa) && IsSuffixArray(ss, sb) && k <= |ss|
    ensures sa[..k] == sb[..k]
  {
    if k > 0 {
      OneSuffixArray(ss, sa, sb, k - 1);
      var x, y := sa[k - 1], sb[k - 1];
      SuffixArrayDistinct(ss, sa);
      SuffixArrayDistinct(ss, sb);
      DistinctCovers(sa, |ss|);
      DistinctCovers(sb, |ss|);
      assert y in sa && x in sb;
      var i :| 0 <= i < |sa| && sa[i] == y;
      var j :| 0 <= j < |sb| && sb[j] == x;
      forall u | 0 <= u < k - 1 ensures sa[u] == sb[u] {
        assert sa[..k - 1][u] == sb[..k - 1][u];
      }
      assert k - 1 <= i && k - 1 <= j;
      if x != y {
        SuffixLessAsymmetric(ss, x, y);
      }
    }
  }

  /** The code is the text's transform exactly if the two orders coincide on it. */
  lemma CodeIsTransform(s: seq<nat>, sb: seq<nat>)
    requires IsSuffixArray(Renumbered(s), sb)
    ensures IsTransform(s, Transform(Padded(s), sb)) <==> OrdersCoincide(s)
  {
    var b := Transform(Padded(s), sb);
    if IsTransform(s, b) {
      var sa :| Encodes(s, sa, b);
      assert BothOrders(s, sa, sb);
    }
    if OrdersCoincide(s) {
      var sa, sb' :| BothOrders(s, sa, sb') && Transform(Padded(s), sa) == Transform(Padded(s), sb');
      OneSuffixArray(Renumbered(s), sb, sb', |sb|);
      assert sb[..|sb|] == sb && sb'[..|sb'|] == sb';
      assert Encodes(s, sa, b);
    }
  }

  /** Decoding undoes encoding exactly if the two orders coincide on the text, as they do when some byte
      value does not occur; whatever the draws, unless the text is long and some block fills its buffer. */
  method RoundTrip(s: seq<nat>, draws: seq<nat>) returns (r: Option<seq<nat>>, b: Option<seq<nat>>, ghost f: seq<nat>)
    requires TextBytes(s) && |s| < SuffixArray.LOW && Below(draws, |s| + 1)
    ensures b.None? <==> NeverSorted(s)
    ensures b.None? ==> r.None?
    ensures b.Some? ==> Ordered(b.value, f) && (r.None? <==> exists k: nat :: Overflows(f, draws, k))
    ensures r.Some? ==> (r.value == s <==> OrdersCoincide(s))
    ensures r.None? && b.Some? ==>
      |s| + 1 >= 150_000 && Injective(f)
      && exists k: nat :: k < |f| && Drawn(draws, k) && |Block(f, draws, k)| >= 150_000
    ensures |s| + 1 < 150_000 && !SuffixArray.AllBytes(Padded(s)) ==> r == Some(s)
    ensures |s| + 1 < 150_000 ==> (r == Some(s) <==> OrdersCoincide(s) && !NeverSorted(s))
    ensures !SuffixArray.AllBytes(Padded(s)) ==> OrdersCoincide(s)
  {
    hide Overflows, Ordered, IsTransform, Below, Distinct, Reading, OrdersCoincide, NeverSorted, SuffixArray.AllBytes,
      Transform, IsSuffixArray;
    ghost var sa;
    b, sa := Encode(s);
    r, f := None, [];
    if b.Some? {
      CodeHasNull(s, sa);
      CodeIsTransform(s, sa);
      r, f := Decode(b.value, draws);
      assert |b.value| == |s| + 1;
      Exactly(s, b.value, f);
    } else {
      NeverSortedHasAll(s);
    }
  }

  lemma NeverSortedHasAll(s: seq<nat>)
    requires NeverSorted(s)
    ensures SuffixArray.AllBytes(Padded(s))
  {
  }

  lemma CodeHasNull(s: seq<nat>, sa: seq<nat>)
    requires IsSuffixArray(Renumbered(s), sa)
    ensures |sa| == |s| + 1 && Below(sa, |sa|)
    ensures |Transform(Padded(s), sa)| == |s| + 1 && 0 in Transform(Padded(s), sa)
  {
    SuffixArrayDistinct(Renumbered(s), sa);
    TransformHasNull(s, sa);
  }

  lemma Exactly(s: seq<nat>, b: seq<nat>, f: seq<nat>)
    requires TextBytes(s) && |b| == |s| + 1 && 0 in b && Ordered(b, f) && Injective(f)
    ensures Reading(b, f) == s <==> IsTransform(s, b)
  {
    if IsTransform(s, b) {
      var sa :| Encodes(s, sa, b);
      TransformReads(s, sa, b, f);
    } else if Reading(b, f) == s {
      ReadingIsTransform(s, b, f);
    }
  }
}
