/** When byte 255 is sorted below the other bytes: for which texts the transform comes out right all the
    same.  Never if byte 255 is rare, yet for some texts it does. */
module WrappedOrder {
  import opened BurrowsWheeler
  import opened Permutations
  import opened Suffixes
  import SuffixArray

  // ---------- counting ----------

  /** An injection shows that its domain is no larger. */
  lemma {:induction false} InjectionFits(xs: set<nat>, ys: set<nat>, f: map<nat, nat>)
    requires forall x :: x in xs ==> x in f && f[x] in ys
    requires forall x, y :: x in xs && y in xs && f[x] == f[y] ==> x == y
    ensures |xs| <= |ys|
  {
    if xs != {} {
      var x :| x in xs;
      InjectionFits(xs - {x}, ys - {f[x]}, f);
    }
  }

  lemma SubsetFits(xs: set<nat>, ys: set<nat>)
    requires xs <= ys
    ensures |xs| <= |ys|
  {
    assert xs + (ys - xs) == ys;
  }

  ghost function Block(u: seq<nat>, c: nat): set<nat> {
    set p | 0 <= p < |u| && u[p] == c
  }

  lemma {:induction false} BlockCounts(u: seq<nat>, c: nat)
    ensures |Block(u, c)| == multiset(u)[c]
  {
    if u == [] {
      assert Block(u, c) == {};
    } else {
      var last := |u| - 1;
      var front := u[..last];
      BlockCounts(front, c);
      assert u == front + [u[last]];
      assert Block(u, c) == Block(front, c) + if u[last] == c then {last} else {};
    }
  }

  // ---------- the ranks of the suffixes ----------

  ghost predicate Sized(u: seq<nat>, A: seq<nat>) {
    |A| == |u| && Below(A, |u|) && Distinct(A)
  }

  /** What is needed of the ranks in a suffix order: first characters decide, then the next suffixes, and
      the last suffix is the least of its kind. */
  ghost predicate Ranks(u: seq<nat>, A: seq<nat>)
    requires Sized(u, A)
  {
    && (forall p, q :: 0 <= p < |u| && 0 <= q < |u| && u[p] < u[q] ==> A[p] < A[q])
    && (forall p, q :: 0 <= p < |u| - 1 && 0 <= q < |u| - 1 && u[p] == u[q] && A[p] < A[q] ==> A[p + 1] < A[q + 1])
    && forall p :: 0 <= p < |u| - 1 && u[p] == u[|u| - 1] ==> A[|u| - 1] < A[p]
  }

  lemma FirstDecides(u: seq<nat>, A: seq<nat>, p: nat, q: nat)
    requires Sized(u, A) && Ranks(u, A) && p < |u| && q < |u|
    ensures u[p] < u[q] ==> A[p] < A[q]
    ensures A[p] < A[q] ==> u[p] <= u[q]
  {
  }

  lemma NextDecides(u: seq<nat>, A: seq<nat>, p: nat, q: nat)
    requires Sized(u, A) && Ranks(u, A) && p + 1 < |u| && q + 1 < |u| && u[p] == u[q]
    ensures A[p] < A[q] <==> A[p + 1] < A[q + 1]
  {
    if A[p] < A[q] {
      assert A[p + 1] < A[q + 1];
    } else if A[q] < A[p] {
      assert A[q + 1] < A[p + 1];
    }
  }

  lemma LastIsLeast(u: seq<nat>, A: seq<nat>, p: nat)
    requires Sized(u, A) && Ranks(u, A) && p + 1 < |u| && u[p] == u[|u| - 1]
    ensures A[|u| - 1] < A[p]
  {
  }

  lemma RankOrder(u: seq<nat>, sa: seq<nat>, A: seq<nat>, p: nat, q: nat)
    requires IsSuffixArray(u, sa) && Inverse(sa, A) && p < |u| && q < |u| && A[p] < A[q]
    ensures SuffixLess(u, p, q) && u[p] <= u[q]
    ensures u[p] == u[q] ==> q + 1 < |u| && (p + 1 < |u| ==> SuffixLess(u, p + 1, q + 1))
  {
    assert sa[A[p]] == p && sa[A[q]] == q;
    StepFurther(u, p, q);
  }

  lemma InverseDiffers(sa: seq<nat>, A: seq<nat>, p: nat, q: nat)
    requires Inverse(sa, A) && p < |A| && q < |A| && p != q
    ensures A[p] != A[q]
  {
    assert sa[A[p]] == p && sa[A[q]] == q;
  }

  lemma LessBothWays(u: seq<nat>, sa: seq<nat>, A: seq<nat>, p: nat, q: nat)
    requires IsSuffixArray(u, sa) && Inverse(sa, A) && p < |u| && q < |u| && SuffixLess(u, p, q)
    ensures A[p] < A[q]
  {
    SuffixLessIrreflexive(u, p);
    SuffixLessAsymmetric(u, p, q);
    if p != q {
      InverseDiffers(sa, A, p, q);
    }
    if A[q] < A[p] {
      RankOrder(u, sa, A, q, p);
    }
  }

  /** The places in a suffix array are such ranks. */
  lemma SuffixRanks(u: seq<nat>, sa: seq<nat>, A: seq<nat>)
    requires IsSuffixArray(u, sa) && Inverse(sa, A)
    ensures Sized(u, A) && Ranks(u, A)
  {
    hide IsSuffixArray, SuffixLess, Inverse, Sized;
    InverseSized(u, sa, A);
    var n := |u|;
    assert |A| == n by { SizedLength(u, A); }
    forall p, q | 0 <= p < n && 0 <= q < n && u[p] < u[q] ensures A[p] < A[q] {
      FirstsInOrder(u, sa, A, p, q);
    }
    forall p, q | 0 <= p < n - 1 && 0 <= q < n - 1 && u[p] == u[q] && A[p] < A[q] ensures A[p + 1] < A[q + 1] {
      NextInOrder(u, sa, A, p, q);
    }
    forall p | 0 <= p < n - 1 && u[p] == u[n - 1] ensures A[n - 1] < A[p] {
      LastInOrder(u, sa, A, p);
    }
  }

  lemma InverseSized(u: seq<nat>, sa: seq<nat>, A: seq<nat>)
    requires IsSuffixArray(u, sa) && Inverse(sa, A)
    ensures Sized(u, A)
  {
    hide SuffixLess;
    assert |A| == |u|;
    assert Below(A, |u|);
    hide Inverse, Below, IsSuffixArray;
    forall p, q | 0 <= p < q < |A| ensures A[p] != A[q] {
      InverseDiffers(sa, A, p, q);
    }
  }

  lemma SizedLength(u: seq<nat>, A: seq<nat>)
    requires Sized(u, A)
    ensures |A| == |u|
  {
  }

  lemma NextInOrder(u: seq<nat>, sa: seq<nat>, A: seq<nat>, p: nat, q: nat)
    requires IsSuffixArray(u, sa) && Inverse(sa, A) && p + 1 < |u| && q + 1 < |u| && u[p] == u[q] && A[p] < A[q]
    ensures A[p + 1] < A[q + 1]
  {
    RankOrder(u, sa, A, p, q);
    LessBothWays(u, sa, A, p + 1, q + 1);
  }

  lemma FirstsInOrder(u: seq<nat>, sa: seq<nat>, A: seq<nat>, p: nat, q: nat)
    requires IsSuffixArray(u, sa) && Inverse(sa, A) && p < |u| && q < |u| && u[p] < u[q]
    ensures A[p] < A[q]
  {
    assert SmallerAt(u, p, q, 0);
    LessBothWays(u, sa, A, p, q);
  }

  lemma LastInOrder(u: seq<nat>, sa: seq<nat>, A: seq<nat>, p: nat)
    requires IsSuffixArray(u, sa) && Inverse(sa, A) && p + 1 < |u| && u[p] == u[|u| - 1]
    ensures A[|u| - 1] < A[p]
  {
    var last := |u| - 1;
    assert Same(u, last, p, 0);
    assert SmallerAt(u, last, p, 1);
    LessBothWays(u, sa, A, last, p);
  }

  /** The suffixes that begin like p and come before it. */
  ghost function Under(u: seq<nat>, A: seq<nat>, p: nat): set<nat>
    requires |A| == |u| && p < |u|
  {
    set q | 0 <= q < |u| && u[q] == u[p] && A[q] < A[p]
  }

  ghost function Lower(u: seq<nat>, c: nat): set<nat> {
    set q | 0 <= q < |u| && u[q] < c
  }

  /** As many suffixes come before p as its rank says. */
  lemma RankIsCount(A: seq<nat>, p: nat, below: set<nat>)
    requires Below(A, |A|) && Distinct(A) && p < |A|
    requires forall q :: q in below <==> 0 <= q < |A| && A[q] < A[p]
    ensures |below| == A[p]
  {
    var sa := InverseOf(A);
    hide Below, Distinct, Inverse;
    RankDown(A, sa, p, below, map q | 0 <= q < |A| :: A[q]);
    RankUp(A, sa, p, below);
  }

  lemma RankDown(A: seq<nat>, sa: seq<nat>, p: nat, below: set<nat>, there: map<nat, nat>)
    requires Inverse(A, sa) && p < |A|
    requires forall q :: q in below <==> 0 <= q < |A| && A[q] < A[p]
    requires there == map q | 0 <= q < |A| :: A[q]
    ensures |below| <= A[p]
  {
    hide Inverse;
    forall x, y | x in below && y in below && there[x] == there[y] ensures x == y {
      InverseAt(A, sa, x);
      InverseAt(A, sa, y);
    }
    InjectionFits(below, Range(A[p]), there);
  }

  lemma RankUp(A: seq<nat>, sa: seq<nat>, p: nat, below: set<nat>)
    requires Inverse(A, sa) && p < |A|
    requires forall q :: q in below <==> 0 <= q < |A| && A[q] < A[p]
    ensures |below| >= A[p]
  {
    InverseAt(A, sa, p);
    hide Inverse;
    var back := map y | 0 <= y < |sa| :: sa[y];
    forall y | y in Range(A[p]) ensures y in back && back[y] in below {
      InverseAt(A, sa, y);
    }
    forall x, y | x in Range(A[p]) && y in Range(A[p]) && back[x] == back[y] ensures x == y {
      InverseAt(A, sa, x);
      InverseAt(A, sa, y);
    }
    InjectionFits(Range(A[p]), below, back);
  }

  /** They begin with a smaller character, or alike. */
  lemma RankCounts(u: seq<nat>, A: seq<nat>, p: nat)
    requires Sized(u, A) && Ranks(u, A) && p < |u|
    ensures A[p] == |Lower(u, u[p])| + |Under(u, A, p)|
  {
    hide Ranks;
    var below := Lower(u, u[p]) + Under(u, A, p);
    forall q | 0 <= q < |u| ensures q in below <==> A[q] < A[p] {
      FirstDecides(u, A, q, p);
    }
    RankIsCount(A, p, below);
    assert Lower(u, u[p]) !! Under(u, A, p);
  }

  // ---------- two orders with one transform ----------

  /** The padded text, its ranks in both orders, and the transform that both give. */
  datatype Twice = Twice(ss: seq<nat>, A: seq<nat>, B: seq<nat>, b: seq<nat>)

  function Wrap(ss: seq<nat>): (t: seq<nat>)
    ensures |t| == |ss|
  {
    seq(|ss|, p requires 0 <= p < |ss| => (ss[p] + 1) % 256)
  }

  ghost predicate Both(x: Twice) {
    |x.b| == |x.ss| >= 2 && Sized(x.ss, x.A) && Sized(x.ss, x.B)
  }

  ghost predicate OneTransform(x: Twice)
    requires Both(x)
  {
    var n := |x.ss|;
    && Ranks(x.ss, x.A) && Ranks(Wrap(x.ss), x.B)
    && x.ss[0] == 0 && (forall p :: 0 < p < n ==> 0 < x.ss[p] < 256)
    && forall p :: 0 <= p < n ==> Follows(x, p)
  }

  /** The transform has the character of p at the ranks of the next suffix, around the end. */
  ghost predicate Follows(x: Twice, p: nat)
    requires Both(x) && p < |x.ss|
  {
    x.b[x.A[Succ(p, |x.ss|)]] == x.ss[p] == x.b[x.B[Succ(p, |x.ss|)]]
  }

  lemma Letters(x: Twice, p: nat)
    requires Both(x) && OneTransform(x) && p < |x.ss|
    ensures x.ss[p] < 256 && (x.ss[p] == 0 <==> p == 0) && Follows(x, p)
  {
  }

  lemma WrapKeepsLetters(ss: seq<nat>, p: nat, q: nat)
    requires p < |ss| && q < |ss| && ss[p] < 256 && ss[q] < 256
    ensures Wrap(ss)[p] == Wrap(ss)[q] <==> ss[p] == ss[q]
    ensures Wrap(ss)[p] < Wrap(ss)[q] <==> ss[q] != 255 && (ss[p] == 255 || ss[p] < ss[q])
  {
  }

  ghost function Top(x: Twice): set<nat> {
    Block(x.ss, 255)
  }

  lemma RanksOf(x: Twice)
    requires Both(x) && OneTransform(x)
    ensures Ranks(x.ss, x.A) && Ranks(Wrap(x.ss), x.B)
  {
  }

  lemma WrapOrder(x: Twice, p: nat, q: nat)
    requires Both(x) && OneTransform(x) && p < |x.ss| && q < |x.ss| && x.ss[p] < 255
    ensures Wrap(x.ss)[q] == Wrap(x.ss)[p] <==> x.ss[q] == x.ss[p]
    ensures Wrap(x.ss)[q] < Wrap(x.ss)[p] <==> x.ss[q] == 255 || x.ss[q] < x.ss[p]
  {
    Letters(x, q);
    WrapKeepsLetters(x.ss, q, p);
  }

  /** How far the second order moves a suffix: by the number of the 255s that come first now, and within its
      block. */
  lemma Moved(x: Twice, p: nat)
    requires Both(x) && OneTransform(x) && p < |x.ss| && x.ss[p] < 255
    ensures x.B[p] + |Under(x.ss, x.A, p)| == x.A[p] + |Top(x)| + |Under(x.ss, x.B, p)|
  {
    var ss, t := x.ss, Wrap(x.ss);
    RanksOf(x);
    hide Ranks, OneTransform, Wrap, Distinct, Below;
    RankCounts(ss, x.A, p);
    assert Sized(t, x.B);
    RankCounts(t, x.B, p);
    forall q | 0 <= q < |ss|
      ensures t[q] == t[p] <==> ss[q] == ss[p]
      ensures t[q] < t[p] <==> ss[q] == 255 || ss[q] < ss[p]
    {
      WrapOrder(x, p, q);
    }
    hide Both;
    SameUnder(ss, t, x.B, p);
    LowerWraps(ss, t, p);
  }

  lemma SameUnder(ss: seq<nat>, t: seq<nat>, B: seq<nat>, p: nat)
    requires |t| == |ss| == |B| && p < |ss| && forall q :: 0 <= q < |ss| ==> (t[q] == t[p] <==> ss[q] == ss[p])
    ensures Under(t, B, p) == Under(ss, B, p)
  {
  }

  lemma LowerWraps(ss: seq<nat>, t: seq<nat>, p: nat)
    requires |t| == |ss| && p < |ss| && ss[p] < 255
    requires forall q :: 0 <= q < |ss| ==> (t[q] < t[p] <==> ss[q] == 255 || ss[q] < ss[p])
    ensures |Lower(t, t[p])| == |Block(ss, 255)| + |Lower(ss, ss[p])|
  {
    assert Lower(t, t[p]) == Block(ss, 255) + Lower(ss, ss[p]);
    assert Block(ss, 255) !! Lower(ss, ss[p]);
  }

  /** The places before y with character c in the transform. */
  ghost function Occurs(b: seq<nat>, c: nat, y: nat): set<nat>
    requires y <= |b|
  {
    set i | 0 <= i < y && b[i] == c
  }

  lemma SuccDiffers(p: nat, q: nat, n: nat)
    requires p < n && q < n && Succ(p, n) == Succ(q, n)
    ensures p == q
  {
  }

  lemma PredSucc(p: nat, n: nat)
    requires p < n
    ensures Pred(p, n) < n && Succ(Pred(p, n), n) == p
  {
  }

  lemma NextUnder(x: Twice, p: nat, q: nat)
    requires Both(x) && OneTransform(x) && p + 1 < |x.ss| && q in Under(x.ss, x.A, p)
    ensures x.A[Succ(q, |x.ss|)] in Occurs(x.b, x.ss[p], x.A[p + 1])
  {
    hide Ranks;
    RanksOf(x);
    Letters(x, q);
    hide OneTransform;
    if q + 1 < |x.ss| {
      NextDecides(x.ss, x.A, q, p);
    } else {
      Letters(x, 0);
      Letters(x, p + 1);
      FirstDecides(x.ss, x.A, 0, p + 1);
    }
  }

  /** In the first order the suffixes before one of their kind precede, in the transform, what follows it. */
  lemma UnderOccurs(x: Twice, p: nat)
    requires Both(x) && OneTransform(x) && p + 1 < |x.ss|
    ensures |Under(x.ss, x.A, p)| <= |Occurs(x.b, x.ss[p], x.A[p + 1])|
  {
    hide OneTransform;
    var n, us := |x.ss|, Under(x.ss, x.A, p);
    var f := map q | 0 <= q < n :: x.A[Succ(q, n)];
    forall q | q in us ensures f[q] in Occurs(x.b, x.ss[p], x.A[p + 1]) {
      NextUnder(x, p, q);
    }
    forall q, r | q in us && r in us && f[q] == f[r] ensures q == r {
      SuccDiffers(q, r, n);
    }
    InjectionFits(us, Occurs(x.b, x.ss[p], x.A[p + 1]), f);
  }

  lemma BeforeNext(x: Twice, p: nat, q: nat)
    requires Both(x) && OneTransform(x) && p + 1 < |x.ss| && q < |x.ss| && x.ss[q] == x.ss[p]
    requires x.B[Succ(q, |x.ss|)] < x.B[p + 1]
    ensures q in Under(x.ss, x.B, p)
  {
    hide OneTransform, Ranks, Wrap, Distinct, Below;
    RanksOf(x);
    Letters(x, p);
    Letters(x, q);
    WrapKeepsLetters(x.ss, q, p);
    if q + 1 < |x.ss| {
      NextDecides(Wrap(x.ss), x.B, q, p);
    } else {
      LastIsLeast(Wrap(x.ss), x.B, p);
    }
  }

  lemma PlaceUnder(x: Twice, sb: seq<nat>, p: nat, y: nat)
    requires Both(x) && OneTransform(x) && p + 1 < |x.ss| && Inverse(x.B, sb) && y in Occurs(x.b, x.ss[p], x.B[p + 1])
    ensures y < |sb| && Pred(sb[y], |x.ss|) in Under(x.ss, x.B, p)
  {
    assert x.B[p + 1] < |x.B| == |x.ss|;
    hide OneTransform, Under, Distinct, Below, Inverse, Pred;
    InverseAt(x.B, sb, y);
    PredSucc(sb[y], |x.ss|);
    Letters(x, Pred(sb[y], |x.ss|));
    BeforeNext(x, p, Pred(sb[y], |x.ss|));
  }

  /** In the second, what precedes it in the transform comes before it, or is the last suffix. */
  lemma OccursUnder(x: Twice, p: nat)
    requires Both(x) && OneTransform(x) && p + 1 < |x.ss|
    ensures |Occurs(x.b, x.ss[p], x.B[p + 1])| <= |Under(x.ss, x.B, p)|
  {
    hide OneTransform, Under, Pred;
    var n, sb, next := |x.ss|, InverseOf(x.B), x.B[p + 1];
    InverseAt(x.B, sb, 0);
    assert next <= |x.b|;
    hide Both, Inverse;
    var occ := Occurs(x.b, x.ss[p], next);
    var f := map y: nat | y < n :: Pred(sb[y], n);
    forall y | y in occ ensures y in f && f[y] in Under(x.ss, x.B, p) {
      PlaceUnder(x, sb, p, y);
    }
    forall y, z | y in occ && z in occ && f[y] == f[z] ensures y == z {
      SamePlace(x.B, sb, y, z);
    }
    InjectionFits(occ, Under(x.ss, x.B, p), f);
  }

  lemma SamePlace(B: seq<nat>, sb: seq<nat>, y: nat, z: nat)
    requires Inverse(B, sb) && y < |sb| && z < |sb| && Pred(sb[y], |sb|) == Pred(sb[z], |sb|)
    ensures y == z
  {
    hide Pred;
    InverseAt(B, sb, y);
    InverseAt(B, sb, z);
    PredSucc(sb[y], |sb|);
    PredSucc(sb[z], |sb|);
  }

  lemma OccursGrows(b: seq<nat>, c: nat, y: nat, z: nat)
    requires y < z <= |b| && b[y] == c
    ensures |Occurs(b, c, y)| < |Occurs(b, c, z)|
  {
    SubsetFits(Occurs(b, c, y) + {y}, Occurs(b, c, z));
  }

  /** A suffix that moved down within its block, or not at all, is followed by one that moved down, or not
      at all. */
  lemma NextMoves(x: Twice, p: nat)
    requires Both(x) && OneTransform(x) && p + 1 < |x.ss|
    ensures |Under(x.ss, x.B, p)| <= |Under(x.ss, x.A, p)| ==> x.B[p + 1] <= x.A[p + 1]
    ensures |Under(x.ss, x.B, p)| < |Under(x.ss, x.A, p)| ==> x.B[p + 1] < x.A[p + 1]
  {
    UnderOccurs(x, p);
    OccursUnder(x, p);
    Letters(x, p);
    hide OneTransform, Under;
    if x.A[p + 1] < x.B[p + 1] {
      OccursGrows(x.b, x.ss[p], x.A[p + 1], x.B[p + 1]);
    }
  }

  // ---------- drops and returns ----------

  /** A suffix that the second order ranks higher is followed by one that it does not. */
  ghost predicate Drop(x: Twice, p: nat) {
    && p + 1 < |x.ss| && p + 1 < |x.A| && p + 1 < |x.B|
    && x.ss[p] < 255 && x.A[p] < x.B[p] && x.B[p + 1] <= x.A[p + 1]
  }

  /** Once ranked no higher, the suffixes stay so up to the next 255. */
  lemma Falls(x: Twice, p: nat)
    requires Both(x) && OneTransform(x) && Top(x) != {} && p + 1 < |x.ss| && x.ss[p] < 255 && x.B[p] <= x.A[p]
    ensures x.B[p + 1] < x.A[p + 1]
  {
    hide OneTransform, Under;
    Moved(x, p);
    NextMoves(x, p);
  }

  /** The last of the suffixes with one character, in the first order: the second moves it down in its block
      if at all. */
  lemma LastOfBlock(x: Twice, p: nat)
    requires Both(x) && p < |x.ss| && forall q :: q in Block(x.ss, x.ss[p]) ==> x.A[q] <= x.A[p]
    ensures |Under(x.ss, x.A, p)| == |Block(x.ss, x.ss[p])| - 1
    ensures |Under(x.ss, x.B, p)| <= |Under(x.ss, x.A, p)|
  {
    var block := Block(x.ss, x.ss[p]);
    assert Under(x.ss, x.A, p) == block - {p};
    SubsetFits(Under(x.ss, x.B, p), block - {p});
  }

  lemma {:induction false} Greatest(A: seq<nat>, qs: set<nat>) returns (p: nat)
    requires qs != {} && forall q :: q in qs ==> q < |A|
    ensures p in qs && forall q :: q in qs ==> A[q] <= A[p]
  {
    p :| p in qs;
    if qs != {p} {
      var r := Greatest(A, qs - {p});
      p := if A[p] < A[r] then r else p;
    }
  }

  /** Before the first suffix of the second order stands what stands before that of the first: the last
      character, which so occurs elsewhere too. */
  lemma LastTwice(x: Twice) returns (q: nat)
    requires Both(x) && OneTransform(x) && Top(x) != {}
    ensures q + 1 < |x.ss| && x.ss[q] == x.ss[|x.ss| - 1]
  {
    var top :| top in Top(x);
    NullNotFirst(x, top);
    var first := FirstPlace(x.B);
    hide OneTransform, Distinct, Below, Pred;
    PredSucc(first, |x.ss|);
    q := Pred(first, |x.ss|);
    SameBefore(x, q);
    PredIsNotLast(first, |x.ss|);
  }

  lemma FirstPlace(B: seq<nat>) returns (p: nat)
    requires |B| > 0 && Below(B, |B|) && Distinct(B)
    ensures p < |B| && B[p] == 0
  {
    var sb := InverseOf(B);
    hide Below, Distinct, Inverse;
    InverseAt(B, sb, 0);
    p := sb[0];
  }

  lemma PredIsNotLast(p: nat, n: nat)
    requires 0 < p < n
    ensures Pred(p, n) + 1 < n
  {
  }

  lemma SameBefore(x: Twice, q: nat)
    requires Both(x) && OneTransform(x) && q < |x.ss| && x.B[Succ(q, |x.ss|)] == 0
    ensures x.ss[q] == x.ss[|x.ss| - 1]
  {
    hide OneTransform, Distinct, Below;
    NullIsFirstRank(x);
    Letters(x, q);
    Letters(x, |x.ss| - 1);
  }

  lemma NullNotFirst(x: Twice, top: nat)
    requires Both(x) && OneTransform(x) && top in Top(x)
    ensures x.B[top] < x.B[0]
  {
    RanksOf(x);
    Letters(x, 0);
    hide OneTransform, Distinct, Below, Ranks, Wrap;
    WrapOrder(x, 0, top);
    FirstDecides(Wrap(x.ss), x.B, top, 0);
  }

  lemma NullIsFirstRank(x: Twice)
    requires Both(x) && OneTransform(x)
    ensures x.A[0] == 0
  {
    hide OneTransform, Ranks, Distinct, Below;
    Letters(x, 0);
    RanksOf(x);
    RankCounts(x.ss, x.A, 0);
    forall q | 0 <= q < |x.ss| ensures q !in Under(x.ss, x.A, 0) {
      Letters(x, q);
    }
    assert Lower(x.ss, 0) == {} && Under(x.ss, x.A, 0) == {};
  }

  /** Such a suffix is not the last one. */
  lemma GreatestIsNotLast(x: Twice, p: nat)
    requires Both(x) && OneTransform(x) && Top(x) != {} && p < |x.ss|
    requires forall q :: q in Block(x.ss, x.ss[p]) ==> x.A[q] <= x.A[p]
    ensures p + 1 < |x.ss|
  {
    hide OneTransform, Ranks, Distinct, Below, Top;
    RanksOf(x);
    var q := LastTwice(x);
    LastIsLeast(x.ss, x.A, q);
    assert x.ss[q] == x.ss[p] ==> q in Block(x.ss, x.ss[p]);
  }

  /** A character no more frequent than 255 has a drop. */
  lemma RareDrops(x: Twice, c: nat) returns (p: nat)
    requires Both(x) && OneTransform(x) && c < 255 && 0 < |Block(x.ss, c)| <= |Top(x)|
    ensures Drop(x, p) && x.ss[p] == c
  {
    hide OneTransform, Under, Distinct, Below;
    p := Greatest(x.A, Block(x.ss, c));
    GreatestIsNotLast(x, p);
    LastOfBlock(x, p);
    Moved(x, p);
    NextMoves(x, p);
  }

  /** A 255 at which the suffixes may be ranked higher again: what follows it is, or it ends the text. */
  ghost predicate Returns(x: Twice, q: nat) {
    && q < |x.ss| == |x.A| == |x.B|
    && x.ss[q] == 255 && (q + 1 < |x.ss| ==> x.A[q + 1] < x.B[q + 1])
  }

  /** After a suffix ranked no higher there is a return, and up to it nothing is ranked higher. */
  lemma {:induction false} NextReturn(x: Twice, p: nat) returns (q: nat)
    requires Both(x) && OneTransform(x) && Top(x) != {} && p < |x.ss| && x.B[p] <= x.A[p]
    ensures p <= q && Returns(x, q) && forall r :: p <= r <= q ==> x.B[r] <= x.A[r]
    decreases |x.ss| - p
  {
    hide OneTransform, Top, Distinct, Below;
    if p + 1 == |x.ss| {
      LastReturns(x);
      q := p;
    } else if x.ss[p] == 255 && x.A[p + 1] < x.B[p + 1] {
      q := p;
    } else {
      if x.ss[p] != 255 {
        Letters(x, p);
        Falls(x, p);
      }
      q := NextReturn(x, p + 1);
    }
  }

  lemma LastReturns(x: Twice)
    requires Both(x) && OneTransform(x) && Top(x) != {} && x.B[|x.ss| - 1] <= x.A[|x.ss| - 1]
    ensures x.ss[|x.ss| - 1] == 255
  {
    var last := |x.ss| - 1;
    RanksOf(x);
    Letters(x, last);
    hide OneTransform, Ranks, Distinct, Below;
    if x.ss[last] < 255 {
      Moved(x, last);
      LastUnder(x);
    }
  }

  /** The last suffix comes before all others of its kind, in both orders. */
  lemma LastUnder(x: Twice)
    requires Both(x) && OneTransform(x)
    ensures Under(x.ss, x.A, |x.ss| - 1) == {}
  {
    hide OneTransform, Ranks, Distinct, Below;
    var last := |x.ss| - 1;
    RanksOf(x);
    forall q | 0 <= q < last && x.ss[q] == x.ss[last] ensures x.A[last] < x.A[q] {
      LastIsLeast(x.ss, x.A, q);
    }
  }

  /** The greatest 255 in the first order is no return. */
  lemma GreatestIsNoReturn(x: Twice, q: nat)
    requires Both(x) && OneTransform(x) && q in Top(x) && forall r :: r in Top(x) ==> x.A[r] <= x.A[q]
    ensures !Returns(x, q)
  {
    hide OneTransform, Under, Distinct, Below;
    GreatestIsNotLast(x, q);
    LastOfBlock(x, q);
    NextMoves(x, q);
  }

  // ---------- the theorem ----------

  /** The byte values below 255 that occur, and no more often than 255. */
  function Rare(ss: seq<nat>): set<nat> {
    set c: nat | c < 255 && 0 < multiset(ss)[c] <= multiset(ss)[255]
  }

  /** The return after the drop of c. */
  ghost predicate ReturnOf(x: Twice, c: nat, p: nat, q: nat) {
    Drop(x, p) && p < q && x.ss[p] == c && Returns(x, q)
      && forall r :: p < r <= q ==> r < |x.A| && r < |x.B| && x.B[r] <= x.A[r]
  }

  lemma RareReturns(x: Twice, c: nat) returns (p: nat, q: nat)
    requires Both(x) && OneTransform(x) && c < 255 && 0 < |Block(x.ss, c)| <= |Top(x)|
    ensures ReturnOf(x, c, p, q)
  {
    hide OneTransform, Distinct, Below;
    p := RareDrops(x, c);
    q := NextReturn(x, p + 1);
  }

  /** Different characters have different returns: a drop is not between another and its return. */
  lemma ReturnsDiffer(x: Twice, c: nat, p: nat, d: nat, r: nat, q: nat)
    requires ReturnOf(x, c, p, q) && ReturnOf(x, d, r, q)
    ensures c == d
  {
  }

  /** If both orders give the text one transform, fewer values are rare than 255s occur. */
  lemma FewAreRare(x: Twice)
    requires Both(x) && OneTransform(x) && Top(x) != {}
    ensures |Rare(x.ss)| < |Top(x)|
  {
    hide OneTransform, Distinct, Below, ReturnOf;
    var top := Greatest(x.A, Top(x));
    GreatestIsNoReturn(x, top);
    forall c | c in Rare(x.ss) ensures exists q: nat :: IsReturn(x, c, q) {
      BlockCounts(x.ss, c);
      BlockCounts(x.ss, 255);
      var p, q := RareReturns(x, c);
      assert IsReturn(x, c, q);
    }
    var f := map c | c in Rare(x.ss) :: var q: nat :| IsReturn(x, c, q); q;
    forall c | c in Rare(x.ss) ensures f[c] in Top(x) - {top} {
      ReturnIsTop(x, c, f[c]);
    }
    forall c, d | c in Rare(x.ss) && d in Rare(x.ss) && f[c] == f[d] ensures c == d {
      var p: nat :| ReturnOf(x, c, p, f[c]);
      var r: nat :| ReturnOf(x, d, r, f[d]);
      ReturnsDiffer(x, c, p, d, r, f[c]);
    }
    InjectionFits(Rare(x.ss), Top(x) - {top}, f);
  }

  ghost predicate IsReturn(x: Twice, c: nat, q: nat) {
    exists p: nat :: ReturnOf(x, c, p, q)
  }

  lemma ReturnIsTop(x: Twice, c: nat, q: nat)
    requires IsReturn(x, c, q)
    ensures q in Top(x) && Returns(x, q)
  {
  }

  /** With all byte values in the text, and as many of them rare as 255s occur, the second order does not
      give the transform. */
  lemma RareMeansWrong(s: seq<nat>)
    requires TextBytes(s) && SuffixArray.AllBytes(Padded(s))
    requires |Rare(Padded(s))| >= multiset(Padded(s))[255]
    ensures !OrdersCoincide(s)
  {
    hide Transform, SuffixLess;
    forall sa, sb | BothOrders(s, sa, sb) ensures Transform(Padded(s), sa) != Transform(Padded(s), sb) {
      if Transform(Padded(s), sa) == Transform(Padded(s), sb) {
        var x := TwiceOf(s, sa, sb);
        BlockCounts(x.ss, 255);
        FewAreRare(x);
      }
    }
  }

  /** So if byte 255 occurs once: the null is as rare. */
  lemma SingleIsWrong(s: seq<nat>)
    requires TextBytes(s) && SuffixArray.AllBytes(Padded(s)) && multiset(Padded(s))[255] == 1
    ensures !OrdersCoincide(s)
  {
    var ss := Padded(s);
    BlockCounts(ss, 0);
    assert Block(ss, 0) == {0};
    assert {0} <= Rare(ss);
    SubsetFits({0}, Rare(ss));
    RareMeansWrong(s);
  }

  /** The bytes from 1 to 255, each once. */
  function EachOnce(): seq<nat> {
    seq(255, i requires 0 <= i < 255 => i + 1)
  }

  lemma EachOnceHasAll()
    ensures TextBytes(EachOnce()) && SuffixArray.AllBytes(Padded(EachOnce()))
    ensures |Padded(EachOnce())| == 256 && forall c :: 0 <= c < 256 ==> Padded(EachOnce())[c] == c
  {
    var ss := Padded(EachOnce());
    forall c | 0 <= c < 256 ensures ss[c] == c && c in ss {
    }
  }

  /** A text that has a code, but not its transform. */
  lemma EachOnceIsWrong()
    ensures TextBytes(EachOnce()) && SuffixArray.AllBytes(Padded(EachOnce()))
    ensures !OrdersCoincide(EachOnce()) && !NeverSorted(EachOnce())
  {
    var ss := Padded(EachOnce());
    EachOnceHasAll();
    hide EachOnce, Padded, SuffixArray.AllBytes, OrdersCoincide;
    BlockCounts(ss, 255);
    assert Block(ss, 255) == {255};
    SingleIsWrong(EachOnce());
    assert ss[254] == 254;
  }

  /** And one more 255 makes a text that has none. */
  lemma TwoAtTheEndHasNone()
    ensures TextBytes(EachOnce() + [255]) && NeverSorted(EachOnce() + [255])
  {
    var s := EachOnce();
    EachOnceHasAll();
    var ss := Padded(s + [255]);
    assert ss == Padded(s) + [255];
    assert forall c :: 0 <= c < 256 ==> ss[c] == c;
    assert SuffixArray.AllBytes(ss);
    assert ss[255] == 255 && ss[256] == 255;
  }

  lemma TwiceOf(s: seq<nat>, sa: seq<nat>, sb: seq<nat>) returns (x: Twice)
    requires TextBytes(s) && SuffixArray.AllBytes(Padded(s)) && BothOrders(s, sa, sb)
    requires Transform(Padded(s), sa) == Transform(Padded(s), sb)
    ensures x.ss == Padded(s) && Both(x) && OneTransform(x) && Top(x) != {}
  {
    var ss, n := Padded(s), |s| + 1;
    SuffixArrayDistinct(ss, sa);
    SuffixArrayDistinct(Renumbered(s), sb);
    var A, B := InverseOf(sa), InverseOf(sb);
    x := Twice(ss, A, B, Transform(ss, sa));
    SuffixRanks(ss, sa, A);
    SuffixRanks(Renumbered(s), sb, B);
    WrapIsRenumbered(s);
    assert 255 in ss && ss[0] == 0;
    TransformLength(ss, sa);
    assert Both(x);
    hide Ranks, IsSuffixArray, Distinct, Below, Both;
    forall p | 0 <= p < n ensures Follows(x, p) {
      TransformFollows(ss, sa, A, p);
      TransformFollows(ss, sb, B, p);
    }
    var q :| 0 <= q < n && ss[q] == 255;
    assert q in Top(x);
  }

  lemma TransformFollows(ss: seq<nat>, sa: seq<nat>, A: seq<nat>, p: nat)
    requires |sa| == |ss| && p < |ss| && Inverse(sa, A)
    ensures |A| == |ss| && A[Succ(p, |ss|)] < |Transform(ss, sa)| && Transform(ss, sa)[A[Succ(p, |ss|)]] == ss[p]
  {
    InverseAt(sa, A, Succ(p, |ss|));
  }

  lemma WrapIsRenumbered(s: seq<nat>)
    requires TextBytes(s) && SuffixArray.AllBytes(Padded(s))
    ensures Renumbered(s) == Wrap(Padded(s))
  {
    SuffixArray.RenumberWraps(Padded(s));
  }
}
