/** A text in which every byte value occurs and which is nevertheless encoded by its transform: the order
    that ranks byte 255 below the others puts the same characters before the suffixes. */
module CoincidingText {
  import opened BurrowsWheeler
  import opened Permutations
  import opened Suffixes
  import SuffixArray
  import WrappedOrder

  // ---------- recognising a suffix order ----------

  /** Two suffixes compare by their first characters, or as their places one further tell. */
  ghost predicate InStep(u: seq<nat>, A: seq<nat>, p: nat, q: nat) {
    && p < |u| == |A| && q < |u|
    && (u[p] < u[q] || (u[p] == u[q] && q + 1 < |u| && (p + 1 < |u| ==> A[p + 1] < A[q + 1])))
  }

  ghost predicate Neighbours(u: seq<nat>, sa: seq<nat>, A: seq<nat>) {
    |sa| == |u| && forall r :: 0 <= r < |sa| - 1 ==> InStep(u, A, sa[r], sa[r + 1])
  }

  /** If neighbours compare like that, so do all. */
  lemma {:induction false} AllInStep(u: seq<nat>, sa: seq<nat>, A: seq<nat>, k: nat, m: nat)
    requires Neighbours(u, sa, A) && k < m < |sa|
    ensures InStep(u, A, sa[k], sa[m])
    decreases m
  {
    assert InStep(u, A, sa[m - 1], sa[m]);
    if k < m - 1 {
      AllInStep(u, sa, A, k, m - 1);
    }
  }

  lemma {:induction false} StepsAreLess(u: seq<nat>, sa: seq<nat>, A: seq<nat>, p: nat, q: nat)
    requires Neighbours(u, sa, A) && Inverse(sa, A) && p < |u| && q < |u| && A[p] < A[q]
    ensures SuffixLess(u, p, q)
    decreases |u| - p
  {
    InverseAt(sa, A, p);
    InverseAt(sa, A, q);
    assert InStep(u, A, p, q) by { AllInStep(u, sa, A, A[p], A[q]); }
    hide Neighbours, Inverse, SuffixLess;
    if u[p] < u[q] {
      FirstDiffers(u, p, q);
    } else if p + 1 == |u| {
      EndsFirst(u, p, q);
    } else {
      StepsAreLess(u, sa, A, p + 1, q + 1);
      LessExtends(u, p, q);
    }
  }

  lemma NeighboursSuffice(u: seq<nat>, sa: seq<nat>, A: seq<nat>)
    requires Neighbours(u, sa, A) && Inverse(sa, A)
    ensures IsSuffixArray(u, sa)
  {
    hide SuffixLess, InStep;
    forall k, m | 0 <= k < m < |sa| ensures SuffixLess(u, sa[k], sa[m]) {
      InverseAt(sa, A, k);
      InverseAt(sa, A, m);
      StepsAreLess(u, sa, A, sa[k], sa[m]);
    }
  }

  // ---------- the text ----------

  const N: nat := 778

  /** The padded text: 0 255 1 255 1, 260 times 255, 1 255 255 1 255 1, 254, each of 2 to 253 after a 255,
      and 255 1. */
  function Char(p: nat): (c: nat)
    ensures c < 256 && (p < N ==> (c == 0 <==> p == 0))
  {
    if p == 0 then 0
    else if p == 271 then 254
    else if p == 2 || p == 4 || p == 265 || p == 268 || p == 270 || p == 777 then 1
    else if 272 <= p < 776 && p % 2 == 1 then 2 + (p - 273) / 2
    else 255
  }

  /** The place of suffix p in the order of the suffixes, and the suffix at place r. */
  function PlainPlace(p: nat): nat {
    if 5 <= p <= 263 then 782 - p
    else if 272 <= p < 776 then (if p % 2 == 0 then 266 + (p - 272) / 2 else 7 + (p - 273) / 2)
    else if p == 0 then 0 else if p == 1 then 263 else if p == 2 then 4 else if p == 3 then 265
    else if p == 4 then 6 else if p == 264 then 264 else if p == 265 then 5 else if p == 266 then 518
    else if p == 267 then 262 else if p == 268 then 3 else if p == 269 then 261 else if p == 270 then 2
    else if p == 271 then 259 else if p == 776 then 260 else 1
  }

  function PlainAt(r: nat): nat {
    if 519 <= r < N then 782 - r
    else if 266 <= r < 518 then 272 + 2 * (r - 266)
    else if 7 <= r < 259 then 273 + 2 * (r - 7)
    else if r == 0 then 0 else if r == 1 then 777 else if r == 2 then 270 else if r == 3 then 268
    else if r == 4 then 2 else if r == 5 then 265 else if r == 6 then 4 else if r == 259 then 271
    else if r == 260 then 776 else if r == 261 then 269 else if r == 262 then 267 else if r == 263 then 1
    else if r == 264 then 264 else if r == 265 then 3 else 266
  }

  /** The same with byte 255 below the others. */
  function WrappedPlace(p: nat): nat {
    if 5 <= p <= 263 then p - 5
    else if 272 <= p < 776 then (if p % 2 == 0 then 266 + (p - 272) / 2 else 525 + (p - 273) / 2)
    else if p == 0 then 518 else if p == 1 then 263 else if p == 2 then 522 else if p == 3 then 261
    else if p == 4 then 520 else if p == 264 then 262 else if p == 265 then 521 else if p == 266 then 259
    else if p == 267 then 264 else if p == 268 then 523 else if p == 269 then 265 else if p == 270 then 524
    else if p == 271 then 777 else if p == 776 then 260 else 519
  }

  function WrappedAt(r: nat): nat {
    if r < 259 then r + 5
    else if 266 <= r < 518 then 272 + 2 * (r - 266)
    else if 525 <= r < 777 then 273 + 2 * (r - 525)
    else if r == 259 then 266 else if r == 260 then 776 else if r == 261 then 3 else if r == 262 then 264
    else if r == 263 then 1 else if r == 264 then 267 else if r == 265 then 269 else if r == 518 then 0
    else if r == 519 then 777 else if r == 520 then 4 else if r == 521 then 265 else if r == 522 then 2
    else if r == 523 then 268 else if r == 524 then 270 else 271
  }

  function Table(f: nat -> nat): (t: seq<nat>)
    ensures |t| == N && forall i :: 0 <= i < N ==> t[i] == f(i)
  {
    seq(N, i requires 0 <= i < N => f(i))
  }

  function Text(): (s: seq<nat>)
    ensures |s| == N - 1 && forall i :: 0 <= i < N - 1 ==> s[i] == Char(i + 1)
  {
    seq(N - 1, i requires 0 <= i < N - 1 => Char(i + 1))
  }

  lemma PlainInverse(i: nat)
    requires i < N
    ensures PlainPlace(i) < N && PlainAt(i) < N && PlainAt(PlainPlace(i)) == i && PlainPlace(PlainAt(i)) == i
  {
  }

  lemma WrappedInverse(i: nat)
    requires i < N
    ensures WrappedPlace(i) < N && WrappedAt(i) < N && WrappedAt(WrappedPlace(i)) == i
      && WrappedPlace(WrappedAt(i)) == i
  {
  }

  lemma PlainNeighbour(r: nat)
    requires r + 1 < N
    ensures
      var p, q := PlainAt(r), PlainAt(r + 1);
      Char(p) < Char(q) || (Char(p) == Char(q) && q + 1 < N && (p + 1 < N ==> PlainPlace(p + 1) < PlainPlace(q + 1)))
  {
  }

  function Wrapped(c: nat): nat {
    (c + 1) % 256
  }

  lemma WrappedNeighbour(r: nat)
    requires r + 1 < N
    ensures
      var p, q := WrappedAt(r), WrappedAt(r + 1);
      Wrapped(Char(p)) < Wrapped(Char(q))
      || (Char(p) == Char(q) && q + 1 < N && (p + 1 < N ==> WrappedPlace(p + 1) < WrappedPlace(q + 1)))
  {
  }

  /** The same characters stand before the suffixes in both orders. */
  lemma SameBefore(r: nat)
    requires r < N
    ensures Char(Pred(PlainAt(r), N)) == Char(Pred(WrappedAt(r), N))
  {
  }

  lemma PaddedText()
    ensures Padded(Text()) == Table(Char) && TextBytes(Text())
  {
  }

  lemma EveryByteOccurs()
    ensures SuffixArray.AllBytes(Table(Char)) && !SuffixArray.EndsIn255s(Table(Char))
  {
    forall c | 0 <= c < 256 ensures c in Table(Char) {
      var p := if c == 0 then 0 else if c == 1 then 2 else if c == 254 then 271 else if c == 255 then 1
        else 273 + 2 * (c - 2);
      assert Char(p) == c;
      assert Table(Char)[p] == c;
    }
  }

  lemma PlacesFit(at: nat -> nat, place: nat -> nat)
    requires forall i: nat :: i < N ==> place(i) < N && at(i) < N && at(place(i)) == i && place(at(i)) == i
    ensures Inverse(Table(at), Table(place))
  {
  }

  lemma StepsFit(u: seq<nat>, sa: seq<nat>, A: seq<nat>)
    requires |sa| == |u| && forall r :: 0 <= r < |sa| - 1 ==> InStep(u, A, sa[r], sa[r + 1])
    ensures Neighbours(u, sa, A)
  {
  }

  lemma PlainIsSuffixArray()
    ensures IsSuffixArray(Table(Char), Table(PlainAt))
  {
    hide PlainPlace, PlainAt, Char, IsSuffixArray, Inverse, Neighbours;
    var u, sa, A := Table(Char), Table(PlainAt), Table(PlainPlace);
    forall i: nat | i < N
      ensures PlainPlace(i) < N && PlainAt(i) < N && PlainAt(PlainPlace(i)) == i && PlainPlace(PlainAt(i)) == i
    {
      PlainInverse(i);
    }
    forall r | 0 <= r < N - 1 ensures InStep(u, A, sa[r], sa[r + 1]) {
      PlainNeighbour(r);
    }
    PlacesFit(PlainAt, PlainPlace);
    assert Neighbours(u, sa, A) by {
      StepsFit(u, sa, A);
    }
    NeighboursSuffice(u, sa, A);
  }

  lemma WrappedIsSuffixArray()
    ensures IsSuffixArray(WrappedOrder.Wrap(Table(Char)), Table(WrappedAt))
  {
    hide WrappedPlace, WrappedAt, Char, IsSuffixArray, Inverse, Neighbours;
    var u, sa, A := WrappedOrder.Wrap(Table(Char)), Table(WrappedAt), Table(WrappedPlace);
    forall i: nat | i < N
      ensures WrappedPlace(i) < N && WrappedAt(i) < N && WrappedAt(WrappedPlace(i)) == i
        && WrappedPlace(WrappedAt(i)) == i
    {
      WrappedInverse(i);
    }
    forall r | 0 <= r < N - 1 ensures InStep(u, A, sa[r], sa[r + 1]) {
      WrappedNeighbour(r);
    }
    PlacesFit(WrappedAt, WrappedPlace);
    assert Neighbours(u, sa, A) by {
      StepsFit(u, sa, A);
    }
    NeighboursSuffice(u, sa, A);
  }

  /** The transform of this text comes out right although every byte value occurs in it. */
  lemma SomeTextComesBack()
    ensures TextBytes(Text()) && SuffixArray.AllBytes(Padded(Text()))
    ensures OrdersCoincide(Text()) && !NeverSorted(Text())
  {
    var s, sa, sb := Text(), Table(PlainAt), Table(WrappedAt);
    PaddedText();
    EveryByteOccurs();
    PlainIsSuffixArray();
    WrappedIsSuffixArray();
    WrappedOrder.WrapIsRenumbered(s);
    assert BothOrders(s, sa, sb);
    forall r | 0 <= r < N ensures Transform(Padded(s), sa)[r] == Transform(Padded(s), sb)[r] {
      SameBefore(r);
    }
    assert Transform(Padded(s), sa) == Transform(Padded(s), sb);
  }
}
