/** Sequences of distinct numbers, and inverses: counting arguments shared by the other modules. */
module Permutations {

  ghost predicate Distinct(a: seq<nat>) {
    forall i, j :: 0 <= i < j < |a| ==> a[i] != a[j]
  }

  ghost predicate Below(a: seq<nat>, n: nat) {
    forall i :: 0 <= i < |a| ==> a[i] < n
  }

  function Range(n: nat): (r: set<nat>)
    ensures |r| == n && forall x :: x in r <==> 0 <= x < n
  {
    if n == 0 then {} else Range(n - 1) + {n - 1}
  }

  ghost function Elements(a: seq<nat>): (r: set<nat>)
    ensures forall x :: x in r <==> x in a
    ensures Distinct(a) ==> |r| == |a|
  {
    if a == [] then {}
    else
      var front := a[..|a| - 1];
      assert a == front + [a[|a| - 1]];
      Elements(front) + {a[|a| - 1]}
  }

  /** There are no more than n distinct numbers below n. */
  lemma DistinctFits(a: seq<nat>, n: nat)
    requires Distinct(a) && Below(a, n)
    ensures |a| <= n
  {
    var rest := Range(n) - Elements(a);
    assert Elements(a) + rest == Range(n);
  }

  /** n distinct numbers below n are all of them. */
  lemma DistinctCovers(a: seq<nat>, n: nat)
    requires |a| == n && Distinct(a) && Below(a, n)
    ensures forall x :: 0 <= x < n ==> x in a
  {
    var missing := Range(n) - Elements(a);
    assert Elements(a) <= Range(n);
    assert |missing| == 0;
    assert forall x :: 0 <= x < n ==> x in Range(n) && x !in missing;
  }

  /** b undoes a. */
  ghost predicate Inverse(a: seq<nat>, b: seq<nat>) {
    && |b| == |a| && Below(a, |a|) && Below(b, |a|)
    && (forall i :: 0 <= i < |a| ==> b[a[i]] == i)
    && forall x :: 0 <= x < |a| ==> a[b[x]] == x
  }

  lemma InverseFits(a: seq<nat>, b: seq<nat>)
    requires Inverse(a, b)
    ensures |b| == |a| && Below(a, |a|) && Below(b, |b|)
  {
  }

  lemma InverseAt(a: seq<nat>, b: seq<nat>, i: nat)
    requires Inverse(a, b) && i < |a|
    ensures |b| == |a| && a[i] < |b| && b[i] < |a| && b[a[i]] == i && a[b[i]] == i
  {
  }

  ghost function InverseOf(a: seq<nat>): (b: seq<nat>)
    requires Below(a, |a|) && Distinct(a)
    ensures Inverse(a, b)
  {
    DistinctCovers(a, |a|);
    seq(|a|, x requires 0 <= x < |a| => IndexOf(a, x))
  }

  ghost function IndexOf(a: seq<nat>, x: nat): (i: nat)
    requires x in a
    ensures i < |a| && a[i] == x
  {
    var i: nat :| i < |a| && a[i] == x;
    i
  }
}
