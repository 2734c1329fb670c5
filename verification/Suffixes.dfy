/** The order of the suffixes of a string, common prefixes, and what a suffix array is: the reference
    notions of the string algorithms. */
module Suffixes {

  import opened Permutations

  // ---------- suffixes ----------

  ghost predicate Same(s: seq<nat>, i: nat, j: nat, q: nat) {
    i + q < |s| && j + q < |s| && s[i + q] == s[j + q]
  }

  /** The suffixes at i and j begin with the same p characters. */
  ghost predicate Agree(s: seq<nat>, i: nat, j: nat, p: nat) {
    i + p <= |s| && j + p <= |s| && forall q :: 0 <= q < p ==> Same(s, i, j, q)
  }

  /** At offset p the suffix at i is the smaller: it ends there, or has the smaller character. */
  ghost predicate SmallerAt(s: seq<nat>, i: nat, j: nat, p: nat) {
    Agree(s, i, j, p) && j + p < |s| && (i + p == |s| || s[i + p] < s[j + p])
  }

  ghost predicate SuffixLess(s: seq<nat>, i: nat, j: nat) {
    exists p: nat :: SmallerAt(s, i, j, p)
  }

  /** The suffixes in increasing order. */
  ghost predicate IsSuffixArray(s: seq<nat>, sa: seq<nat>) {
    && |sa| == |s| && Below(sa, |s|)
    && forall k, m :: 0 <= k < m < |sa| ==> SuffixLess(s, sa[k], sa[m])
  }

  /** The length of the longest common prefix. */
  ghost predicate IsLcp(s: seq<nat>, i: nat, j: nat, l: nat) {
    Agree(s, i, j, l) && (i + l == |s| || j + l == |s| || s[i + l] != s[j + l])
  }

  lemma SuffixLessIrreflexive(s: seq<nat>, i: nat)
    ensures !SuffixLess(s, i, i)
  {
  }

  lemma SuffixLessAsymmetric(s: seq<nat>, i: nat, j: nat)
    requires SuffixLess(s, i, j)
    ensures !SuffixLess(s, j, i)
  {
    var p: nat :| SmallerAt(s, i, j, p);
    assert forall q: nat :: SmallerAt(s, j, i, q) && p < q ==> Same(s, j, i, p);
    assert forall q: nat :: SmallerAt(s, j, i, q) && q < p ==> Same(s, i, j, q);
  }

  lemma AgreeTransitive(s: seq<nat>, i: nat, j: nat, k: nat, p: nat)
    requires Agree(s, i, j, p) && Agree(s, j, k, p)
    ensures Agree(s, i, k, p)
  {
    forall q | 0 <= q < p ensures Same(s, i, k, q) {
      assert Same(s, i, j, q) && Same(s, j, k, q);
    }
  }

  lemma AgreeFurther(s: seq<nat>, i: nat, j: nat, len: nat, l: nat)
    requires Agree(s, i, j, l) && len <= l
    ensures Agree(s, i + len, j + len, l - len)
  {
    var x, y := i + len, j + len;
    forall q | 0 <= q < l - len ensures Same(s, x, y, q) {
      assert Same(s, i, j, len + q);
    }
  }

  lemma LcpIsUnique(s: seq<nat>, i: nat, j: nat, l: nat, m: nat)
    requires IsLcp(s, i, j, l) && IsLcp(s, i, j, m)
    ensures l == m
  {
    assert !Same(s, i, j, l) && !Same(s, i, j, m);
  }

  /** The common prefix is one longer than that of the suffixes one further, if the first characters
      are the same. */
  lemma LcpShift(s: seq<nat>, i: nat, j: nat, l: nat)
    requires i < |s| && j < |s| && s[i] == s[j] && IsLcp(s, i + 1, j + 1, l)
    ensures IsLcp(s, i, j, 1 + l)
  {
    forall q | 0 <= q < 1 + l ensures Same(s, i, j, q) {
      assert q > 0 ==> Same(s, i + 1, j + 1, q - 1);
    }
  }

  function Lcp(s: seq<nat>, i: nat, j: nat): (l: nat)
    requires i <= |s| && j <= |s|
    ensures IsLcp(s, i, j, l)
    decreases |s| - i
  {
    if i < |s| && j < |s| && s[i] == s[j] then
      var rest := Lcp(s, i + 1, j + 1);
      LcpShift(s, i, j, rest);
      1 + rest
    else 0
  }

  lemma LessComparesAtLcp(s: seq<nat>, i: nat, j: nat)
    requires SuffixLess(s, i, j)
    ensures i <= |s| && j <= |s| && SmallerAt(s, i, j, Lcp(s, i, j))
  {
    var p: nat :| SmallerAt(s, i, j, p);
    assert IsLcp(s, i, j, p);
    LcpIsUnique(s, i, j, p, Lcp(s, i, j));
  }

  lemma SuffixArrayDistinct(s: seq<nat>, sa: seq<nat>)
    requires IsSuffixArray(s, sa)
    ensures Distinct(sa)
  {
  }

  /** The places in the suffix array follow the order of the suffixes. */
  lemma OrderIsRank(s: seq<nat>, sa: seq<nat>, k: nat, m: nat)
    requires IsSuffixArray(s, sa) && k < |sa| && m < |sa| && SuffixLess(s, sa[k], sa[m])
    ensures k < m
  {
    SuffixLessAsymmetric(s, sa[k], sa[m]);
    SuffixLessIrreflexive(s, sa[k]);
  }
}
