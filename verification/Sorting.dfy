/** The contract of the library sorts: the elements rearranged in order.  Callers see only the
    contract, so equal elements may come out in any order unless the sort is the stable one. */
module Sorting {

  ghost predicate TotalPreorder<T(!new)>(le: (T, T) -> bool) {
    && (forall a, b :: le(a, b) || le(b, a))
    && forall a, b, c :: le(a, b) && le(b, c) ==> le(a, c)
  }

  ghost predicate SortedBy<T>(le: (T, T) -> bool, s: seq<T>) {
    forall i, j :: 0 <= i < j < |s| ==> le(s[i], s[j])
  }

  function Insert<T>(le: (T, T) -> bool, x: T, s: seq<T>): (r: seq<T>)
    ensures multiset(r) == multiset(s) + multiset{x}
  {
    if s == [] then [x]
    else if le(x, s[0]) then [x] + s
    else
      assert s == [s[0]] + s[1..];
      [s[0]] + Insert(le, x, s[1..])
  }

  lemma {:induction false} InsertKeepsSorted<T(!new)>(le: (T, T) -> bool, x: T, s: seq<T>)
    requires TotalPreorder(le) && SortedBy(le, s)
    ensures SortedBy(le, Insert(le, x, s))
  {
    if s != [] && !le(x, s[0]) {
      InsertKeepsSorted(le, x, s[1..]);
      var r := Insert(le, x, s[1..]);
      forall k | 0 <= k < |r| ensures le(s[0], r[k]) {
        assert r[k] in multiset(r);
        assert r[k] == x || r[k] in s[1..];
      }
    }
  }

  method Sort<T(!new)>(s: seq<T>, le: (T, T) -> bool) returns (r: seq<T>)
    requires TotalPreorder(le)
    ensures SortedBy(le, r) && multiset(r) == multiset(s) && |r| == |s|
  {
    r := [];
    for i := 0 to |s|
      invariant SortedBy(le, r) && multiset(r) == multiset(s[..i])
    {
      InsertKeepsSorted(le, s[i], r);
      assert s[..i + 1] == s[..i] + [s[i]];
      r := Insert(le, s[i], r);
    }
    assert s[..|s|] == s;
    SameSize(r, s);
  }

  /** Every sequence has a sorted rearrangement. */
  lemma {:induction false} SortExists<T(!new)>(s: seq<T>, le: (T, T) -> bool) returns (r: seq<T>)
    requires TotalPreorder(le)
    ensures SortedBy(le, r) && multiset(r) == multiset(s) && |r| == |s|
  {
    if s == [] {
      r := [];
    } else {
      var rest := SortExists(s[1..], le);
      InsertKeepsSorted(le, s[0], rest);
      r := Insert(le, s[0], rest);
      assert s == [s[0]] + s[1..];
      SameSize(r, s);
    }
  }

  lemma SameSize<T>(r: seq<T>, s: seq<T>)
    requires multiset(r) == multiset(s)
    ensures |r| == |s|
  {
    assert |multiset(r)| == |multiset(s)|;
  }

  lemma SameMembers<T>(r: seq<T>, s: seq<T>)
    requires multiset(r) == multiset(s)
    ensures forall x :: x in r <==> x in s
  {
    assert forall x :: x in multiset(r) <==> x in r;
    assert forall x :: x in multiset(s) <==> x in s;
  }

  /** A rearrangement of distinct elements is distinct. */
  lemma StaysDistinct<T>(a: seq<T>, b: seq<T>)
    requires (forall i, j :: 0 <= i < j < |a| ==> a[i] != a[j]) && multiset(b) == multiset(a)
    ensures forall i, j :: 0 <= i < j < |b| ==> b[i] != b[j]
  {
    forall i, j | 0 <= i < j < |b| ensures b[i] != b[j] {
      assert b == b[..j] + [b[j]] + b[j + 1..];
      assert b[..j][i] == b[i];
      assert b[i] in multiset(b[..j]);
      CountOne(a, b[j]);
      assert multiset(b) == multiset(b[..j]) + multiset{b[j]} + multiset(b[j + 1..]);
    }
  }

  lemma {:induction false} CountOne<T>(a: seq<T>, x: T)
    requires forall i, j :: 0 <= i < j < |a| ==> a[i] != a[j]
    ensures multiset(a)[x] <= 1
  {
    if a != [] {
      CountOne(a[1..], x);
      assert a == [a[0]] + a[1..];
      assert x in a[1..] <==> multiset(a[1..])[x] > 0;
    }
  }
}
