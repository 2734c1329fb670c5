/** Cartesian tree by divide and conquer: the trees of two halves are built in one parent array and
    then merged along their facing spines, in place. */
module CartesianTree {

  /** Smaller value, or equal and further left: the order the tree is built on. */
  predicate Less(V: seq<int>, i: int, j: int)
    requires 0 <= i < |V| && 0 <= j < |V|
  {
    V[i] < V[j] || (V[i] == V[j] && i < j)
  }

  // ---------- the reference: the recursive definition ----------

  function ArgMin(V: seq<int>, s: nat, e: nat): (m: nat)
    requires s < e <= |V|
    ensures s <= m < e && forall y {:trigger Less(V, m, y)} {:trigger V[y]} :: s <= y < e && y != m ==> Less(V, m, y)
  {
    if e == s + 1 then s
    else
      var m := ArgMin(V, s, e - 1);
      if V[e - 1] < V[m] then e - 1 else m
  }

  /** The parent of i in the tree of V[s..e], whose root hangs under `up`: the leftmost minimum is
      the root, and what lies on either side of it forms its subtrees. */
  function TreeParent(V: seq<int>, s: nat, e: nat, i: nat, up: nat): nat
    requires s <= i < e <= |V|
    decreases e - s
  {
    var m := ArgMin(V, s, e);
    if i == m then up
    else if i < m then TreeParent(V, s, m, i, m)
    else TreeParent(V, m + 1, e, i, m)
  }

  // ---------- the same parents by nearest smaller elements ----------

  ghost predicate NearestLeft(V: seq<int>, s: int, i: int, l: int)
    requires 0 <= s && i < |V|
  {
    s <= l < i && Less(V, l, i) && forall y {:trigger Less(V, i, y)} {:trigger V[y]} :: l < y < i ==> Less(V, i, y)
  }

  ghost predicate NearestRight(V: seq<int>, e: int, i: int, r: int)
    requires 0 <= i && e <= |V|
  {
    i < r < e && Less(V, r, i) && forall y {:trigger Less(V, i, y)} {:trigger V[y]} :: i < y < r ==> Less(V, i, y)
  }

  ghost predicate NoneLeft(V: seq<int>, s: int, i: int)
    requires 0 <= s && i < |V|
  {
    forall y {:trigger Less(V, i, y)} {:trigger V[y]} :: s <= y < i ==> Less(V, i, y)
  }

  ghost predicate NoneRight(V: seq<int>, e: int, i: int)
    requires 0 <= i && e <= |V|
  {
    forall y {:trigger Less(V, i, y)} {:trigger V[y]} :: i < y < e ==> Less(V, i, y)
  }

  /** p is the larger of the nearest smaller elements on the two sides of i, or i if there is none. */
  ghost predicate IsParent(V: seq<int>, s: int, e: int, i: int, p: int)
    requires 0 <= s <= i < e <= |V|
  {
    if p == i then NoneLeft(V, s, i) && NoneRight(V, e, i)
    else if p < i then NearestLeft(V, s, i, p) && forall r :: NearestRight(V, e, i, r) ==> Less(V, r, p)
    else NearestRight(V, e, i, p) && forall l :: NearestLeft(V, s, i, l) ==> Less(V, l, p)
  }

  ghost predicate IsTree(V: seq<int>, P: seq<nat>, s: int, e: int)
    requires 0 <= s <= e <= |V| && |P| == |V|
  {
    forall i :: s <= i < e ==> IsParent(V, s, e, i, P[i])
  }

  /** The two definitions agree. */
  lemma {:induction false} ParentIsTreeParent(V: seq<int>, s: nat, e: nat, i: nat, p: nat)
    requires s <= i < e <= |V| && IsParent(V, s, e, i, p)
    ensures p == i ==> forall up :: TreeParent(V, s, e, i, up) == up
    ensures p != i ==> forall up :: TreeParent(V, s, e, i, up) == p
    decreases e - s
  {
    var m := ArgMin(V, s, e);
    if i < m {
      if p == m {
        assert NoneLeft(V, s, i) by { NearestLeftExists(V, s, i); }
        assert IsParent(V, s, m, i, i);
        ParentIsTreeParent(V, s, m, i, i);
      } else {
        assert forall r :: NearestRight(V, m, i, r) ==> NearestRight(V, e, i, r);
        assert IsParent(V, s, m, i, p);
        ParentIsTreeParent(V, s, m, i, p);
      }
    } else if m < i {
      if p == m {
        assert NoneRight(V, e, i) by { NearestRightExists(V, e, i); }
        assert IsParent(V, m + 1, e, i, i);
        ParentIsTreeParent(V, m + 1, e, i, i);
      } else {
        assert forall l :: NearestLeft(V, m + 1, i, l) ==> NearestLeft(V, s, i, l);
        assert IsParent(V, m + 1, e, i, p);
        ParentIsTreeParent(V, m + 1, e, i, p);
      }
    }
  }

  lemma {:induction false} NearestLeftExists(V: seq<int>, s: int, i: int)
    requires 0 <= s <= i < |V|
    ensures NoneLeft(V, s, i) || exists l :: NearestLeft(V, s, i, l)
  {
    var l := i - 1;
    while l >= s && Less(V, i, l)
      invariant s - 1 <= l < i && forall y {:trigger Less(V, i, y)} {:trigger V[y]} :: l < y < i ==> Less(V, i, y)
    {
      l := l - 1;
    }
    if l >= s {
      assert NearestLeft(V, s, i, l);
    }
  }

  lemma {:induction false} NearestRightExists(V: seq<int>, e: int, i: int)
    requires 0 <= i < e <= |V|
    ensures NoneRight(V, e, i) || exists r :: NearestRight(V, e, i, r)
  {
    var r := i + 1;
    while r < e && Less(V, i, r)
      invariant i < r <= e && forall y {:trigger Less(V, i, y)} {:trigger V[y]} :: i < y < r ==> Less(V, i, y)
    {
      r := r + 1;
    }
    if r < e {
      assert NearestRight(V, e, i, r);
    }
  }

  // ---------- merging two neighbouring trees ----------

  /** A node of the left tree keeps its parent if the left tree has a smaller element to its right. */
  lemma KeepsInLeft(V: seq<int>, s: int, mid: int, e: int, i: int, p: int, z: int)
    requires 0 <= s <= i < mid <= e <= |V| && IsParent(V, s, mid, i, p)
    requires i < z < mid && Less(V, z, i)
    ensures IsParent(V, s, e, i, p)
  {
  }

  /** A node of the right tree keeps its parent if the right tree has a smaller element to its left,
      or the left tree has no smaller one at all. */
  lemma KeepsInRight(V: seq<int>, s: int, mid: int, e: int, i: int, p: int, z: int)
    requires 0 <= s <= mid <= i < e <= |V| && IsParent(V, mid, e, i, p)
    requires (mid <= z < i && Less(V, z, i)) || forall y {:trigger Less(V, i, y)} {:trigger V[y]} :: s <= y < mid ==>
      Less(V, i, y)
    ensures IsParent(V, s, e, i, p)
  {
  }

  /** Before the next turn of the merge loop.  Strictly between left and right every parent but that
      of head is final, and head is the least element there; everything else is as before the merge. */
  ghost predicate MergeInv(V: seq<int>, P0: seq<nat>, P: seq<nat>, s: int, mid: int, e: int, head: int, left: int,
      right: int)
  {
    && 0 <= s <= left < mid <= right < e <= |V| && |P| == |P0| == |V|
    && IsTree(V, P0, s, mid) && IsTree(V, P0, mid, e)
    && ( || (left < head < right && Less(V, left, head) && Less(V, right, head))
         || (head == left && P0[left] == left && Less(V, right, left))
         || (head == right && P0[right] == right && Less(V, left, right)))
    && (forall y {:trigger Less(V, head, y)} {:trigger V[y]} :: left < y < right && y != head ==> Less(V, head, y))
    && (forall y :: left < y < right && y != head ==> IsParent(V, s, e, y, P[y]))
    && forall y :: 0 <= y < |V| && (y <= left || y >= right || y == head) ==> P[y] == P0[y]
  }

  /** The two ends of the open stretch are the nearest smaller elements of head. */
  lemma HeadGoesUnder(V: seq<int>, P0: seq<nat>, P: seq<nat>, s: int, mid: int, e: int, head: int, left: int,
      right: int)
    requires MergeInv(V, P0, P, s, mid, e, head, left, right) && left < head < right
    ensures IsParent(V, s, e, head, if Less(V, right, left) then left else right)
  {
  }

  /** left is less than everything after it in the left tree, so its parent there is on its left. */
  lemma LeftSpine(V: seq<int>, P0: seq<nat>, P: seq<nat>, s: int, mid: int, e: int, head: int, left: int, right: int)
    requires MergeInv(V, P0, P, s, mid, e, head, left, right)
    ensures NoneRight(V, mid, left)
    ensures P0[left] == left ==> NoneLeft(V, s, left)
    ensures P0[left] != left ==> NearestLeft(V, s, left, P0[left])
  {
  }

  lemma RightSpine(V: seq<int>, P0: seq<nat>, P: seq<nat>, s: int, mid: int, e: int, head: int, left: int, right: int)
    requires MergeInv(V, P0, P, s, mid, e, head, left, right)
    ensures NoneLeft(V, mid, right)
    ensures P0[right] == right ==> NoneRight(V, e, right)
    ensures P0[right] != right ==> NearestRight(V, e, right, P0[right])
  {
  }

  /** A turn that takes left: head gets its parent, and left, no longer the end of the stretch, is
      the new head. */
  lemma TakeLeft(V: seq<int>, P0: seq<nat>, P: seq<nat>, s: int, mid: int, e: int, head: int, left: int, right: int)
    requires MergeInv(V, P0, P, s, mid, e, head, left, right) && Less(V, right, left) && P0[left] != left
    ensures MergeInv(V, P0, P[head := left], s, mid, e, left, P0[left], right)
  {
  }

  lemma TakeRight(V: seq<int>, P0: seq<nat>, P: seq<nat>, s: int, mid: int, e: int, head: int, left: int, right: int)
    requires MergeInv(V, P0, P, s, mid, e, head, left, right) && !Less(V, right, left) && P0[right] != right
    ensures MergeInv(V, P0, P[head := right], s, mid, e, right, left, P0[right])
  {
  }

  /** The last turn, when the root of the left tree is taken: it goes under right, and all that is
      left of either tree keeps its parent. */
  lemma FinishLeft(V: seq<int>, P0: seq<nat>, P: seq<nat>, s: int, mid: int, e: int, head: int, left: int, right: int)
    requires MergeInv(V, P0, P, s, mid, e, head, left, right) && Less(V, right, left) && P0[left] == left
    ensures IsTree(V, P[head := left][left := right], s, e)
  {
  }

  lemma FinishRight(V: seq<int>, P0: seq<nat>, P: seq<nat>, s: int, mid: int, e: int, head: int, left: int, right: int)
    requires MergeInv(V, P0, P, s, mid, e, head, left, right) && !Less(V, right, left) && P0[right] == right
    ensures IsTree(V, P[head := right][right := left], s, e)
  {
  }

  method SpineMerge(V: seq<int>, P: array<nat>, mid: nat, ghost s: nat, ghost e: nat)
    requires s < mid < e <= |V| && P.Length == |V|
    requires IsTree(V, P[..], s, mid) && IsTree(V, P[..], mid, e)
    modifies P
    ensures IsTree(V, P[..], s, e)
    ensures forall y :: 0 <= y < P.Length && !(s <= y < e) ==> P[y] == old(P[y])
  {
    ghost var P0 := P[..];
    var left, right := mid - 1, mid;
    var head;
    assert IsParent(V, s, mid, left, P0[left]) && IsParent(V, mid, e, right, P0[right]);
    if V[left] > V[right] {
      forall y | P0[left] < y < left ensures IsParent(V, s, e, y, P0[y]) {
        KeepsInLeft(V, s, mid, e, y, P0[y], left);
      }
      head := left;
      left := P[left];
    } else {
      forall y | right < y < P0[right] ensures IsParent(V, s, e, y, P0[y]) {
        KeepsInRight(V, s, mid, e, y, P0[y], right);
      }
      head := right;
      right := P[right];
    }
    while true
      invariant MergeInv(V, P0, P[..], s, mid, e, head, left, right)
      decreases left + e - right
    {
      hide MergeInv, IsTree, IsParent;
      InRange(V, P0, P[..], s, mid, e, head, left, right);
      ghost var before := P[..];
      if V[left] > V[right] {
        if P0[left] == left {
          FinishLeft(V, P0, before, s, mid, e, head, left, right);
        } else {
          TakeLeft(V, P0, before, s, mid, e, head, left, right);
          LeftSpine(V, P0, before, s, mid, e, head, left, right);
        }
        P[head] := left;
        if P[left] == left {
          P[left] := right;
          break;
        }
        head, left := left, P[left];
      } else {
        if P0[right] == right {
          FinishRight(V, P0, before, s, mid, e, head, left, right);
        } else {
          TakeRight(V, P0, before, s, mid, e, head, left, right);
          RightSpine(V, P0, before, s, mid, e, head, left, right);
        }
        P[head] := right;
        if P[right] == right {
          P[right] := left;
          break;
        }
        head, right := right, P[right];
      }
    }
  }

  lemma InRange(V: seq<int>, P0: seq<nat>, P: seq<nat>, s: int, mid: int, e: int, head: int, left: int, right: int)
    requires MergeInv(V, P0, P, s, mid, e, head, left, right)
    ensures 0 <= s <= left < mid <= right < e <= |V| == |P| && s <= head < e
    ensures P[left] == P0[left] && P[right] == P0[right]
    ensures forall y :: 0 <= y < |P| && !(s <= y < e) ==> P[y] == P0[y]
    ensures head == left ==> P0[left] == left && Less(V, right, left)
    ensures head == right ==> P0[right] == right && !Less(V, right, left)
  {
  }

  /** Builds the tree of V[s..e].  The two recursive calls write disjoint stretches of P, so running
      them in parallel is running them in either order. */
  method Build(V: seq<int>, P: array<nat>, s: nat, e: nat)
    requires s <= e <= |V| && P.Length == |V|
    requires forall y :: s <= y < e ==> P[y] == y
    modifies P
    ensures IsTree(V, P[..], s, e)
    ensures forall y :: 0 <= y < P.Length && !(s <= y < e) ==> P[y] == old(P[y])
    decreases e - s
  {
    if e - s < 2 {
    } else if e - s == 2 {
      if V[s] > V[s + 1] {
        P[s] := s + 1;
      } else {
        P[s + 1] := s;
      }
    } else {
      var mid := (s + e) / 2;
      Build(V, P, s, mid);
      ghost var half := P[..];
      Build(V, P, mid, e);
      assert forall y :: s <= y < mid ==> P[..][y] == half[y];
      SpineMerge(V, P, mid, s, e);
    }
  }

  /** Every position points at its parent in the Cartesian tree, the root at itself. */
  method Cartesian(V: seq<int>) returns (P: array<nat>)
    ensures fresh(P) && P.Length == |V|
    ensures forall i :: 0 <= i < |V| ==> P[i] == TreeParent(V, 0, |V|, i, i)
  {
    P := new nat[|V|](i => i);
    Build(V, P, 0, |V|);
    forall i | 0 <= i < |V| ensures P[i] == TreeParent(V, 0, |V|, i, i) {
      assert IsParent(V, 0, |V|, i, P[..][i]);
      ParentIsTreeParent(V, 0, |V|, i, P[i]);
    }
  }
}
