/** Static range minima over blocks, and what a query answers while other threads write the array.
    `goal` is what the other threads are writing: at any time each value is the one the table was
    built from or the one of `goal`.  If the two agree on values below `len`, a query cannot tell the
    difference there.  With nothing to write and `len` above every value, the answer is a minimum of
    the range. */
module RangeMin {
  import opened Powers

  // ---------- powers and logarithms ----------

  /** The number of bits of b. */
  function Bits(b: nat): nat {
    if b == 0 then 0 else 1 + Bits(b / 2)
  }

  /** parlay::log2_up. */
  function Log2Up(x: nat): nat
    requires x > 0
  {
    Bits(x - 1)
  }

  lemma {:induction false} BitsBound(b: nat)
    ensures b < Pow2(Bits(b))
    ensures b > 0 ==> Pow2(Bits(b) - 1) <= b
  {
    if b > 0 {
      BitsBound(b / 2);
    }
  }

  // ---------- minima seen through interference ----------

  function Cap(v: nat, len: nat): nat {
    if v < len then v else len
  }

  /** The values below len are those of `before`; the others are still at least len. */
  ghost predicate Stable(before: seq<nat>, now: seq<nat>, len: nat) {
    |now| == |before| && forall k :: 0 <= k < |now| ==> Cap(now[k], len) == Cap(before[k], len)
  }

  /** a[r] is a least value of a[i..j], both ends included, up to len. */
  ghost predicate LeastUpTo(a: seq<nat>, len: nat, i: int, j: int, r: int) {
    0 <= i <= r <= j < |a| && forall k :: i <= k <= j ==> Cap(a[r], len) <= Cap(a[k], len)
  }

  /** With len above every value, that is a minimum. */
  lemma LeastIsMinimum(a: seq<nat>, len: nat, i: int, j: int, r: int)
    requires LeastUpTo(a, len, i, j, r) && forall k :: 0 <= k < |a| ==> a[k] < len
    ensures forall k :: i <= k <= j ==> a[r] <= a[k]
  {
  }

  /** Minima of two stretches that cover a stretch give one of it. */
  lemma Combine(a: seq<nat>, len: nat, i: int, j: int, i': int, j': int, r: int, r': int, m: int)
    requires LeastUpTo(a, len, i, j, r) && LeastUpTo(a, len, i', j', r')
    requires i <= i' <= j + 1 && j <= j'
    requires m == r || m == r'
    requires Cap(a[m], len) <= Cap(a[r], len) && Cap(a[m], len) <= Cap(a[r'], len)
    ensures LeastUpTo(a, len, i, j', m)
  {
  }

  // ---------- the table ----------

  /** Where block b starts, and where it ends in an array of n values. */
  function First(b: int, size: nat): int {
    b * size
  }

  function Last(b: int, size: nat, n: nat): int {
    if (b + 1) * size <= n then (b + 1) * size - 1 else n - 1
  }

  function Clip(b: int, m: nat): int {
    if b < m then b else m - 1
  }

  /** The number of blocks. */
  function Blocks(n: nat, size: nat): nat
    requires n > 0 && size > 0
  {
    1 + (n - 1) / size
  }

  lemma MulMonotone(a: nat, b: nat, size: nat)
    requires a <= b
    ensures a * size <= b * size
  {
  }

  lemma Division(x: nat, size: nat)
    requires size > 0
    ensures x / size * size <= x < x / size * size + size
  {
  }

  /** The blocks are those that start below n, and they reach n. */
  lemma BlocksFit(n: nat, size: nat, b: nat)
    requires n > 0 && size > 0
    ensures b < Blocks(n, size) <==> b * size < n
  {
    var q := (n - 1) / size;
    Division(n - 1, size);
    if b <= q {
      MulMonotone(b, q, size);
    } else {
      MulMonotone(q + 1, b, size);
      assert (q + 1) * size == q * size + size;
    }
  }

  /** a[r] is a least value of a[i..j]. */
  ghost predicate ArgMin(a: seq<nat>, i: int, j: int, r: int) {
    0 <= i <= r <= j < |a| && forall k :: i <= k <= j ==> a[r] <= a[k]
  }

  lemma ArgMinIsLeast(a: seq<nat>, len: nat, i: int, j: int, r: int)
    requires ArgMin(a, i, j, r)
    ensures LeastUpTo(a, len, i, j, r)
  {
  }

  /** table[k][b] is the position of a least value of blocks b to b + 2^k - 1, as far as there are
      blocks. */
  ghost predicate Row(a: seq<nat>, size: nat, k: nat, row: seq<nat>)
    requires |a| > 0 && size > 0
  {
    var m := Blocks(|a|, size);
    |row| == m && forall b :: 0 <= b < m ==>
      ArgMin(a, First(b, size), Last(Clip(b + Pow2(k) - 1, m), size, |a|), row[b])
  }

  ghost predicate Table(a: seq<nat>, size: nat, table: seq<seq<nat>>)
    requires |a| > 0 && size > 0
  {
    |table| == Log2Up(Blocks(|a|, size) + 1) && forall k :: 0 <= k < |table| ==> Row(a, size, k, table[k])
  }

  lemma JoinArgMin(a: seq<nat>, i: int, j: int, i': int, j': int, r: int, r': int)
    requires ArgMin(a, i, j, r) && ArgMin(a, i', j', r') && i <= i' <= j + 1 && j <= j'
    ensures ArgMin(a, i, j', if a[r'] < a[r] then r' else r)
  {
  }

  /** The row of twice the width, from two entries half as wide, or one where the other would start
      past the last block. */
  lemma NextRow(a: seq<nat>, size: nat, k: nat, row: seq<nat>, dist: nat, b: nat)
    requires |a| > 0 && size > 0 && Row(a, size, k, row) && dist == Pow2(k) && b < |row|
    ensures
      var m := Blocks(|a|, size);
      ArgMin(a, First(b, size), Last(Clip(b + Pow2(k + 1) - 1, m), size, |a|),
        if b + dist < m then (if a[row[b + dist]] < a[row[b]] then row[b + dist] else row[b]) else row[b])
  {
    var m, n := Blocks(|a|, size), |a|;
    assert Pow2(k) >= 1 by { Pow2Positive(k); }
    if b + dist < m {
      var e, e' := Clip(b + dist - 1, m), Clip(b + dist + Pow2(k) - 1, m);
      MulMonotone(b, b + dist, size);
      assert (b + dist - 1 + 1) * size == First(b + dist, size);
      BlocksFit(n, size, b + dist);
      LastGrows(e, e', size, n);
      assert ArgMin(a, First(b + dist, size), Last(e', size, n), row[b + dist]);
      JoinArgMin(a, First(b, size), Last(e, size, n), First(b + dist, size), Last(e', size, n), row[b], row[b + dist]);
    }
  }

  lemma LastGrows(b: nat, c: nat, size: nat, n: nat)
    requires b <= c
    ensures Last(b, size, n) <= Last(c, size, n)
  {
  }

  lemma LastFirst(b: nat, size: nat, n: nat)
    requires size > 0 && n > 0 && b < Blocks(n, size)
    ensures First(b, size) < n && First(b, size) <= Last(b, size, n) < n
    ensures First(b + 1, size) == First(b, size) + size
    ensures b + 1 < Blocks(n, size) ==> Last(b, size, n) == First(b, size) + size - 1
  {
    BlocksFit(n, size, b);
    BlocksFit(n, size, b + 1);
    assert (b + 1) * size == b * size + size;
  }

  /** Which block a position is in. */
  lemma InBlock(i: nat, size: nat, n: nat)
    requires size > 0 && i < n
    ensures First(i / size, size) <= i < First(i / size, size) + size && i / size < Blocks(n, size)
  {
    Division(i, size);
    BlocksFit(n, size, i / size);
  }

  /** A query longer than a block spans two of them. */
  lemma BlocksDiffer(i: nat, j: nat, size: nat)
    requires size > 0 && i + size <= j
    ensures i / size < j / size
  {
  }

  /** The two windows of 2^k blocks that cover c blocks, 2^k < c <= 2^(k+1), are in the table. */
  lemma WindowsCover(c: nat, m: nat)
    requires 3 <= c <= m
    ensures
      var k := Log2Up(c) - 1;
      0 <= k < Log2Up(m + 1) && Pow2(k) < c <= 2 * Pow2(k)
  {
    BitsBound(c - 1);
    BitsMonotone(c - 1, m);
    assert Bits(c - 1) >= 1 + Bits((c - 1) / 2);
  }

  lemma {:induction false} BitsMonotone(a: nat, b: nat)
    requires a <= b
    ensures Bits(a) <= Bits(b)
  {
    if a > 0 {
      BitsMonotone(a / 2, b / 2);
    }
  }

  lemma RowInRange(a: seq<nat>, size: nat, k: nat, row: seq<nat>)
    requires |a| > 0 && size > 0 && Row(a, size, k, row)
    ensures forall c :: 0 <= c < |row| ==> row[c] < |a|
  {
  }

  /** What was written stays. */
  ghost predicate Stays(before: seq<nat>, now: seq<nat>, goal: seq<nat>) {
    |now| == |before| == |goal| && forall k :: 0 <= k < |now| && before[k] == goal[k] ==> now[k] == goal[k]
  }

  class RangeMin {
    const a: array<nat>
    const size: nat
    const m: nat
    var table: seq<seq<nat>>
    ghost const built: seq<nat>

    ghost predicate Valid()
      reads this
    {
      size > 0 && |built| == a.Length > 0 && m == Blocks(|built|, size) && Table(built, size, table)
    }

    /** Each value is the one the table was built from, or the one being written. */
    ghost predicate Sees(goal: seq<nat>)
      reads this, a
    {
      |goal| == |built| == a.Length && forall k :: 0 <= k < a.Length ==> a[k] == built[k] || a[k] == goal[k]
    }

    constructor (a: array<nat>, size: nat)
      requires a.Length > 0 && size > 0
      ensures Valid() && this.a == a && built == a[..] && fresh(this)
    {
      this.a, this.size, this.m := a, size, Blocks(a.Length, size);
      this.built := a[..];
      table := [];
      new;
      hide Row;
      var depth := Log2Up(m + 1);
      BitsBound(m);
      var row := BlockMinima();
      table := [row];
      var dist := 1;
      for j := 1 to depth
        invariant |table| == j && dist == Pow2(j - 1)
        invariant forall k :: 0 <= k < j ==> Row(built, size, k, table[k])
      {
        row := WiderRow(table[j - 1], j - 1, dist);
        table := table + [row];
        dist := dist * 2;
      }
    }

    /** The row of twice the width; entries from m - dist on are copied. */
    method WiderRow(row: seq<nat>, ghost k: nat, dist: nat) returns (next: seq<nat>)
      requires size > 0 && a.Length > 0 && m == Blocks(a.Length, size) && built == a[..]
      requires Row(built, size, k, row) && dist == Pow2(k)
      ensures Row(built, size, k + 1, next)
    {
      next := [];
      for b := 0 to m
        invariant |next| == b
        invariant forall c :: 0 <= c < b ==>
          ArgMin(built, First(c, size), Last(Clip(c + Pow2(k + 1) - 1, m), size, |built|), next[c])
      {
        NextRow(built, size, k, row, dist, b);
        assert forall c :: 0 <= c < m ==> row[c] < |built| by { RowInRange(built, size, k, row); }
        var entry := row[b];
        if b + dist < m && a[row[b + dist]] < a[row[b]] {
          entry := row[b + dist];
        }
        next := next + [entry];
      }
    }

    /** The minimum within each block. */
    method BlockMinima() returns (row: seq<nat>)
      requires size > 0 && a.Length > 0 && m == Blocks(a.Length, size) && built == a[..]
      ensures Row(built, size, 0, row)
    {
      row := [];
      for b := 0 to m
        invariant |row| == b
        invariant forall c :: 0 <= c < b ==> ArgMin(built, First(c, size), Last(c, size, |built|), row[c])
      {
        LastFirst(b, size, a.Length);
        var end := if (b + 1) * size <= a.Length then (b + 1) * size else a.Length;
        var k := b * size;
        for j := k + 1 to end
          invariant ArgMin(built, First(b, size), j - 1, k)
        {
          k := if a[k] < a[j] then k else j;
        }
        row := row + [k];
      }
    }

    /** Any number of writes by other threads. */
    method OthersWrite(goal: seq<nat>)
      requires Valid() && Sees(goal)
      modifies a
      ensures Sees(goal) && Stays(old(a[..]), a[..], goal)
    {
      var writes: nat :| true;
      for w := 0 to writes
        invariant Sees(goal) && Stays(old(a[..]), a[..], goal)
      {
        var k: nat :| k < a.Length;
        a[k] := goal[k];
      }
    }

    /** Reads one value, after whatever the other threads did. */
    method Read(k: nat, goal: seq<nat>, ghost len: nat) returns (v: nat)
      requires Valid() && k < a.Length && Sees(goal) && Stable(built, goal, len)
      modifies a
      ensures Sees(goal) && Stays(old(a[..]), a[..], goal) && Cap(v, len) == Cap(built[k], len)
    {
      OthersWrite(goal);
      v := a[k];
    }

    /** The comparison that every step of a query makes. */
    method MinIndex(i: nat, j: nat, goal: seq<nat>, ghost len: nat) returns (r: nat)
      requires Valid() && i < a.Length && j < a.Length && Sees(goal) && Stable(built, goal, len)
      modifies a
      ensures Sees(goal) && Stays(old(a[..]), a[..], goal) && (r == i || r == j)
      ensures Cap(built[r], len) <= Cap(built[i], len) && Cap(built[r], len) <= Cap(built[j], len)
    {
      hide Table, Stable;
      var y := Read(j, goal, len);
      var x := Read(i, goal, len);
      r := if y < x then j else i;
    }

    /** A least position of i..to, comparing one position after the other. */
    method Scan(i: nat, to: nat, goal: seq<nat>, ghost len: nat) returns (r: nat)
      requires Valid() && Sees(goal) && Stable(built, goal, len) && i <= to < a.Length
      modifies a
      ensures Sees(goal) && Stays(old(a[..]), a[..], goal) && LeastUpTo(built, len, i, to, r)
    {
      hide Table, Stable;
      r := i;
      for k := i + 1 to to + 1
        invariant Sees(goal) && Stays(old(a[..]), a[..], goal) && LeastUpTo(built, len, i, k - 1, r)
      {
        r := MinIndex(r, k, goal, len);
      }
    }

    /** The least position of two stretches that cover one. */
    method Better(ghost i: int, ghost j: int, ghost i': int, ghost j': int, r: nat, r': nat, goal: seq<nat>,
        ghost len: nat)
      returns (best: nat)
      requires Valid() && Sees(goal) && Stable(built, goal, len)
      requires LeastUpTo(built, len, i, j, r) && LeastUpTo(built, len, i', j', r')
      requires i <= i' <= j + 1 && j <= j'
      modifies a
      ensures Sees(goal) && Stays(old(a[..]), a[..], goal) && LeastUpTo(built, len, i, j', best)
    {
      hide Table, Stable;
      best := MinIndex(r, r', goal, len);
      Combine(built, len, i, j, i', j', r, r', best);
    }

    /** A least position of the blocks bi..bj, from the table. */
    method InnerBlocks(bi: nat, bj: nat, goal: seq<nat>, ghost len: nat) returns (r: nat)
      requires Valid() && Sees(goal) && Stable(built, goal, len) && bi <= bj && bj + 1 < m
      modifies a
      ensures Sees(goal) && Stays(old(a[..]), a[..], goal)
        && LeastUpTo(built, len, First(bi, size), First(bj + 1, size) - 1, r)
    {
      hide Table, Stable, LeastUpTo, First, Blocks, Log2Up;
      if bj == bi {
        Entry(0, bi, len);
        r := table[0][bi];
      } else if bj == bi + 1 {
        Entry(1, bi, len);
        r := table[1][bi];
      } else {
        var c := bj - bi + 1;
        WindowsCover(c, m);
        var k := Log2Up(c) - 1;
        var p := Pow2(k);
        Entry(k, bi, len);
        Entry(k, bj + 1 - p, len);
        FirstGrows(bi, bj + 1 - p, size);
        FirstGrows(bj + 1 - p, bi + p, size);
        FirstGrows(bi + p, bj + 1, size);
        r := Better(First(bi, size), First(bi + p, size) - 1, First(bj + 1 - p, size), First(bj + 1, size) - 1,
          table[k][bi], table[k][bj + 1 - p], goal, len);
      }
    }

    /** An entry whose window ends before the last block is a least position of the whole window. */
    lemma Entry(k: nat, b: nat, len: nat)
      requires Valid() && b + Pow2(k) < m && Pow2(k) <= m
      ensures k < |table| && |table[k]| == m
      ensures LeastUpTo(built, len, First(b, size), First(b + Pow2(k), size) - 1, table[k][b])
    {
      assert k < Log2Up(m + 1) by {
        BitsBound(m);
        if k >= Bits(m) {
          Pow2Grows(Bits(m), k);
        }
      }
      Pow2Positive(k);
      assert Row(built, size, k, table[k]);
      LastFirst(b + Pow2(k) - 1, size, |built|);
      ArgMinIsLeast(built, len, First(b, size), First(b + Pow2(k), size) - 1, table[k][b]);
    }

    /** The answer is in the range, and no value there is smaller, as far as values below len tell,
        whatever was written meanwhile. */
    method Query(i: nat, j: nat, goal: seq<nat>, ghost len: nat) returns (r: nat)
      requires Valid() && Sees(goal) && Stable(built, goal, len) && i <= j < a.Length
      modifies a
      ensures Sees(goal) && Stays(old(a[..]), a[..], goal) && LeastUpTo(built, len, i, j, r)
    {
      hide Table, Stable, LeastUpTo, First, Blocks;
      if j - i < size {
        r := Scan(i, j, goal, len);
        return;
      }
      var bi, bj := i / size, j / size;
      BlocksSplit(i, j, size, a.Length);
      // the end of the first block, and the start of the last
      var minl := Scan(i, First(bi + 1, size) - 1, goal, len);
      var minr := Scan(First(bj, size), j, goal, len);
      if bj == bi + 1 {
        r := Better(i, First(bj, size) - 1, First(bj, size), j, minl, minr, goal, len);
        return;
      }
      var inner := InnerBlocks(bi + 1, bj - 1, goal, len);
      FirstGrows(bi + 2, bj, size);
      var rest := Better(First(bi + 1, size), First(bj, size) - 1, First(bj, size), j, inner, minr, goal, len);
      r := Better(i, First(bi + 1, size) - 1, First(bi + 1, size), j, minl, rest, goal, len);
    }
  }

  /** Where a query longer than a block cuts its range. */
  lemma BlocksSplit(i: nat, j: nat, size: nat, n: nat)
    requires size > 0 && i + size <= j < n
    ensures i / size < j / size < Blocks(n, size)
    ensures i < First(i / size + 1, size) <= First(j / size, size) <= j
  {
    InBlock(i, size, n);
    InBlock(j, size, n);
    BlocksDiffer(i, j, size);
    LastFirst(i / size, size, n);
    MulMonotone(i / size + 1, j / size, size);
  }

  lemma FirstGrows(b: nat, c: nat, size: nat)
    requires b <= c
    ensures First(b, size) <= First(c, size)
  {
  }
}
