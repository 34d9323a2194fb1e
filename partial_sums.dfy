/** The abstract meaning of the tree's internal list.

    The tree keeps n hidden frequencies f[0..n). Its internal 1-based slot i
    holds the sum of the frequencies at 1-based positions (i - LowBit(i), i],
    which is `Aggregate(f, i)`; `Represents(v, f)` says that every slot of v
    holds its aggregate. */
module PartialSums {
  import opened Bits

  /** The frequencies of a fresh tree of size n. */
  function Zeros(n: nat): (z: seq<int>)
    ensures |z| == n
    ensures forall j :: 0 <= j < n ==> z[j] == 0
  {
    seq(n, _ => 0)
  }

  /** The sum f[lo] + ... + f[hi - 1]. */
  ghost function Sum(f: seq<int>, lo: nat, hi: nat): int
    requires lo <= hi <= |f|
    decreases hi - lo
  {
    if lo == hi then 0 else Sum(f, lo, hi - 1) + f[hi - 1]
  }

  /** Adjacent ranges add up. */
  lemma {:induction false} SumSplit(f: seq<int>, lo: nat, mid: nat, hi: nat)
    requires lo <= mid <= hi <= |f|
    ensures Sum(f, lo, mid) + Sum(f, mid, hi) == Sum(f, lo, hi)
    decreases hi - mid
  {
    if mid < hi {
      SumSplit(f, lo, mid, hi - 1);
    }
  }

  /** Adding k to f[q] adds k to exactly the sums whose range holds q. */
  lemma {:induction false} SumUpdate(f: seq<int>, q: nat, k: int, lo: nat, hi: nat)
    requires q < |f| && lo <= hi <= |f|
    ensures Sum(f[q := f[q] + k], lo, hi) == Sum(f, lo, hi) + (if lo <= q < hi then k else 0)
    decreases hi - lo
  {
    if lo < hi {
      SumUpdate(f, q, k, lo, hi - 1);
    }
  }

  /** Every sum over the frequencies of a fresh tree is zero. */
  lemma {:induction false} SumZeros(n: nat, lo: nat, hi: nat)
    requires lo <= hi <= n
    ensures Sum(Zeros(n), lo, hi) == 0
    decreases hi - lo
  {
    if lo < hi {
      SumZeros(n, lo, hi - 1);
    }
  }

  /** The value internal 1-based slot i must hold for frequencies f. */
  ghost function Aggregate(f: seq<int>, i: nat): int
    requires 1 <= i <= |f|
  {
    Sum(f, i - LowBit(i), i)
  }

  /** v is the internal list of a tree whose frequencies are f. */
  ghost predicate Represents(v: seq<int>, f: seq<int>)
  {
    |v| == |f| && forall j :: 0 <= j < |v| ==> v[j] == Aggregate(f, j + 1)
  }

  /** The internal list is determined by the frequencies. */
  lemma RepresentsUnique(v1: seq<int>, v2: seq<int>, f: seq<int>)
    requires Represents(v1, f) && Represents(v2, f)
    ensures v1 == v2
  {
  }

  /** A list of zeros represents all-zero frequencies. */
  lemma ZerosRepresentZeros(n: nat)
    ensures Represents(Zeros(n), Zeros(n))
  {
    forall j | 0 <= j < n
      ensures Zeros(n)[j] == Aggregate(Zeros(n), j + 1)
    {
      SumZeros(n, j + 1 - LowBit(j + 1), j + 1);
    }
  }

  /** 1-based slot i aggregates 1-based position p. */
  predicate Covers(i: nat, p: nat)
  {
    0 < i && i - LowBit(i) < p <= i
  }

  /** Adding k to f[q] adds k to exactly the slots that cover position q + 1. */
  lemma AggregateUpdate(f: seq<int>, q: nat, k: int, i: nat)
    requires q < |f| && 1 <= i <= |f|
    ensures Aggregate(f[q := f[q] + k], i) == Aggregate(f, i) + (if Covers(i, q + 1) then k else 0)
  {
    SumUpdate(f, q, k, i - LowBit(i), i);
  }

  /** The walk up in add: if slot i covers p, so does its parent
      i + LowBit(i), and no slot strictly between them does. */
  lemma ClimbCovers(i: nat, p: nat)
    requires Covers(i, p)
    ensures Covers(i + LowBit(i), p)
    ensures forall c :: i < c < i + LowBit(i) ==> !Covers(c, p)
  {
    ParentLowBit(i);
    forall c | i < c < i + LowBit(i)
      ensures !Covers(c, p)
    {
      LowBitShift(i, c - i);
    }
  }

  /** The sum of the aggregates of the children c of slot node (those with
      c + LowBit(c) == node) that lie in [lo, hi). */
  ghost function ChildSum(f: seq<int>, node: nat, lo: nat, hi: nat): int
    requires 1 <= lo <= hi <= |f| + 1
    decreases hi - lo
  {
    if lo == hi then 0
    else ChildSum(f, node, lo, hi - 1)
         + (if hi - 1 + LowBit(hi - 1) == node then Aggregate(f, hi - 1) else 0)
  }

  lemma {:induction false} ChildSumSplit(f: seq<int>, node: nat, lo: nat, mid: nat, hi: nat)
    requires 1 <= lo <= mid <= hi <= |f| + 1
    ensures ChildSum(f, node, lo, mid) + ChildSum(f, node, mid, hi) == ChildSum(f, node, lo, hi)
    decreases hi - mid
  {
    if mid < hi {
      ChildSumSplit(f, node, lo, mid, hi - 1);
    }
  }

  lemma {:induction false} ChildSumNone(f: seq<int>, node: nat, lo: nat, hi: nat)
    requires 1 <= lo <= hi <= |f| + 1
    requires forall c :: lo <= c < hi ==> c + LowBit(c) != node
    ensures ChildSum(f, node, lo, hi) == 0
    decreases hi - lo
  {
    if lo < hi {
      ChildSumNone(f, node, lo, hi - 1);
    }
  }

  /** When 2^(j+1) divides n, the only child of slot n in
      (n - 2^(j+1), n - 2^j] is n - 2^j, which covers (n - 2^(j+1), n - 2^j]. */
  lemma LeftChild(f: seq<int>, n: nat, j: nat, h: nat)
    requires h == Pow2(j)
    requires 1 <= n <= |f| && 2 * h <= LowBit(n)
    ensures n >= 2 * h
    ensures ChildSum(f, n, n - 2 * h + 1, n - h + 1) == Sum(f, n - 2 * h, n - h)
  {
    forall c | n - 2 * h + 1 <= c < n - h
      ensures c + LowBit(c) != n
    {
      NoParentBetween(n, j, c);
    }
    var lo, c := n - 2 * h + 1, n - h;
    ChildSumNone(f, n, lo, c);
    LowBitBelow(n, j);
    assert ChildSum(f, n, lo, c + 1) == Aggregate(f, c);
  }

  /** The children of slot n above n - 2^j, together with position n itself,
      tile the range (n - 2^j, n], for every 2^j up to LowBit(n). */
  lemma {:induction false} TileChildren(f: seq<int>, n: nat, j: nat)
    requires 1 <= n <= |f| && Pow2(j) <= LowBit(n)
    ensures f[n - 1] + ChildSum(f, n, n - Pow2(j) + 1, n) == Sum(f, n - Pow2(j), n)
  {
    if j > 0 {
      var k, h := Pow2(j), Pow2(j - 1);
      assert k == 2 * h;
      TileChildren(f, n, j - 1);
      LeftChild(f, n, j - 1, h);
      ChildSumSplit(f, n, n - k + 1, n - h + 1, n);
      SumSplit(f, n - k, n - h, n);
    }
  }

  /** The children of slot n, together with position n, make up its
      aggregate: once every child has been added in, slot n is final. */
  lemma ChildrenComplete(f: seq<int>, n: nat)
    requires 1 <= n <= |f|
    ensures f[n - 1] + ChildSum(f, n, 1, n) == Aggregate(f, n)
  {
    var low := LowBit(n);
    TileChildren(f, n, LowBitLog(n));
    ChildSumSplit(f, n, 1, n - low + 1, n);
    forall c | 1 <= c < n - low + 1
      ensures c + LowBit(c) != n
    {
      NoParentBelow(n, c);
    }
    ChildSumNone(f, n, 1, n - low + 1);
  }
}
