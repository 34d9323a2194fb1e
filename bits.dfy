/** Index arithmetic of the Fenwick tree, on unbounded naturals.

    The source computes the value of the lowest set bit of an index as
    `i & -i` and clears it with `i &= i - 1`. Here bitwise and is defined
    arithmetically (`And`), the lowest set bit is `LowBit`, and two lemmas
    connect them: `ClearLowest` for the walk down and `LowBitIsAndNegation`
    for the two's-complement expression used on the walk up. */
module Bits {

  /** 2 to the power w. */
  function Pow2(w: nat): (r: nat)
    ensures r >= 1
  {
    if w == 0 then 1 else 2 * Pow2(w - 1)
  }

  /** The value of the lowest set bit of i; the source writes it `i & -i`. */
  function LowBit(i: nat): (r: nat)
    requires i > 0
    ensures 1 <= r <= i
    ensures r == 1 <==> i % 2 == 1
  {
    if i % 2 == 1 then 1 else 2 * LowBit(i / 2)
  }

  /** The exponent of the lowest set bit of i. */
  ghost function LowBitLog(i: nat): (j: nat)
    requires i > 0
    ensures Pow2(j) == LowBit(i)
  {
    if i % 2 == 1 then 0 else 1 + LowBitLog(i / 2)
  }

  /** Bitwise and of two naturals, bit by bit from the least significant. */
  function And(a: nat, b: nat): (r: nat)
    ensures r <= a && r <= b
  {
    if a == 0 || b == 0 then 0
    else 2 * And(a / 2, b / 2) + (if a % 2 == 1 && b % 2 == 1 then 1 else 0)
  }

  lemma {:induction false} AndSelf(x: nat)
    ensures And(x, x) == x
  {
    if x > 0 {
      AndSelf(x / 2);
    }
  }

  /** A number below 2^m shares no bit with its m-bit complement. */
  lemma {:induction false} AndComplement(x: nat, m: nat)
    requires x < Pow2(m)
    ensures And(x, Pow2(m) - 1 - x) == 0
  {
    var y := Pow2(m) - 1 - x;
    if x > 0 && y > 0 {
      assert m > 0;
      assert y / 2 == Pow2(m - 1) - 1 - x / 2;
      AndComplement(x / 2, m - 1);
    }
  }

  /** `stop & (stop - 1)` clears the lowest set bit of stop: it is the
      step of the walk down in prefix_sum. */
  lemma {:induction false} ClearLowest(i: nat)
    requires i > 0
    ensures And(i, i - 1) == i - LowBit(i)
  {
    if i % 2 == 1 {
      if i > 1 {
        assert (i - 1) / 2 == i / 2;
        AndSelf(i / 2);
      }
    } else {
      assert (i - 1) / 2 == i / 2 - 1;
      ClearLowest(i / 2);
    }
  }

  /** In w-bit two's complement, with i below 2^w, `-i` is `2^w - i`, and
      `i & -i` is the lowest set bit of i. Python's integers behave as if w
      were as large as needed, so this is the source's `idx & -idx`. */
  lemma {:induction false} LowBitIsAndNegation(i: nat, w: nat)
    requires 0 < i < Pow2(w)
    ensures And(i, Pow2(w) - i) == LowBit(i)
  {
    assert w > 0;
    var y := Pow2(w) - i;
    if i % 2 == 1 {
      assert y / 2 == Pow2(w - 1) - 1 - i / 2;
      AndComplement(i / 2, w - 1);
    } else {
      assert y / 2 == Pow2(w - 1) - i / 2;
      LowBitIsAndNegation(i / 2, w - 1);
    }
  }

  /** Climbing from i to its parent i + LowBit(i) at least doubles the
      lowest set bit, so the parent's range strictly contains the child's. */
  lemma {:induction false} ParentLowBit(i: nat)
    requires i > 0
    ensures LowBit(i + LowBit(i)) >= 2 * LowBit(i)
  {
    if i % 2 == 0 {
      assert (i + LowBit(i)) / 2 == i / 2 + LowBit(i / 2);
      ParentLowBit(i / 2);
    }
  }

  /** Adding to a a number d smaller than a's lowest set bit leaves the
      lowest set bit of d. */
  lemma {:induction false} LowBitShift(a: nat, d: nat)
    requires a > 0 && 0 < d < LowBit(a)
    ensures LowBit(a + d) == LowBit(d)
  {
    if d % 2 == 0 {
      assert (a + d) / 2 == a / 2 + d / 2;
      LowBitShift(a / 2, d / 2);
    }
  }

  /** When 2^(j+1) divides n, n - 2^j has lowest set bit exactly 2^j. */
  lemma {:induction false} LowBitBelow(n: nat, j: nat)
    requires n > 0 && LowBit(n) >= 2 * Pow2(j)
    ensures n > Pow2(j) && LowBit(n - Pow2(j)) == Pow2(j)
  {
    if j > 0 {
      assert (n - Pow2(j)) / 2 == n / 2 - Pow2(j - 1);
      LowBitBelow(n / 2, j - 1);
    }
  }

  /** When 2^(j+1) divides n, no index strictly between n - 2^(j+1) and
      n - 2^j has n as its parent. */
  lemma {:induction false} NoParentBetween(n: nat, j: nat, c: nat)
    requires n > 0 && LowBit(n) >= 2 * Pow2(j)
    requires n - 2 * Pow2(j) < c < n - Pow2(j)
    ensures c + LowBit(c) != n
  {
    if j > 0 && c % 2 == 0 {
      assert (c + LowBit(c)) / 2 == c / 2 + LowBit(c / 2);
      NoParentBetween(n / 2, j - 1, c / 2);
    }
  }

  /** An index at or below n - LowBit(n) does not have n as its parent. */
  lemma NoParentBelow(n: nat, c: nat)
    requires 0 < c < n && c + LowBit(n) <= n
    ensures c + LowBit(c) != n
  {
  }
}
