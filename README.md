# Fenwick tree (binary indexed tree), modelled in Dafny

This project models the `FenwickTree` class of the `fenwick` Python package
(fenwick/fenwick.py). The tree stands for `n` integer frequencies. It stores
them as a fixed-length list of partial sums. Internal 1-based slot `i` holds
the sum of the frequencies at 1-based positions `(i - lowbit(i), i]`, where
`lowbit(i) = i & -i` is the lowest set bit of `i`.

- `bits.dfy`, module `Bits`: the index arithmetic on unbounded naturals.
  `LowBit` is defined by halving. `And` is bitwise and, defined bit by bit.
  Lemmas tie them to the expressions the source uses: `stop & (stop - 1)` is
  `stop - LowBit(stop)`, and `i & -i` (two's complement) is `LowBit(i)`.
  Further lemmas describe how parents and children of a slot are placed.
- `partial_sums.dfy`, module `PartialSums`: the abstract meaning of the list.
  `Sum(f, lo, hi)` sums `f[lo..hi)`. `Aggregate(f, i)` is what slot `i` must
  hold. `Represents(v, f)` says every slot of `v` holds its aggregate.
  `ChildSum` sums the aggregates of a slot's children that `init` has
  already added in. The lemmas show that a point update changes exactly the
  covering slots, and that a slot's children tile its range.
- `fenwick.dfy`, modules `Errors` and `Fenwick`: the class `FenwickTree`. It
  has the size `n`, the list as an `array<int>` `v`, and a ghost sequence
  `freq` of frequencies. `Valid()` is `Represents(v[..], freq)`. Each method
  follows the source's loop and returns `Err(IndexError)` or
  `Fail(ValueError)` where the source raises.
- `scenarios.dfy`, module `FenwickScenarios`: clients that state what the
  test file checks. Loading with `init` and adding one frequency at a time
  give the same list. It also covers the ten-element example and one update
  on a zero tree.
- `find_stop_spec.dfy`, module `FindStopSpec`: a reference specification
  of `find_stop`, built only from the test file's assertions. The source
  file ends before `find_stop`, so this is not a model of its algorithm.

Python integers are unbounded, so `int` and `nat` model them exactly. No
wrap-around arises.

## Model

| member | source | states |
|---|---|---|
| `Bits.LowBit` | fenwick/fenwick.py:79 | the lowest set bit of i > 0 lies in [1, i], and it is 1 exactly when i is odd |
| `Bits.And` | fenwick/fenwick.py:55 | bitwise and of naturals is at most each operand |
| `Bits.ClearLowest` | fenwick/fenwick.py:55 | `stop & (stop - 1)` equals `stop - LowBit(stop)`, so the walk down stays non-negative and strictly decreases |
| `Bits.LowBitIsAndNegation` | fenwick/fenwick.py:79 | for i below 2^w, i and its w-bit two's-complement negation 2^w - i share exactly the bit LowBit(i): `i & -i` is LowBit(i) |
| `Bits.ParentLowBit` | fenwick/fenwick.py:79 | the parent i + LowBit(i) has a lowest set bit at least twice LowBit(i), so its range strictly contains the child's |
| `Bits.LowBitShift` | fenwick/fenwick.py:79 | for 0 < d < LowBit(a), LowBit(a + d) == LowBit(d) |
| `Bits.LowBitBelow` | fenwick/fenwick.py:87-90 | when 2^(j+1) divides n, n - 2^j has lowest set bit exactly 2^j, so it is a child of n |
| `Bits.NoParentBetween` | fenwick/fenwick.py:87-90 | when 2^(j+1) divides n, no index strictly between n - 2^(j+1) and n - 2^j has parent n |
| `Bits.NoParentBelow` | fenwick/fenwick.py:87-90 | no index at or below n - LowBit(n) has parent n |
| `Bits.LowBitLog` | fenwick/fenwick.py:79 | LowBit(i) is a power of two, 2^LowBitLog(i) |
| `PartialSums.Zeros` | fenwick/fenwick.py:43 | a fresh list has n entries, all 0 |
| `PartialSums.SumSplit` | fenwick/fenwick.py:64-66 | sum over [lo, mid) plus sum over [mid, hi) is the sum over [lo, hi): what makes prefix_sum(stop) - prefix_sum(start) the range sum |
| `PartialSums.SumUpdate` | fenwick/fenwick.py:72-78 | adding k to f[q] adds k to exactly the sums whose range holds q |
| `PartialSums.SumZeros` | fenwick/fenwick.py:40-43 | every sum over all-zero frequencies is 0 |
| `PartialSums.RepresentsUnique` | tests/test_fenwick.py:38 | two lists that both represent f are equal: the list is a function of the frequencies |
| `PartialSums.ZerosRepresentZeros` | fenwick/fenwick.py:40-43 | a zero list represents all-zero frequencies |
| `PartialSums.AggregateUpdate` | fenwick/fenwick.py:77-79 | adding k to frequency q adds k to slot i exactly when slot i covers position q + 1 |
| `PartialSums.ClimbCovers` | fenwick/fenwick.py:77-79 | if slot i covers p, its parent i + LowBit(i) covers p, and no slot strictly between them does: the walk up visits exactly the covering slots |
| `PartialSums.LeftChild` | fenwick/fenwick.py:87-90 | in (n - 2^(j+1), n - 2^j] the only child of n is n - 2^j, and it aggregates exactly that range |
| `PartialSums.TileChildren` | fenwick/fenwick.py:87-90 | the children of n above n - 2^j, plus f[n-1], sum to the frequencies in (n - 2^j, n], for each 2^j up to LowBit(n) |
| `PartialSums.ChildrenComplete` | fenwick/fenwick.py:87-90 | f[n-1] plus the aggregates of all children of n is Aggregate(f, n): once the loop passes every child, slot n is final |
| `Fenwick.FenwickTree.constructor` | fenwick/fenwick.py:40-43 | a fresh tree of size n is valid, and all its frequencies are 0 |
| `Fenwick.FenwickTree.Length` | fenwick/fenwick.py:45-46 | the length is the number of frequencies and of list slots |
| `Fenwick.FenwickTree.PrefixSum` | fenwick/fenwick.py:48-56 | for 1 <= stop <= n, the sum of frequencies [0, stop); otherwise IndexError |
| `Fenwick.FenwickTree.RangeSum` | fenwick/fenwick.py:58-67 | for 0 <= start < n and start < stop <= n, the sum of frequencies [start, stop); otherwise IndexError |
| `Fenwick.FenwickTree.Get` | fenwick/fenwick.py:69-70 | for 0 <= idx < n, the frequency at idx; otherwise IndexError |
| `Fenwick.FenwickTree.Add` | fenwick/fenwick.py:72-79 | for 0 <= idx < n, frequency idx grows by k and the others stay; the tree stays valid; otherwise IndexError and the list is unchanged |
| `Fenwick.FenwickTree.Init` | fenwick/fenwick.py:81-90 | for \|f\| == n, the frequencies become f and each slot i holds the sum of f over (i - LowBit(i), i]; otherwise ValueError and the list is unchanged |
| `FenwickScenarios.BuildTwoWays` | tests/test_fenwick.py:13-38 | init(f) on a fresh tree and add(idx, f[idx]) for every idx on another fresh tree give equal lists, both holding f |
| `FenwickScenarios.TenExample` | tests/test_fenwick.py:9-23 | with frequencies 1..10: prefix_sum(10) is 55, range_sum(2, 9) is 42, tree[5] is 6, prefix_sum(0) is an IndexError |
| `FenwickScenarios.AddToZeros` | fenwick/fenwick.py:69-79 | on a zero tree of size 5, add(2, 10) gives total 10, tree[2] == 10 and tree[1] == 0 |
| `FindStopSpec.FindStopIsLeast` | tests/test_fenwick.py:41-57 | the reference stop is never 0; a stop meets the threshold and the stop before it does not; -1 exactly when no stop meets it |
| `FindStopSpec.NotFoundExceedsTotal` | tests/test_fenwick.py:48-57 | on a non-empty tree, -1 means value > total (value >= total when strict) |
| `FindStopSpec.EmptyFindsNothing` | tests/test_fenwick.py:58 | an empty tree finds no stop |

## Left out

- Reading `version.txt` at import time (fenwick/fenwick.py:6-8): file I/O.
- The Python version check and the `_range` shim (fenwick/fenwick.py:14-25): runtime plumbing. The model uses plain `for` and `while` loops.
- `frequencies()`, `find_stop(value, strict)` and `__eq__`: the tests call them, but fenwick/fenwick.py ends at line 90, before any of them. `FindStopSpec` is only a reference specification built from the test assertions. Equality of two trees is stated as equality of their lists (`BuildTwoWays`).
- Indexed write (`set`): fenwick/fenwick.py defines no `__setitem__`, so there is nothing to model.
- Fenwick.FenwickTree.constructor: takes `n: nat`. The source does not check `n`. A negative `n` gives an empty list with `_n < 0`, and that case is not modelled.
- Floating-point frequencies: only integer frequencies are modelled.
- Arguments of the wrong Python type (which would raise TypeError): not modelled.
- The lengths in `init`'s error: the code raises a bare `ValueError()` (fenwick/fenwick.py:83-84), so the model's `ValueError` carries no lengths either.
- example.py (a printing demo) and setup.py (packaging): not part of the core.
