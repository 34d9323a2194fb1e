/** A specification of find_stop, derived from what tests/test_fenwick.py
    asserts about it. The implementation of find_stop is not part of this
    model: `FindStop` is a reference definition by linear search over the
    prefix sums, not a model of the source's algorithm. */
module FindStopSpec {
  import opened PartialSums

  /** A prefix sum satisfies the threshold: >= value, or > value when strict. */
  predicate Meets(prefix: int, value: int, strict: bool)
  {
    if strict then prefix > value else prefix >= value
  }

  /** The smallest stop in [from, |f|] whose prefix sum meets value, or -1. */
  ghost function Search(f: seq<int>, value: int, strict: bool, from: nat): int
    requires 1 <= from <= |f| + 1
    decreases |f| + 1 - from
  {
    if from > |f| then -1
    else if Meets(Sum(f, 0, from), value, strict) then from
    else Search(f, value, strict, from + 1)
  }

  /** The smallest stop in [1, |f|] whose prefix sum meets value, or -1. */
  ghost function FindStop(f: seq<int>, value: int, strict: bool): int
  {
    Search(f, value, strict, 1)
  }

  lemma {:induction false} SearchFinds(f: seq<int>, value: int, strict: bool, from: nat)
    requires 1 <= from <= |f| + 1
    ensures var r := Search(f, value, strict, from);
      && (r == -1 || from <= r <= |f|)
      && (r != -1 ==> Meets(Sum(f, 0, r), value, strict))
      && forall s :: from <= s <= |f| && (r == -1 || s < r) ==> !Meets(Sum(f, 0, s), value, strict)
    decreases |f| + 1 - from
  {
    if from <= |f| && !Meets(Sum(f, 0, from), value, strict) {
      SearchFinds(f, value, strict, from + 1);
    }
  }

  /** find_stop never returns 0; a stop it returns meets the threshold and
      the stop before it does not; -1 means no stop meets it. */
  lemma FindStopIsLeast(f: seq<int>, value: int, strict: bool)
    ensures var r := FindStop(f, value, strict);
      && r != 0
      && (r == -1 || 1 <= r <= |f|)
      && (r >= 1 ==> Meets(Sum(f, 0, r), value, strict))
      && (r >= 2 ==> !Meets(Sum(f, 0, r - 1), value, strict))
      && (r == -1 <==> forall s :: 1 <= s <= |f| ==> !Meets(Sum(f, 0, s), value, strict))
  {
    SearchFinds(f, value, strict, 1);
    var r := FindStop(f, value, strict);
    if r != -1 {
      assert 1 <= r <= |f| && Meets(Sum(f, 0, r), value, strict);
    }
  }

  /** -1 means the value exceeds the total (or, when strict, is at least
      the total), for every non-empty tree. */
  lemma NotFoundExceedsTotal(f: seq<int>, value: int, strict: bool)
    requires |f| > 0 && FindStop(f, value, strict) == -1
    ensures if strict then value >= Sum(f, 0, |f|) else value > Sum(f, 0, |f|)
  {
    SearchFinds(f, value, strict, 1);
  }

  /** An empty tree finds no stop. */
  lemma EmptyFindsNothing(value: int, strict: bool)
    ensures FindStop([], value, strict) == -1
  {
  }
}
