/** The errors the tree raises. */
module Errors {
  /** IndexError for an index or bound out of range, ValueError for a
      frequency list of the wrong length. */
  datatype Error = IndexError | ValueError

  datatype Result<T> = Ok(value: T) | Err(error: Error)

  /** The outcome of an operation that returns nothing. */
  datatype Outcome = Pass | Fail(error: Error)
}

/** The Fenwick tree (binary indexed tree) over n integer frequencies. */
module Fenwick {
  import opened Bits
  import opened PartialSums
  import opened Errors

  class FenwickTree {
    /** The number of frequencies, fixed at construction. */
    const n: nat
    /** The internal list of partial sums; slot j holds Aggregate(freq, j + 1). */
    const v: array<int>
    /** The hidden frequencies the tree stands for. */
    ghost var freq: seq<int>

    ghost predicate Valid()
      reads this, v
    {
      v.Length == n && Represents(v[..], freq)
    }

    /** A tree of n frequencies, all zero. */
    constructor (n: nat)
      ensures Valid() && fresh(v)
      ensures this.n == n && freq == Zeros(n)
    {
      this.n := n;
      v := new int[n](_ => 0);
      freq := Zeros(n);
      new;
      assert v[..] == Zeros(n);
      ZerosRepresentZeros(n);
    }

    /** The number of frequencies. */
    function Length(): (r: nat)
      reads this, v
      requires Valid()
      ensures r == |freq| && r == v.Length
    {
      n
    }

    /** The sum of the first stop frequencies, by the walk down that clears
        the lowest set bit of stop; stop outside [1, n] is an IndexError. */
    method PrefixSum(stop: int) returns (r: Result<int>)
      requires Valid()
      ensures r == if 1 <= stop <= n then Ok(Sum(freq, 0, stop)) else Err(IndexError)
    {
      if stop <= 0 || stop > n {
        return Err(IndexError);
      }
      var sum := 0;
      var s: nat := stop;
      while s > 0
        invariant s <= stop
        invariant sum + Sum(freq, 0, s) == Sum(freq, 0, stop)
        decreases s
      {
        sum := sum + v[s - 1];
        ClearLowest(s);
        SumSplit(freq, 0, s - LowBit(s), s);
        s := And(s, s - 1);
      }
      return Ok(sum);
    }

    /** The sum of the frequencies in [start, stop); IndexError unless
        0 <= start < n and start < stop <= n. */
    method RangeSum(start: int, stop: int) returns (r: Result<int>)
      requires Valid()
      ensures r == if 0 <= start < n && start < stop <= n then Ok(Sum(freq, start, stop)) else Err(IndexError)
    {
      if start < 0 || start >= n {
        return Err(IndexError);
      }
      if stop <= start || stop > n {
        return Err(IndexError);
      }
      var upper := PrefixSum(stop);
      var result := upper.value;
      if start > 0 {
        var lower := PrefixSum(start);
        result := result - lower.value;
        SumSplit(freq, 0, start, stop);
      }
      return Ok(result);
    }

    /** The frequency at idx; IndexError unless 0 <= idx < n. */
    method Get(idx: int) returns (r: Result<int>)
      requires Valid()
      ensures r == if 0 <= idx < n then Ok(freq[idx]) else Err(IndexError)
    {
      r := RangeSum(idx, idx + 1);
    }

    /** Adds k to the frequency at idx, by the walk up that adds the lowest
        set bit; IndexError, with nothing changed, unless 0 <= idx < n. */
    method Add(idx: int, k: int) returns (r: Outcome)
      requires Valid()
      modifies this, v
      ensures Valid()
      ensures r == if 0 <= idx < n then Pass else Fail(IndexError)
      ensures freq == if 0 <= idx < n then old(freq)[idx := old(freq)[idx] + k] else old(freq)
      ensures r.Fail? ==> v[..] == old(v[..])
    {
      if idx < 0 || idx >= n {
        return Fail(IndexError);
      }
      ghost var f := freq;
      ghost var p := idx + 1;
      var i: nat := idx + 1;
      while i <= n
        invariant Covers(i, p)
        invariant forall j :: 0 <= j < n ==>
          v[j] == Aggregate(f, j + 1) + (if j + 1 < i && Covers(j + 1, p) then k else 0)
        decreases n + 1 - i
      {
        v[i - 1] := v[i - 1] + k;
        ClimbCovers(i, p);
        i := i + LowBit(i);
      }
      freq := f[idx := f[idx] + k];
      forall j | 0 <= j < n
        ensures v[j] == Aggregate(freq, j + 1)
      {
        AggregateUpdate(f, idx, k, j + 1);
      }
      return Pass;
    }

    /** Replaces every frequency with f in one forward pass: copy f, then
        add each slot into its parent, lowest slot first. ValueError, with
        nothing changed, when |f| != n. */
    method Init(f: seq<int>) returns (r: Outcome)
      requires Valid()
      modifies this, v
      ensures Valid()
      ensures r == if |f| == n then Pass else Fail(ValueError)
      ensures freq == if |f| == n then f else old(freq)
      ensures r.Fail? ==> v[..] == old(v[..])
    {
      if |f| != n {
        return Fail(ValueError);
      }
      for j := 0 to n
        invariant forall q :: 0 <= q < j ==> v[q] == f[q]
      {
        v[j] := f[j];
      }
      for idx := 1 to n + 1
        invariant forall q :: 0 <= q < n ==>
          v[q] == if q + 1 < idx then Aggregate(f, q + 1) else f[q] + ChildSum(f, q + 1, 1, idx)
      {
        // Every child of idx is below idx, so the slot is already final.
        ChildrenComplete(f, idx);
        assert v[idx - 1] == Aggregate(f, idx);
        var parent := idx + LowBit(idx);
        if parent <= n {
          v[parent - 1] := v[parent - 1] + v[idx - 1];
        }
      }
      freq := f;
      return Pass;
    }
  }
}
