/** Clients of the tree that state what tests/test_fenwick.py checks:
    loading frequencies with Init and adding them one at a time give the
    same internal list, and the queries of the ten-element example. */
module FenwickScenarios {
  import opened PartialSums
  import opened Errors
  import opened Fenwick

  /** Builds one tree with Init(f) and another by Add(idx, f[idx]) for every
      idx, both from fresh trees of size |f|; they end in the same state. */
  method BuildTwoWays(f: seq<int>) returns (byInit: FenwickTree, byAdds: FenwickTree)
    ensures fresh(byInit) && fresh(byInit.v) && fresh(byAdds) && fresh(byAdds.v)
    ensures byInit.Valid() && byAdds.Valid()
    ensures byInit.freq == f && byAdds.freq == f
    ensures byInit.n == byAdds.n == |f|
    ensures byInit.v[..] == byAdds.v[..]
  {
    byInit := new FenwickTree(|f|);
    var status := byInit.Init(f);
    byAdds := new FenwickTree(|f|);
    for idx := 0 to |f|
      invariant fresh(byAdds.v) && byAdds.v != byInit.v
      invariant byInit.Valid() && byInit.freq == f
      invariant byAdds.Valid() && byAdds.n == |f|
      invariant byAdds.freq == f[..idx] + Zeros(|f| - idx)
    {
      status := byAdds.Add(idx, f[idx]);
      assert f[..idx + 1] + Zeros(|f| - idx - 1) == (f[..idx] + Zeros(|f| - idx))[idx := f[idx]];
    }
    assert byAdds.freq == f;
    RepresentsUnique(byInit.v[..], byAdds.v[..], f);
  }

  /** The example of ten frequencies 1, 2, ..., 10. */
  method TenExample() returns (total: Result<int>, middle: Result<int>, sixth: Result<int>, outside: Result<int>)
    ensures total == Ok(55)
    ensures middle == Ok(42)
    ensures sixth == Ok(6)
    ensures outside == Err(IndexError)
  {
    var t := new FenwickTree(10);
    var status := t.Init([1, 2, 3, 4, 5, 6, 7, 8, 9, 10]);
    total := t.PrefixSum(10);
    middle := t.RangeSum(2, 9);
    sixth := t.Get(5);
    outside := t.PrefixSum(0);
  }

  /** Adding to one frequency of a zero tree changes that frequency only. */
  method AddToZeros() returns (total: Result<int>, changed: Result<int>, other: Result<int>)
    ensures total == Ok(10)
    ensures changed == Ok(10)
    ensures other == Ok(0)
  {
    var t := new FenwickTree(5);
    var status := t.Add(2, 10);
    total := t.RangeSum(0, 5);
    changed := t.Get(2);
    other := t.Get(1);
  }
}
