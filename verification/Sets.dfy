/** Finite-set facts the accounting theorems rest on. */
module Sets {

  /** The sequence numbers 1..n. */
  function Range(n: nat): (r: set<int>)
    ensures forall k :: k in r <==> 1 <= k <= n
  {
    if n == 0 then {} else Range(n - 1) + {n}
  }

  lemma {:induction false} RangeSize(n: nat)
    ensures |Range(n)| == n
  {
    if n == 0 {
      assert Range(0) == {};
    } else {
      RangeSize(n - 1);
      assert Range(n) == Range(n - 1) + {n};
    }
  }

  lemma {:induction false} SubsetSize<T>(a: set<T>, b: set<T>)
    requires a <= b
    ensures |a| <= |b|
    ensures |b - a| == |b| - |a|
  {
    assert b == a + (b - a);
  }

  /** Five pairwise disjoint sets that together make up `whole`. */
  predicate Partition(a: set<int>, b: set<int>, c: set<int>, d: set<int>, e: set<int>, whole: set<int>) {
    && a !! b !! c !! d !! e
    && a + b + c + d + e == whole
  }

  /** In how many of five sets k is. */
  function InOne(a: set<int>, b: set<int>, c: set<int>, d: set<int>, e: set<int>, k: int): nat {
    (if k in a then 1 else 0) + (if k in b then 1 else 0) + (if k in c then 1 else 0)
    + (if k in d then 1 else 0) + (if k in e then 1 else 0)
  }

  lemma PartitionFromCounts(a: set<int>, b: set<int>, c: set<int>, d: set<int>, e: set<int>, whole: set<int>)
    requires forall k :: InOne(a, b, c, d, e, k) == if k in whole then 1 else 0
    ensures Partition(a, b, c, d, e, whole)
  {
    forall k | k in a
      ensures k !in b + c + d + e
    {
      assert InOne(a, b, c, d, e, k) <= 1;
    }
    forall k | k in b
      ensures k !in c + d + e
    {
      assert InOne(a, b, c, d, e, k) <= 1;
    }
    forall k | k in c
      ensures k !in d + e
    {
      assert InOne(a, b, c, d, e, k) <= 1;
    }
    forall k | k in d
      ensures k !in e
    {
      assert InOne(a, b, c, d, e, k) <= 1;
    }
    forall k
      ensures k in a + b + c + d + e <==> k in whole
    {
      assert InOne(a, b, c, d, e, k) == if k in whole then 1 else 0;
    }
  }

  lemma PartitionSize(a: set<int>, b: set<int>, c: set<int>, d: set<int>, e: set<int>, whole: set<int>)
    requires Partition(a, b, c, d, e, whole)
    ensures |whole| == |a| + |b| + |c| + |d| + |e|
  {
    assert |a + b| == |a| + |b|;
    assert |a + b + c| == |a + b| + |c|;
    assert |a + b + c + d| == |a + b + c| + |d|;
  }

  /** A finite set of integers inside lo..hi has at most hi - lo + 1 elements. */
  lemma {:induction false} IntervalSize(a: set<int>, lo: int, hi: int)
    requires lo <= hi + 1
    requires forall k :: k in a ==> lo <= k <= hi
    ensures |a| <= hi - lo + 1
    decreases hi - lo + 1
  {
    if lo == hi + 1 {
      assert a == {};
    } else {
      var rest := a - {lo};
      IntervalSize(rest, lo + 1, hi);
      assert a <= rest + {lo};
      SubsetSize(a, rest + {lo});
    }
  }
}
