/** Word-frequency maps (java.util.Map<String, Integer> in the crawler) and the two
    updates the crawler applies to them: Map.merge(word, 1, Integer::sum) and the
    pointwise merge of a child's map into its parent's. */
module FreqMap {

  type Counts = map<string, nat>

  /** The count of k, 0 when k is absent. */
  function Get(m: Counts, k: string): nat {
    if k in m then m[k] else 0
  }

  /** Every present word has been seen at least once. */
  predicate Positive(m: Counts) {
    forall k :: k in m ==> m[k] >= 1
  }

  /** result.merge(word, 1, Integer::sum): one more occurrence of w. */
  function Bump(m: Counts, w: string): (r: Counts)
    ensures r.Keys == m.Keys + {w}
    ensures Get(r, w) == Get(m, w) + 1
    ensures forall k :: k != w ==> Get(r, k) == Get(m, k)
  {
    m[w := Get(m, w) + 1]
  }

  /** Pointwise Integer::sum of two maps: the keys of either, the counts added. */
  function Merge(a: Counts, b: Counts): (r: Counts)
    ensures r.Keys == a.Keys + b.Keys
    ensures forall k :: Get(r, k) == Get(a, k) + Get(b, k)
  {
    map k | k in a.Keys + b.Keys :: Get(a, k) + Get(b, k)
  }

  lemma MergePositive(a: Counts, b: Counts)
    requires Positive(a) && Positive(b)
    ensures Positive(Merge(a, b))
  {
  }

  lemma MergeEmptyLeft(a: Counts)
    ensures Merge(map[], a) == a
  {
  }

  lemma MergeEmptyRight(a: Counts)
    ensures Merge(a, map[]) == a
  {
  }

  /** The order in which two maps are merged does not matter. */
  lemma MergeCommutative(a: Counts, b: Counts)
    ensures Merge(a, b) == Merge(b, a)
  {
  }

  /** Nor does the grouping of three merges. */
  lemma MergeAssociative(a: Counts, b: Counts, c: Counts)
    ensures Merge(Merge(a, b), c) == Merge(a, Merge(b, c))
  {
    var l := Merge(Merge(a, b), c);
    var r := Merge(a, Merge(b, c));
    assert forall k :: k in l ==> Get(l, k) == Get(r, k);
  }

  /** The total of all counts; it is chosen key by key, which is why it is ghost. */
  ghost function SumValues(m: Counts): nat
    decreases |m|
  {
    if m == map[] then 0
    else
      var k :| k in m;
      m[k] + SumValues(m - {k})
  }

  /** The total does not depend on which key is taken out first. */
  lemma {:induction false} SumValuesRemove(m: Counts, k: string)
    ensures SumValues(m) == Get(m, k) + SumValues(m - {k})
    decreases |m|
  {
    if k !in m {
      assert m - {k} == m;
    } else {
      var j :| j in m && SumValues(m) == m[j] + SumValues(m - {j});
      if j != k {
        SumValuesRemove(m - {j}, k);
        SumValuesRemove(m - {k}, j);
        assert m - {j} - {k} == m - {k} - {j};
      }
    }
  }

  /** Counting one more occurrence adds one to the total. */
  lemma BumpSum(m: Counts, w: string)
    ensures SumValues(Bump(m, w)) == SumValues(m) + 1
  {
    var r := Bump(m, w);
    SumValuesRemove(r, w);
    SumValuesRemove(m, w);
    assert r - {w} == m - {w};
  }

  /** Merging loses and invents no occurrences. */
  lemma {:induction false} MergeSum(a: Counts, b: Counts)
    ensures SumValues(Merge(a, b)) == SumValues(a) + SumValues(b)
    decreases |b|
  {
    if b == map[] {
      MergeEmptyRight(a);
    } else {
      var k :| k in b;
      var b' := b - {k};
      MergeSum(a, b');
      var m := Merge(a, b);
      var m' := Merge(a, b');
      SumValuesRemove(m, k);
      SumValuesRemove(m', k);
      SumValuesRemove(b, k);
      MergeRemove(a, b, k);
    }
  }

  lemma MergeRemove(a: Counts, b: Counts, k: string)
    ensures Merge(a, b) - {k} == Merge(a, b - {k}) - {k}
  {
    var l := Merge(a, b) - {k};
    var r := Merge(a, b - {k}) - {k};
    assert l.Keys == r.Keys;
    forall j | j in l
      ensures l[j] == r[j]
    {
      assert Get(Merge(a, b), j) == Get(Merge(a, b - {k}), j);
    }
  }
}
