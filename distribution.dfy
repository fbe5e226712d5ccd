/** `buildDistribution`: the histogram the dashboard draws of a user's Q-values. */
module Distribution {
  import opened Seqs
  import RlEngine

  // ---------------------------------------------------------------------------------------------
  // Histogram of Q-values (`buildDistribution`)
  // ---------------------------------------------------------------------------------------------

  /** `max - min || 1`: the spread of the values, 1 when they are all equal. */
  function Spread(values: seq<real>): (r: real)
    requires |values| > 0
    ensures r > 0.0
  {
    assert values[0] in values;
    var d := Max(values) - Min(values);
    if d != 0.0 then d else 1.0
  }

  /** The width of one bucket. */
  function Step(values: seq<real>, buckets: nat): (r: real)
    requires |values| > 0 && buckets > 0
    ensures r > 0.0
  {
    Spread(values) / buckets as real
  }

  /** `Math.min(Math.floor((v - min) / step), buckets - 1)`: the bucket of a value at or above `lo`. */
  function BucketOf(v: real, lo: real, step: real, buckets: nat): (r: nat)
    requires lo <= v && step > 0.0 && buckets > 0
    ensures r < buckets
  {
    QuotientNonNegative(v - lo, step);
    var k := ((v - lo) / step).Floor;
    if k < buckets - 1 then k else buckets - 1
  }

  lemma QuotientNonNegative(x: real, y: real)
    requires x >= 0.0 && y > 0.0
    ensures x / y >= 0.0
  {
  }

  /** The bucket of every value, in input order. */
  function BucketIndices(values: seq<real>, buckets: nat): (r: seq<nat>)
    requires |values| > 0 && buckets > 0
    ensures |r| == |values| && forall i :: 0 <= i < |r| ==> r[i] < buckets
  {
    var lo := Min(values);
    seq(|values|, i requires 0 <= i < |values| =>
      assert values[i] in values;
      BucketOf(values[i], lo, Step(values, buckets), buckets))
  }

  /** `buckets` counters starting at zero, raising the counter of each of `indices` in turn; an index
      outside the counters is skipped. */
  function Histogram(indices: seq<nat>, buckets: nat): (r: seq<int>)
    ensures |r| == buckets
  {
    if indices == [] then seq(buckets, _ => 0)
    else
      var h, x := Histogram(indices[..|indices| - 1], buckets), indices[|indices| - 1];
      if x < buckets then h[x := h[x] + 1] else h
  }

  /** Each counter holds how many times its index occurs. */
  lemma {:induction false} HistogramCounts(indices: seq<nat>, buckets: nat, k: nat)
    requires k < buckets
    ensures Histogram(indices, buckets)[k] == multiset(indices)[k]
  {
    if indices != [] {
      var init, x := indices[..|indices| - 1], indices[|indices| - 1];
      assert init + [x] == indices;
      HistogramCounts(init, buckets, k);
      assert multiset(init + [x]) == multiset(init) + multiset{x};
    }
  }

  /** The lower edge of each of `buckets` buckets of width `step` starting at `lo`. */
  function Edges(lo: real, step: real, buckets: nat): (r: seq<real>)
    ensures |r| == buckets
  {
    seq(buckets, i requires 0 <= i < buckets => lo + step * i as real)
  }

  /** `buildDistribution(values, buckets)`: no labels and no counts for no values; otherwise the lower
      edge of each bucket and how many values fall in it. With no buckets the source's index is -1, which
      sets a property outside the (empty) array, so both lists come out empty. */
  method BuildDistribution(values: seq<real>, buckets: nat) returns (labels: seq<real>, counts: seq<int>)
    ensures |values| == 0 || buckets == 0 ==> labels == [] && counts == []
    ensures |values| > 0 && buckets > 0 ==>
      && labels == Edges(Min(values), Step(values, buckets), buckets)
      && counts == Histogram(BucketIndices(values, buckets), buckets)
  {
    if |values| == 0 {
      return [], [];
    }
    var lo := Min(values);
    var hi := Max(values);
    assert values[0] in values;
    var range := if hi - lo != 0.0 then hi - lo else 1.0;
    if buckets == 0 {
      return [], [];
    }
    var step := range / buckets as real;
    assert step == Step(values, buckets);
    labels := [];
    for i := 0 to buckets
      invariant labels == Edges(lo, step, i)
    {
      EdgesAppend(lo, step, i);
      labels := labels + [lo + step * i as real];
    }
    counts := CountBuckets(values, buckets, lo, step);
  }

  /** The `values.forEach` pass of `buildDistribution`: each value raises the counter of its bucket. */
  method CountBuckets(values: seq<real>, buckets: nat, lo: real, step: real) returns (counts: seq<int>)
    requires |values| > 0 && buckets > 0
    requires lo == Min(values) && step == Step(values, buckets)
    ensures counts == Histogram(BucketIndices(values, buckets), buckets)
  {
    var tally := new int[buckets](_ => 0);
    ghost var indices := BucketIndices(values, buckets);
    assert indices[..0] == [];
    for j := 0 to |values|
      invariant tally[..] == Histogram(indices[..j], buckets)
    {
      assert values[j] in values;
      var idx := BucketOf(values[j], lo, step, buckets);
      HistogramPrefix(indices, j, buckets);
      ghost var before := tally[..];
      tally[idx] := tally[idx] + 1;
      assert tally[..] == before[idx := before[idx] + 1];
    }
    assert indices[..|values|] == indices;
    counts := tally[..];
  }

  lemma EdgesAppend(lo: real, step: real, n: nat)
    ensures Edges(lo, step, n + 1) == Edges(lo, step, n) + [lo + step * n as real]
  {
    var e, f := Edges(lo, step, n + 1), Edges(lo, step, n) + [lo + step * n as real];
    forall i | 0 <= i < n + 1 ensures e[i] == f[i] {
      if i < n {
        assert f[i] == Edges(lo, step, n)[i];
      }
    }
  }

  lemma HistogramAppend(indices: seq<nat>, x: nat, buckets: nat)
    requires x < buckets
    ensures Histogram(indices + [x], buckets) == Histogram(indices, buckets)[x := Histogram(indices, buckets)[x] + 1]
  {
    assert (indices + [x])[..|indices|] == indices;
  }

  lemma HistogramPrefix(indices: seq<nat>, j: nat, buckets: nat)
    requires j < |indices| && indices[j] < buckets
    ensures var h := Histogram(indices[..j], buckets);
      Histogram(indices[..j + 1], buckets) == h[indices[j] := h[indices[j]] + 1]
  {
    assert indices[..j + 1] == indices[..j] + [indices[j]];
    HistogramAppend(indices[..j], indices[j], buckets);
  }

  /** Every index inside the range is counted exactly once. */
  lemma {:induction false} HistogramTotal(indices: seq<nat>, buckets: nat)
    requires forall i :: 0 <= i < |indices| ==> indices[i] < buckets
    ensures Sum(Histogram(indices, buckets)) == |indices|
  {
    if indices == [] {
      SumZeros(Histogram(indices, buckets));
    } else {
      var init, x := indices[..|indices| - 1], indices[|indices| - 1];
      assert init + [x] == indices;
      HistogramTotal(init, buckets);
      HistogramAppend(init, x, buckets);
      SumIncrement(Histogram(init, buckets), x);
    }
  }

  /** The counts of the histogram add up to the number of values: every value lands in some bucket. */
  lemma DistributionTotal(values: seq<real>, buckets: nat)
    requires |values| > 0 && buckets > 0
    ensures Sum(Histogram(BucketIndices(values, buckets), buckets)) == |values|
  {
    HistogramTotal(BucketIndices(values, buckets), buckets);
  }

  /** The buckets start at the smallest value and together span the values: `buckets` steps of the
      bucket width cover exactly the spread. */
  lemma EdgesSpanValues(values: seq<real>, buckets: nat)
    requires |values| > 0 && buckets > 0
    ensures var labels := Edges(Min(values), Step(values, buckets), buckets);
      && labels[0] == Min(values)
      && (forall i :: 0 < i < buckets ==> labels[i] == labels[i - 1] + Step(values, buckets))
      && labels[buckets - 1] + Step(values, buckets) == Min(values) + Spread(values)
  {
    var lo, spread, step := Min(values), Spread(values), Step(values, buckets);
    EdgesEvenlySpaced(lo, step, buckets);
    ScaledBack(spread, buckets, step);
  }

  lemma EdgesEvenlySpaced(lo: real, step: real, buckets: nat)
    requires buckets > 0
    ensures var labels := Edges(lo, step, buckets);
      && labels[0] == lo
      && (forall i :: 0 < i < buckets ==> labels[i] == labels[i - 1] + step)
      && labels[buckets - 1] + step == lo + step * buckets as real
  {
    var labels := Edges(lo, step, buckets);
    forall i | 0 < i < buckets ensures labels[i] == labels[i - 1] + step {
      assert labels[i] == lo + step * i as real;
      assert labels[i - 1] == lo + step * (i - 1) as real;
      MulSucc(step, i - 1);
    }
    assert labels[buckets - 1] == lo + step * (buckets - 1) as real;
    MulSucc(step, buckets - 1);
  }

  lemma MulSucc(a: real, k: int)
    ensures a * (k + 1) as real == a * k as real + a
  {
  }

  /** Dividing a quantity into `n` parts and taking `n` of them gives it back. */
  lemma ScaledBack(d: real, n: nat, part: real)
    requires n > 0 && part == d / n as real
    ensures part * n as real == d
  {
  }

  /** The smallest value falls in the first bucket and the largest in the last. */
  lemma ExtremesInEndBuckets(values: seq<real>, buckets: nat, i: nat)
    requires |values| > 0 && buckets > 0 && i < |values|
    ensures values[i] == Min(values) ==> BucketIndices(values, buckets)[i] == 0
    ensures values[i] == Max(values) && Max(values) != Min(values) ==>
      BucketIndices(values, buckets)[i] == buckets - 1
  {
    var lo, step, v := Min(values), Step(values, buckets), values[i];
    assert v in values;
    assert BucketIndices(values, buckets)[i] == BucketOf(v, lo, step, buckets);
    if v == lo {
      LowestBucket(lo, step, buckets);
    }
    if v == Max(values) && Max(values) != lo {
      assert Spread(values) == v - lo;
      HighestBucket(lo, v - lo, buckets);
    }
  }

  lemma LowestBucket(lo: real, step: real, buckets: nat)
    requires step > 0.0 && buckets > 0
    ensures BucketOf(lo, lo, step, buckets) == 0
  {
    assert (lo - lo) / step == 0.0;
  }

  /** The top of the range, `lo` plus the whole spread, lands in the last bucket. */
  lemma HighestBucket(lo: real, spread: real, buckets: nat)
    requires spread > 0.0 && buckets > 0
    ensures BucketOf(lo + spread, lo, spread / buckets as real, buckets) == buckets - 1
  {
    PartsInWhole(spread, buckets);
    assert (lo + spread - lo) / (spread / buckets as real) == buckets as real;
  }

  /** A whole holds `n` of its `n`-th parts. */
  lemma PartsInWhole(d: real, n: nat)
    requires d != 0.0 && n > 0
    ensures d / (d / n as real) == n as real
  {
    var s := d / n as real;
    ScaledBack(d, n, s);
    assert s != 0.0;
    assert (s * n as real) / s == n as real;
  }

  /** Larger values never fall in an earlier bucket. */
  lemma BucketMonotone(v: real, w: real, lo: real, step: real, buckets: nat)
    requires lo <= v <= w && step > 0.0 && buckets > 0
    ensures BucketOf(v, lo, step, buckets) <= BucketOf(w, lo, step, buckets)
  {
    QuotientMonotone(v - lo, w - lo, step);
  }

  lemma QuotientMonotone(x: real, y: real, d: real)
    requires x <= y && d > 0.0
    ensures x / d <= y / d
  {
    assert y / d - x / d == (y - x) / d;
  }

  /** When every value is the same they all share the first bucket. */
  lemma EqualValuesShareFirstBucket(values: seq<real>, buckets: nat)
    requires |values| > 0 && buckets > 0
    requires forall i :: 0 <= i < |values| ==> values[i] == values[0]
    ensures var counts := Histogram(BucketIndices(values, buckets), buckets);
      counts[0] == |values| && forall k :: 0 < k < buckets ==> counts[k] == 0
  {
    RlEngine.MinMaxBound(values);
    var indices := BucketIndices(values, buckets);
    forall i | 0 <= i < |values| ensures indices[i] == 0 {
      assert values[i] == Min(values);
      ExtremesInEndBuckets(values, buckets, i);
    }
    AllEqualMultiset(indices, 0);
    HistogramCounts(indices, buckets, 0);
    forall k | 0 < k < buckets ensures Histogram(indices, buckets)[k] == 0 {
      HistogramCounts(indices, buckets, k);
      assert k !in indices;
    }
  }

  lemma {:induction false} AllEqualMultiset(s: seq<nat>, x: nat)
    requires forall i :: 0 <= i < |s| ==> s[i] == x
    ensures multiset(s)[x] == |s|
  {
    if s != [] {
      var init := s[..|s| - 1];
      AllEqualMultiset(init, x);
      assert s == init + [x];
    }
  }
}
