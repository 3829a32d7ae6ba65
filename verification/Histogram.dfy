/**
 * The fixed-bucket latency histogram (src/metrics/latency_histogram.h): constant work per
 * sample, yet its percentiles agree with the order statistics of the full history.
 * Quantiles are exact reals; the running mean, a floating-point sum, is not modelled.
 */
module Histogram {
  import opened Types

  const INT64_MAX: int := 0x7FFF_FFFF_FFFF_FFFF
  const INT64_MIN: int := -0x8000_0000_0000_0000

  // ---------------------------------------------------------------- order statistics

  function Insert(x: int, sorted: seq<int>): seq<int> {
    if sorted == [] || x <= sorted[0] then [x] + sorted else [sorted[0]] + Insert(x, sorted[1..])
  }

  function Sort(samples: seq<int>): seq<int> {
    if samples == [] then [] else Insert(samples[0], Sort(samples[1..]))
  }

  ghost predicate Sorted(s: seq<int>) {
    forall i, j :: 0 <= i < j < |s| ==> s[i] <= s[j]
  }

  lemma {:induction false} InsertPermutes(x: int, s: seq<int>)
    ensures multiset(Insert(x, s)) == multiset(s) + multiset{x}
  {
    if s != [] && s[0] < x {
      InsertPermutes(x, s[1..]);
      assert s == [s[0]] + s[1..];
    }
  }

  lemma {:induction false} InsertSorts(x: int, s: seq<int>)
    requires Sorted(s)
    ensures Sorted(Insert(x, s))
  {
    if s != [] && s[0] < x {
      InsertSorts(x, s[1..]);
      var r := Insert(x, s[1..]);
      assert s[0] <= r[0];
      assert forall j :: 0 < j < |r| ==> r[0] <= r[j];
    }
  }

  /** The sorted history is a permutation of the history. */
  lemma {:induction false} SortSorts(samples: seq<int>)
    ensures Sorted(Sort(samples)) && multiset(Sort(samples)) == multiset(samples)
    ensures |Sort(samples)| == |samples|
  {
    if samples != [] {
      SortSorts(samples[1..]);
      InsertSorts(samples[0], Sort(samples[1..]));
      InsertPermutes(samples[0], Sort(samples[1..]));
      assert samples == [samples[0]] + samples[1..];
    }
    assert |multiset(Sort(samples))| == |multiset(samples)|;
  }

  /** The k-th smallest sample, counting from 1. */
  function KthSmallest(samples: seq<int>, k: nat): int
    requires 1 <= k <= |samples|
  {
    SortSorts(samples);
    Sort(samples)[k - 1]
  }

  // ---------------------------------------------------------------- buckets

  /** The layout of a histogram: how many buckets, each how wide. */
  datatype Layout = Layout(buckets: nat, width: nat) {
    ghost predicate Ok() {
      0 < buckets && 0 < width
    }

    function Limit(): nat {
      buckets * width
    }

    /** The bucket of a sample, out-of-range samples falling into the first or the last. */
    function Bucket(x: int): nat
      requires 0 < buckets && 0 < width
    {
      var b := (if x < 0 then 0 else x) / width;
      if buckets <= b then buckets - 1 else b
    }

    function Midpoint(b: nat): int {
      b * width + width / 2
    }

    /** A sample moved into the range of the histogram. */
    function Clamp(x: int): int
      requires 0 < buckets && 0 < width
    {
      if x < 0 then 0 else if Limit() <= x then Limit() - 1 else x
    }
  }

  lemma {:induction false} DivMonotone(a: nat, b: nat, w: nat)
    requires 0 < w && a <= b
    ensures a / w <= b / w
  {
    var qa, qb := a / w, b / w;
    assert qa * w <= a && b < (qb + 1) * w;
    if qb < qa {
      ProductMonotone(qb + 1, qa, w);
    }
  }

  lemma {:induction false} BucketMonotone(l: Layout, x: int, y: int)
    requires l.Ok() && x <= y
    ensures l.Bucket(x) <= l.Bucket(y) < l.buckets
  {
    DivMonotone(if x < 0 then 0 else x, if y < 0 then 0 else y, l.width);
  }

  /** Clamping and bucketing agree: the clamped sample is in the bucket's own range. */
  lemma {:induction false} ClampedInBucket(l: Layout, x: int)
    requires l.Ok()
    ensures l.Bucket(x) * l.width <= l.Clamp(x) < (l.Bucket(x) + 1) * l.width
    ensures l.Bucket(l.Clamp(x)) == l.Bucket(x)
  {
    var w, n := l.width, l.buckets;
    if x < 0 {
      DivIs(0, w, 0);
    } else if n * w <= x {
      DivIs(n * w - 1, w, n - 1);
      DivMonotone(n * w, x, w);
      DivIs(n * w, w, n);
    } else {
      DivBelow(x, w, n);
      DivBounds(x, w);
    }
  }

  lemma {:induction false} DivBounds(a: nat, w: nat)
    requires 0 < w
    ensures a / w * w <= a < (a / w + 1) * w
  {
  }

  lemma {:induction false} DivBelow(a: nat, w: nat, n: nat)
    requires 0 < w && a < n * w
    ensures a / w < n
  {
    if n <= a / w {
      ProductMonotone(n, a / w, w);
    }
  }

  lemma {:induction false} DivIs(a: nat, w: nat, q: nat)
    requires 0 < w && q * w <= a < (q + 1) * w
    ensures a / w == q
  {
    var d := a / w;
    if d < q {
      ProductMonotone(d + 1, q, w);
    } else if q < d {
      ProductMonotone(q + 1, d, w);
    }
  }

  /** The midpoint of a sample's bucket is within half a width of the clamped sample. */
  lemma {:induction false} MidpointIsClose(l: Layout, x: int)
    requires l.Ok()
    ensures -(l.width / 2) <= l.Midpoint(l.Bucket(x)) - l.Clamp(x) <= l.width / 2
  {
    ClampedInBucket(l, x);
    assert (l.Bucket(x) + 1) * l.width == l.Bucket(x) * l.width + l.width;
  }

  // ---------------------------------------------------------------- cumulative counts

  /** How many samples fall into bucket b or an earlier one. */
  function CountUpTo(l: Layout, samples: seq<int>, b: int): (n: nat)
    requires 0 < l.buckets && 0 < l.width
    ensures n <= |samples|
  {
    if samples == [] then 0
    else (if l.Bucket(samples[0]) <= b then 1 else 0) + CountUpTo(l, samples[1..], b)
  }

  lemma {:induction false} CountUpToInsert(l: Layout, x: int, s: seq<int>, b: int)
    requires l.Ok()
    ensures CountUpTo(l, Insert(x, s), b) == CountUpTo(l, s, b) + (if l.Bucket(x) <= b then 1 else 0)
  {
    if s != [] && s[0] < x {
      CountUpToInsert(l, x, s[1..], b);
    }
  }

  lemma {:induction false} CountUpToSort(l: Layout, samples: seq<int>, b: int)
    requires l.Ok()
    ensures CountUpTo(l, Sort(samples), b) == CountUpTo(l, samples, b)
  {
    if samples != [] {
      CountUpToSort(l, samples[1..], b);
      CountUpToInsert(l, samples[0], Sort(samples[1..]), b);
    }
  }

  /** In a sorted list the count reaches k exactly when the k-th entry is in reach. */
  lemma {:induction false} CountUpToSorted(l: Layout, s: seq<int>, b: int, k: nat)
    requires l.Ok() && Sorted(s) && 1 <= k <= |s|
    ensures k <= CountUpTo(l, s, b) <==> l.Bucket(s[k - 1]) <= b
    decreases |s|
  {
    if b < l.Bucket(s[0]) {
      CountUpToNone(l, s, b);
      BucketMonotone(l, s[0], s[k - 1]);
    } else if 1 < k {
      CountUpToSorted(l, s[1..], b, k - 1);
    }
  }

  lemma {:induction false} CountUpToNone(l: Layout, s: seq<int>, b: int)
    requires l.Ok() && Sorted(s)
    requires s != [] ==> b < l.Bucket(s[0])
    ensures CountUpTo(l, s, b) == 0
  {
    if 1 < |s| {
      BucketMonotone(l, s[0], s[1]);
    }
    if s != [] {
      CountUpToNone(l, s[1..], b);
    }
  }

  /** The cumulative count finds the bucket of the k-th smallest sample. */
  lemma {:induction false} CumulativeFindsRank(l: Layout, samples: seq<int>, b: int, k: nat)
    requires l.Ok() && 1 <= k <= |samples|
    ensures k <= CountUpTo(l, samples, b) <==> l.Bucket(KthSmallest(samples, k)) <= b
  {
    SortSorts(samples);
    CountUpToSort(l, samples, b);
    CountUpToSorted(l, Sort(samples), b, k);
  }

  // ---------------------------------------------------------------- quantiles

  function Ceil(x: real): int {
    -((-x).Floor)
  }

  /** The rank a quantile asks for. */
  function Target(n: nat, p: real): (k: int)
    requires 0.0 <= p
    ensures 1 <= k
  {
    var t := Ceil(n as real * p);
    if t <= 0 then 1 else t
  }

  lemma {:induction false} TargetInRange(n: nat, p: real)
    requires 0 < n && 0.0 <= p
    ensures p <= 1.0 ==> Target(n, p) <= n
    ensures 0.0 < p ==> Target(n, p) == Ceil(n as real * p)
  {
    var x := n as real * p;
    if p <= 1.0 {
      assert x <= n as real * 1.0;
    }
    if 0.0 < p {
      assert 0.0 < x;
    }
  }

  lemma {:induction false} TargetMonotone(n: nat, p: real, q: real)
    requires 0.0 <= p <= q
    ensures Target(n, p) <= Target(n, q)
  {
    assert n as real * p <= n as real * q;
    CeilMonotone(n as real * p, n as real * q);
  }

  lemma {:induction false} CeilMonotone(x: real, y: real)
    requires x <= y
    ensures Ceil(x) <= Ceil(y)
  {
    var f, g := (-x).Floor, (-y).Floor;
    assert g as real <= -y <= -x < f as real + 1.0;
  }

  /** What a percentile query must answer: 0 for no samples, the midpoint of the bucket of
      the ranked sample, and the range limit when the rank exceeds the number of samples. */
  function PercentileSpec(l: Layout, samples: seq<int>, p: real): int
    requires 0 < l.buckets && 0 < l.width && 0.0 <= p
  {
    if samples == [] then 0
    else
      var k := Target(|samples|, p);
      if k <= |samples| then l.Midpoint(l.Bucket(KthSmallest(samples, k))) else l.Limit()
  }

  /** No samples, or a quantile beyond the last sample. */
  lemma {:induction false} PercentileEdges(l: Layout, samples: seq<int>, p: real)
    requires l.Ok() && 0.0 <= p
    ensures samples == [] ==> PercentileSpec(l, samples, p) == 0
    ensures samples != [] && |samples| < Ceil(|samples| as real * p) ==>
              PercentileSpec(l, samples, p) == l.buckets * l.width
  {
  }

  /** The bucket in which the cumulative count first reaches the target answers the query. */
  lemma {:induction false} PercentileIsMidpoint(l: Layout, samples: seq<int>, p: real, b: nat)
    requires l.Ok() && samples != [] && 0.0 <= p && b < l.buckets
    requires CountUpTo(l, samples, b - 1) < Target(|samples|, p) <= CountUpTo(l, samples, b)
    ensures PercentileSpec(l, samples, p) == b * l.width + l.width / 2
  {
    var k := Target(|samples|, p);
    hide Target;
    CumulativeFindsRank(l, samples, b, k);
    CumulativeFindsRank(l, samples, b - 1, k);
  }

  lemma {:induction false} RanksMonotone(samples: seq<int>, j: nat, k: nat)
    requires 1 <= j <= k <= |samples|
    ensures KthSmallest(samples, j) <= KthSmallest(samples, k)
  {
    SortSorts(samples);
  }

  /** For every history and every p in (0, 1]: the answer is the midpoint of the bucket of
      the ceil(n p)-th smallest sample, within half a bucket of that sample clamped to the
      range, and never the fallback. */
  lemma {:induction false} PercentileAgreesWithHistory(l: Layout, samples: seq<int>, p: real)
    requires l.Ok() && samples != [] && 0.0 < p <= 1.0
    ensures var k := Ceil(|samples| as real * p);
            && 1 <= k <= |samples|
            && PercentileSpec(l, samples, p) == l.Midpoint(l.Bucket(KthSmallest(samples, k))) < l.Limit()
            && -(l.width / 2) <= PercentileSpec(l, samples, p) - l.Clamp(KthSmallest(samples, k)) <= l.width / 2
    // Clamped: itself inside the range, an end of the range outside.
    ensures var x := KthSmallest(samples, Ceil(|samples| as real * p));
            l.Clamp(x) == if x < 0 then 0 else if x < l.buckets * l.width then x else l.buckets * l.width - 1
  {
    TargetInRange(|samples|, p);
    var k := Ceil(|samples| as real * p);
    var x := KthSmallest(samples, k);
    MidpointIsClose(l, x);
    BucketMonotone(l, x, x);
    ProductMonotone(l.Bucket(x) + 1, l.buckets, l.width);
    assert (l.Bucket(x) + 1) * l.width == l.Bucket(x) * l.width + l.width;
  }

  /** Larger quantiles give larger answers. */
  lemma {:induction false} PercentileMonotone(l: Layout, samples: seq<int>, p: real, q: real)
    requires l.Ok() && 0.0 <= p <= q <= 1.0
    ensures PercentileSpec(l, samples, p) <= PercentileSpec(l, samples, q)
  {
    if samples != [] {
      TargetInRange(|samples|, p);
      TargetInRange(|samples|, q);
      TargetMonotone(|samples|, p, q);
      var j, k := Target(|samples|, p), Target(|samples|, q);
      RanksMonotone(samples, j, k);
      BucketMonotone(l, KthSmallest(samples, j), KthSmallest(samples, k));
      ProductMonotone(l.Bucket(KthSmallest(samples, j)), l.Bucket(KthSmallest(samples, k)), l.width);
    }
  }

  // ---------------------------------------------------------------- the object

  /** Samples in one bucket. */
  function CountIn(l: Layout, samples: seq<int>, b: int): int
    requires 0 < l.buckets && 0 < l.width
  {
    CountUpTo(l, samples, b) - CountUpTo(l, samples, b - 1)
  }

  lemma {:induction false} CountUpToSnoc(l: Layout, s: seq<int>, x: int, b: int)
    requires l.Ok()
    ensures CountUpTo(l, s + [x], b) == CountUpTo(l, s, b) + (if l.Bucket(x) <= b then 1 else 0)
  {
    if s == [] {
      assert (s + [x])[1..] == [];
    } else {
      assert (s + [x])[1..] == s[1..] + [x];
      CountUpToSnoc(l, s[1..], x, b);
    }
  }

  lemma {:induction false} CountUpToBeforeFirst(l: Layout, s: seq<int>)
    requires l.Ok()
    ensures CountUpTo(l, s, -1) == 0
  {
    if s != [] {
      CountUpToBeforeFirst(l, s[1..]);
    }
  }

  lemma {:induction false} CountUpToLast(l: Layout, s: seq<int>)
    requires l.Ok()
    ensures CountUpTo(l, s, l.buckets - 1) == |s|
  {
    if s != [] {
      CountUpToLast(l, s[1..]);
      BucketMonotone(l, s[0], s[0]);
    }
  }

  /** A new sample raises the count of its own bucket and of no other. */
  lemma {:induction false} CountInSnoc(l: Layout, s: seq<int>, x: int, b: int)
    requires l.Ok()
    ensures CountIn(l, s + [x], b) == CountIn(l, s, b) + (if b == l.Bucket(x) then 1 else 0)
  {
    CountUpToSnoc(l, s, x, b);
    CountUpToSnoc(l, s, x, b - 1);
  }

  /** Least and greatest sample, starting from the extreme representable values. */
  function Least(samples: seq<int>): int {
    if samples == [] then INT64_MAX else Min(Least(samples[..|samples| - 1]), samples[|samples| - 1])
  }

  function Greatest(samples: seq<int>): int {
    if samples == [] then INT64_MIN else Max(Greatest(samples[..|samples| - 1]), samples[|samples| - 1])
  }

  /** For samples of the source's width these are the true extremes of the history. */
  lemma {:induction false} ExtremesAreExact(samples: seq<int>)
    requires samples != [] && forall i :: 0 <= i < |samples| ==> INT64_MIN <= samples[i] <= INT64_MAX
    ensures Least(samples) == KthSmallest(samples, 1)
    ensures Greatest(samples) == KthSmallest(samples, |samples|)
  {
    LeastBounds(samples);
    SortSorts(samples);
    var s := Sort(samples);
    SameMembers(s, samples);
    assert s[0] in s && s[|s| - 1] in s;
    var i :| 0 <= i < |s| && s[i] == Least(samples);
    var j :| 0 <= j < |s| && s[j] == Greatest(samples);
  }

  lemma {:induction false} SameMembers(a: seq<int>, b: seq<int>)
    requires multiset(a) == multiset(b)
    ensures forall x :: x in a <==> x in b
  {
    forall x
      ensures x in a <==> x in b
    {
      assert x in a <==> x in multiset(a);
      assert x in b <==> x in multiset(b);
    }
  }

  lemma {:induction false} LeastBounds(samples: seq<int>)
    requires samples != [] && forall i :: 0 <= i < |samples| ==> INT64_MIN <= samples[i] <= INT64_MAX
    ensures forall x :: x in samples ==> Least(samples) <= x <= Greatest(samples)
    ensures Least(samples) in samples && Greatest(samples) in samples
  {
    var init, x := samples[..|samples| - 1], samples[|samples| - 1];
    assert samples == init + [x];
    if init != [] {
      LeastBounds(init);
    }
  }

  lemma {:induction false} ExtremesSnoc(s: seq<int>, x: int)
    ensures Least(s + [x]) == Min(Least(s), x) && Greatest(s + [x]) == Max(Greatest(s), x)
  {
    assert (s + [x])[..|s|] == s;
  }

  class LatencyHistogram {
    const layout: Layout
    const buckets: array<int>
    var total: int
    var least: int
    var greatest: int
    /** Every sample recorded since the last reset. */
    ghost var history: seq<int>

    ghost predicate Valid()
      reads this, buckets
    {
      && layout.Ok()
      && buckets.Length == layout.buckets
      && total == |history|
      && least == Least(history)
      && greatest == Greatest(history)
      && forall b :: 0 <= b < buckets.Length ==> buckets[b] == CountIn(layout, history, b)
    }

    constructor (layout: Layout)
      requires layout.Ok()
      ensures Valid() && history == [] && this.layout == layout && fresh(buckets)
    {
      this.layout := layout;
      buckets := new int[layout.buckets];
      new;
      Reset();
    }

    method Reset()
      requires layout.Ok() && buckets.Length == layout.buckets
      modifies this, buckets
      ensures Valid() && history == []
    {
      var i := 0;
      while i < buckets.Length
        invariant 0 <= i <= buckets.Length
        invariant forall b :: 0 <= b < i ==> buckets[b] == 0
      {
        buckets[i] := 0;
        i := i + 1;
      }
      total, least, greatest, history := 0, INT64_MAX, INT64_MIN, [];
    }

    /** Records one sample in constant time. */
    method Record(x: int)
      requires Valid()
      modifies this, buckets
      ensures Valid() && history == old(history) + [x]
    {
      ExtremesSnoc(history, x);
      total := total + 1;
      if x < least {
        least := x;
      }
      if x > greatest {
        greatest := x;
      }
      RecordBucket(x);
      history := history + [x];
    }

    method RecordBucket(x: int)
      requires layout.Ok() && buckets.Length == layout.buckets
      requires forall b :: 0 <= b < buckets.Length ==> buckets[b] == CountIn(layout, history, b)
      modifies buckets
      ensures forall b :: 0 <= b < buckets.Length ==> buckets[b] == CountIn(layout, history + [x], b)
    {
      var clamped := if x < 0 then 0 else x;
      var bucket := clamped / layout.width;
      if bucket >= layout.buckets {
        bucket := layout.buckets - 1;
      }
      assert bucket == layout.Bucket(x);
      hide CountIn;
      forall b | 0 <= b < buckets.Length
        ensures CountIn(layout, history + [x], b) == buckets[b] + (if b == bucket then 1 else 0)
      {
        CountInSnoc(layout, history, x, b);
      }
      buckets[bucket] := buckets[bucket] + 1;
    }

    /** Adds up buckets until the wanted rank is reached. */
    method Percentile(p: real) returns (value: int)
      requires Valid() && 0.0 <= p
      ensures value == PercentileSpec(layout, history, p)
    {
      if total == 0 {
        return 0;
      }
      var target := Ceil(total as real * p);
      if target <= 0 {
        target := 1;
      }
      assert target == Target(|history|, p);
      hide Target;
      hide Ceil;
      hide CountUpTo;
      CountUpToBeforeFirst(layout, history);
      var cumulative, i := 0, 0;
      while i < layout.buckets
        invariant 0 <= i <= layout.buckets
        invariant cumulative == CountUpTo(layout, history, i - 1) < target
      {
        cumulative := cumulative + buckets[i];
        if cumulative >= target {
          PercentileIsMidpoint(layout, history, p, i);
          return i * layout.width + layout.width / 2;
        }
        i := i + 1;
      }
      CountUpToLast(layout, history);
      value := layout.buckets * layout.width;
    }
  }
}
