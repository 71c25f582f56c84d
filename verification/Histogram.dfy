/**
  Histogram data points: the in-place merge addHistogramDataPoint and the extraction of buckets.

  A stored histogram is an object whose fields the merge updates. Nothing checks the shape of the
  points, so the merge and the extraction can index out of range: `Fits` and `InRange` say exactly
  when they do not. Folding the merge over a stream of points is shown to equal one declarative
  merge of the points since the slot was last replaced.
*/
module Histogram {
  import opened Basics
  import Quantile

  /** The value of a histogram data point; attributes, flags and exemplars are not modelled. */
  datatype Hist = Hist(
    count: uint64,
    sum: real,
    min: Option<real>,
    max: Option<real>,
    bounds: seq<real>,
    bucketCounts: seq<uint64>,
    start: uint64,
    timestamp: uint64)

  const NEW_HIST := Hist(0, 0.0, None, None, [], [], 0, 0)

  /** One bucket per explicit bound and one for +Inf, as the OpenTelemetry data model wants it for
      points that have buckets. */
  predicate WellFormed(h: Hist) {
    |h.bucketCounts| == |h.bounds| + 1
  }

  /** The merge stays in range: when `from` is merged bucket by bucket, `to` has a bucket for each
      of its buckets. */
  predicate Fits(from: Hist, to: Hist) {
    from.count != 0 && to.count != 0 && from.bounds == to.bounds ==>
      |from.bucketCounts| <= |to.bucketCounts|
  }

  /** The bucket extraction stays in range: there is a count for every bound, and a last count. */
  predicate InRange(h: Hist) {
    1 <= |h.bucketCounts| && |h.bounds| <= |h.bucketCounts|
  }

  /** An unset minimum or maximum reads as 0. */
  function ValueOrZero(v: Option<real>): real {
    match v
    case None => 0.0
    case Some(r) => r
  }

  // ---------------------------------------------------------------- the merge

  function MergedMin(to: Option<real>, from: Option<real>): Option<real> {
    if to.Some? && to.value > ValueOrZero(from) then Some(ValueOrZero(from)) else to
  }

  function MergedMax(to: Option<real>, from: Option<real>): Option<real> {
    if to.Some? && to.value < ValueOrZero(from) then Some(ValueOrZero(from)) else to
  }

  function AddCounts(to: seq<uint64>, from: seq<uint64>): (r: seq<uint64>)
    ensures |r| == |to|
  {
    seq(|to|, i requires 0 <= i < |to| => if i < |from| then Add64(to[i], from[i]) else to[i])
  }

  /** The stored point after the merge. Where the program would index out of range, which `Fits`
      excludes for the method, the counts without a place are ignored. */
  function Merge(from: Hist, to: Hist): (r: Hist) {
    if from.count == 0 then to
    else if to.count == 0 || from.bounds != to.bounds then from
    else Hist(Add64(to.count, from.count), to.sum + from.sum,
              MergedMin(to.min, from.min), MergedMax(to.max, from.max),
              to.bounds, AddCounts(to.bucketCounts, from.bucketCounts),
              if from.start < to.start then from.start else to.start,
              if from.timestamp > to.timestamp then from.timestamp else to.timestamp)
  }

  /** A stored histogram data point. */
  class HistogramDataPoint {
    var count: uint64
    var sum: real
    var min: Option<real>
    var max: Option<real>
    var bounds: seq<real>
    var bucketCounts: seq<uint64>
    var start: uint64
    var timestamp: uint64

    ghost function View(): Hist
      reads this
    {
      Hist(count, sum, min, max, bounds, bucketCounts, start, timestamp)
    }

    constructor ()
      ensures View() == NEW_HIST
    {
      count, sum, min, max := 0, 0.0, None, None;
      bounds, bucketCounts, start, timestamp := [], [], 0, 0;
    }

    method CopyFrom(h: Hist)
      modifies this
      ensures View() == h
    {
      count, sum, min, max := h.count, h.sum, h.min, h.max;
      bounds, bucketCounts, start, timestamp := h.bounds, h.bucketCounts, h.start, h.timestamp;
    }
  }

  method Float64SliceEqual(a: seq<real>, b: seq<real>) returns (equal: bool)
    ensures equal <==> a == b
  {
    if |a| != |b| { return false; }
    for i := 0 to |a|
      invariant a[..i] == b[..i]
    {
      if a[i] != b[i] { return false; }
    }
    assert a == a[..|a|] && b == b[..|b|];
    return true;
  }

  method AddBucketCounts(from: seq<uint64>, to: HistogramDataPoint)
    requires |from| <= |to.bucketCounts|
    modifies to`bucketCounts
    ensures to.bucketCounts == AddCounts(old(to.bucketCounts), from)
  {
    var b := 0;
    while b < |from|
      invariant 0 <= b <= |from| && |to.bucketCounts| == old(|to.bucketCounts|)
      invariant forall i :: 0 <= i < b ==> to.bucketCounts[i] == Add64(old(to.bucketCounts)[i], from[i])
      invariant forall i :: b <= i < |to.bucketCounts| ==> to.bucketCounts[i] == old(to.bucketCounts)[i]
    {
      to.bucketCounts := to.bucketCounts[b := Add64(to.bucketCounts[b], from[b])];
      b := b + 1;
    }
  }

  method AddHistogramDataPoint(from: Hist, to: HistogramDataPoint)
    requires Fits(from, to.View())
    modifies to
    ensures to.View() == Merge(from, old(to.View()))
  {
    if from.count == 0 { return; }
    if to.count == 0 {
      to.CopyFrom(from);
      return;
    }
    var sameBounds := Float64SliceEqual(from.bounds, to.bounds);
    if !sameBounds {
      to.CopyFrom(from);
      return;
    }
    to.count := Add64(to.count, from.count);
    to.sum := to.sum + from.sum;
    if to.min.Some? && to.min.value > ValueOrZero(from.min) {
      to.min := Some(ValueOrZero(from.min));
    }
    if to.max.Some? && to.max.value < ValueOrZero(from.max) {
      to.max := Some(ValueOrZero(from.max));
    }
    AddBucketCounts(from.bucketCounts, to);
    if from.start < to.start {
      to.start := from.start;
    }
    if from.timestamp > to.timestamp {
      to.timestamp := from.timestamp;
    }
  }

  // ---------------------------------------------------------------- buckets

  function BucketsOf(h: Hist): (bs: Quantile.Buckets)
    requires InRange(h)
    ensures |bs| == |h.bounds| + 1
  {
    seq(|h.bounds|, i requires 0 <= i < |h.bounds| =>
      Quantile.ExplicitBucket(Quantile.Finite(h.bounds[i]), h.bucketCounts[i]))
    + [Quantile.ExplicitBucket(Quantile.Infinity, h.bucketCounts[|h.bucketCounts| - 1])]
  }

  method ExplicitBucketsFromHistogramDataPoint(dp: HistogramDataPoint)
    returns (buckets: array<Quantile.ExplicitBucket>)
    requires InRange(dp.View())
    ensures fresh(buckets) && buckets[..] == BucketsOf(dp.View()) && buckets.Length == |dp.bounds| + 1
    ensures forall i :: 0 <= i < |dp.bounds| ==>
              buckets[i].upperBound == Quantile.Finite(dp.bounds[i]) && buckets[i].count == dp.bucketCounts[i]
    ensures var highest := buckets[|dp.bounds|];
            highest.upperBound.Infinity? && highest.count == dp.bucketCounts[|dp.bucketCounts| - 1]
  {
    var n := |dp.bounds|;
    var highest := Quantile.ExplicitBucket(Quantile.Infinity, dp.bucketCounts[|dp.bucketCounts| - 1]);
    buckets := new Quantile.ExplicitBucket[n + 1](_ => highest);
    for i := 0 to n
      invariant buckets[..i] == BucketsOf(dp.View())[..i]
      invariant buckets[n] == highest
    {
      buckets[i] := Quantile.ExplicitBucket(Quantile.Finite(dp.bounds[i]), dp.bucketCounts[i]);
    }
    assert buckets[..] == buckets[..n] + [highest];
    assert BucketsOf(dp.View()) == BucketsOf(dp.View())[..n] + [highest];
  }

  /** Observations over all buckets. */
  function BucketTotal(counts: seq<uint64>): nat {
    if counts == [] then 0 else BucketTotal(counts[..|counts| - 1]) + counts[|counts| - 1]
  }

  /** The count field is the bucket total, in 64-bit arithmetic. */
  predicate Consistent(h: Hist) {
    h.count == BucketTotal(h.bucketCounts) % U64
  }

  predicate Distinct(bounds: seq<real>) {
    forall i, j :: 0 <= i < j < |bounds| ==> bounds[i] != bounds[j]
  }

  predicate Increasing(bounds: seq<real>) {
    forall i, j :: 0 <= i < j < |bounds| ==> bounds[i] < bounds[j]
  }

  lemma {:induction false} TotalOfBuckets(h: Hist, k: nat)
    requires WellFormed(h) && k <= |h.bucketCounts|
    ensures Quantile.Below(BucketsOf(h), k) == BucketTotal(h.bucketCounts[..k])
  {
    if k > 0 {
      TotalOfBuckets(h, k - 1);
      assert h.bucketCounts[..k][..k - 1] == h.bucketCounts[..k - 1];
    }
  }

  lemma BucketsWellFormed(h: Hist)
    requires WellFormed(h) && Increasing(h.bounds) && h.bounds != []
    ensures Quantile.WellFormed(BucketsOf(h))
    ensures Quantile.DistinctBounds(BucketsOf(h)) && Quantile.Sorted(BucketsOf(h))
    ensures Quantile.Total(BucketsOf(h)) == BucketTotal(h.bucketCounts)
  {
    TotalOfBuckets(h, |h.bucketCounts|);
    assert h.bucketCounts[..|h.bucketCounts|] == h.bucketCounts;
  }

  /** A percentile as a quantile. */
  function ToQuantile(p: real): real {
    p / 100.0
  }

  /** The percentile query on a data point. */
  function PercentileOf(sort: Quantile.Sorter, p: real, h: Hist): Float
    requires InRange(h)
  {
    Quantile.DeltaQuantile(sort, Num(ToQuantile(p)), BucketsOf(h))
  }

  /** With distinct bounds it does not matter which sort is used. */
  lemma DistinctBoundsFixPercentile(sort: Quantile.Sorter, other: Quantile.Sorter, p: real, h: Hist)
    requires InRange(h) && Distinct(h.bounds)
    ensures PercentileOf(sort, p, h) == PercentileOf(other, p, h)
  {
    Quantile.QuantileIgnoresOrder(sort, other, Num(ToQuantile(p)), BucketsOf(h), BucketsOf(h));
  }

  // ---------------------------------------------------------------- merging is percentile-safe

  lemma AddCountsPrefix(a: seq<uint64>, b: seq<uint64>, n: nat)
    requires n < |a| && |b| <= |a|
    ensures AddCounts(a, b)[..n] == if n < |b| then AddCounts(a[..n], b[..n]) else AddCounts(a[..n], b)
    ensures AddCounts(a, b)[n] == (a[n] as int + if n < |b| then b[n] as int else 0) % U64
  {
  }

  lemma WrappedSums(x: nat, y: nat, z: nat)
    requires x % U64 == y % U64
    ensures (x + z % U64) % U64 == (y + z) % U64
  {
  }

  lemma {:induction false} AddedTotal(a: seq<uint64>, b: seq<uint64>)
    requires |b| <= |a|
    ensures BucketTotal(AddCounts(a, b)) % U64 == (BucketTotal(a) + BucketTotal(b)) % U64
    decreases |a|
  {
    hide AddCounts;
    var c := AddCounts(a, b);
    if a != [] {
      var n := |a| - 1;
      AddCountsPrefix(a, b, n);
      if |b| == |a| {
        AddedTotal(a[..n], b[..n]);
        WrappedSums(BucketTotal(c[..n]), BucketTotal(a[..n]) + BucketTotal(b[..n]),
                    a[n] as int + b[n] as int);
      } else {
        AddedTotal(a[..n], b);
        WrappedSums(BucketTotal(c[..n]), BucketTotal(a[..n]) + BucketTotal(b), a[n]);
      }
    }
  }

  /** Without overflow the buckets are added as plain numbers. */
  lemma {:induction false} AddedCountsExact(a: seq<uint64>, b: seq<uint64>)
    requires |a| == |b| && BucketTotal(a) + BucketTotal(b) < U64
    ensures BucketTotal(AddCounts(a, b)) == BucketTotal(a) + BucketTotal(b)
    ensures forall i :: 0 <= i < |a| ==> AddCounts(a, b)[i] as int == a[i] as int + b[i] as int
  {
    if a != [] {
      var n := |a| - 1;
      AddedCountsExact(a[..n], b[..n]);
      AddCountsPrefix(a, b, n);
      forall i | 0 <= i < |a|
        ensures AddCounts(a, b)[i] as int == a[i] as int + b[i] as int
      {
        if i < n { assert AddCounts(a, b)[..n][i] == AddCounts(a[..n], b[..n])[i]; }
      }
    }
  }

  lemma SmallTotal(h: Hist)
    requires Consistent(h) && BucketTotal(h.bucketCounts) < U64
    ensures BucketTotal(h.bucketCounts) == h.count
  {
  }

  lemma MergedBuckets(from: Hist, to: Hist)
    requires WellFormed(from) && WellFormed(to) && Consistent(from) && Consistent(to)
    requires from.bounds == to.bounds && from.bounds != [] && Increasing(from.bounds)
    requires from.count != 0 && to.count != 0
    requires BucketTotal(from.bucketCounts) + BucketTotal(to.bucketCounts) < U64
    ensures var m := Merge(from, to);
            && WellFormed(m) && Consistent(m) && m.count as int == from.count as int + to.count as int
            && Quantile.IsSum(BucketsOf(from), BucketsOf(to), BucketsOf(m))
            && Quantile.WellFormed(BucketsOf(from)) && Quantile.WellFormed(BucketsOf(to))
            && Quantile.WellFormed(BucketsOf(m))
            && Quantile.Total(BucketsOf(from)) == from.count
            && Quantile.Total(BucketsOf(to)) == to.count
            && Quantile.Total(BucketsOf(m)) == m.count
  {
    hide AddCounts, Quantile.WellFormed, Quantile.Total, BucketTotal, Increasing, MergedMin, MergedMax;
    AddedCountsExact(to.bucketCounts, from.bucketCounts);
    BucketsWellFormed(from);
    BucketsWellFormed(to);
    BucketsWellFormed(Merge(from, to));
    SmallTotal(from);
    SmallTotal(to);
    hide Consistent;
    forall i | 0 <= i < |from.bucketCounts|
      ensures BucketsOf(Merge(from, to))[i].count as int
           == BucketsOf(from)[i].count as int + BucketsOf(to)[i].count as int
    {
    }
  }

  lemma MergedQuantileBetween(q: real, from: Hist, to: Hist)
    requires 0.0 <= q <= 1.0
    requires WellFormed(from) && WellFormed(to) && Consistent(from) && Consistent(to)
    requires from.bounds == to.bounds && from.bounds != [] && Increasing(from.bounds)
    requires from.count != 0 && to.count != 0
    requires BucketTotal(from.bucketCounts) + BucketTotal(to.bucketCounts) < U64
    ensures WellFormed(Merge(from, to))
    ensures var f, t, m := Quantile.QuantileSorted(q, BucketsOf(from)),
                           Quantile.QuantileSorted(q, BucketsOf(to)),
                           Quantile.QuantileSorted(q, BucketsOf(Merge(from, to)));
            f.Num? && t.Num? && m.Num? && Min(f.r, t.r) <= m.r <= Max(f.r, t.r)
  {
    hide Quantile.QuantileSorted, Quantile.WellFormed, Quantile.Total, Quantile.IsSum, BucketTotal, BucketsOf;
    MergedBuckets(from, to);
    hide Merge;
    Quantile.MergedQuantileBetween(q, BucketsOf(from), BucketsOf(to), BucketsOf(Merge(from, to)));
  }

  lemma MergeIsSimple(from: Hist, to: Hist)
    requires WellFormed(from) && WellFormed(to) && from.bounds == to.bounds
    ensures Merge(from, to).bounds == from.bounds
  {
  }

  lemma QuotientOf100(p: real)
    requires 0.0 <= p <= 100.0
    ensures 0.0 <= ToQuantile(p) <= 1.0
  {
  }

  lemma PercentileIsQuantile(sort: Quantile.Sorter, p: real, h: Hist)
    requires 0.0 <= p <= 100.0 && WellFormed(h) && Increasing(h.bounds) && h.bounds != []
    ensures PercentileOf(sort, p, h) == Quantile.QuantileSorted(ToQuantile(p), BucketsOf(h))
  {
    hide Quantile.QuantileSorted;
    QuotientOf100(p);
    BucketsWellFormed(h);
    Quantile.SortSorted(sort, BucketsOf(h));
  }

  /** Every percentile of two merged histograms with the same bounds lies between the percentiles
      of the two. */
  lemma MergedPercentileBetween(sort: Quantile.Sorter, p: real, from: Hist, to: Hist)
    requires 0.0 <= p <= 100.0
    requires WellFormed(from) && WellFormed(to) && Consistent(from) && Consistent(to)
    requires from.bounds == to.bounds && from.bounds != [] && Increasing(from.bounds)
    requires from.count != 0 && to.count != 0
    requires BucketTotal(from.bucketCounts) + BucketTotal(to.bucketCounts) < U64
    ensures var m := Merge(from, to);
            && WellFormed(m) && Consistent(m) && m.count as int == from.count as int + to.count as int
            && PercentileOf(sort, p, from).Num? && PercentileOf(sort, p, to).Num? && PercentileOf(sort, p, m).Num?
            && Min(PercentileOf(sort, p, from).r, PercentileOf(sort, p, to).r)
            <= PercentileOf(sort, p, m).r
            <= Max(PercentileOf(sort, p, from).r, PercentileOf(sort, p, to).r)
  {
    var m := Merge(from, to);
    hide PercentileOf, Quantile.QuantileSorted, Quantile.IsSum, Quantile.WellFormed, Quantile.Total,
      Consistent, BucketTotal, Increasing, BucketsOf, Min, Max, ToQuantile;
    MergedBuckets(from, to);
    MergeIsSimple(from, to);
    hide Merge;
    PercentileIsQuantile(sort, p, from);
    PercentileIsQuantile(sort, p, to);
    PercentileIsQuantile(sort, p, m);
    QuotientOf100(p);
    MergedQuantileBetween(ToQuantile(p), from, to);
  }

  // ---------------------------------------------------------------- a stream of points

  predicate NonEmpty(ps: seq<Hist>) {
    forall i :: 0 <= i < |ps| ==> ps[i].count != 0
  }

  /** What a slot holds after merging the points one by one into a new data point. */
  function Fold(ps: seq<Hist>): (r: Hist) {
    if ps == [] then NEW_HIST
    else Merge(ps[|ps| - 1], Fold(ps[..|ps| - 1]))
  }

  lemma FoldExtends(ps: seq<Hist>)
    requires ps != []
    ensures Fold(ps) == Merge(ps[|ps| - 1], Fold(ps[..|ps| - 1]))
  {
  }

  /** Every merge of the stream stays in range. */
  predicate MergesFit(ps: seq<Hist>) {
    ps == [] || (MergesFit(ps[..|ps| - 1]) && Fits(ps[|ps| - 1], Fold(ps[..|ps| - 1])))
  }

  lemma MergedConsistent(from: Hist, to: Hist)
    requires Consistent(from) && Consistent(to) && Fits(from, to)
    ensures Consistent(Merge(from, to))
  {
    hide BucketTotal, AddCounts, MergedMin, MergedMax;
    if from.count != 0 && to.count != 0 && from.bounds == to.bounds {
      AddedTotal(to.bucketCounts, from.bucketCounts);
      AddMod(BucketTotal(to.bucketCounts), from.count);
      AddMod(BucketTotal(from.bucketCounts), BucketTotal(to.bucketCounts));
    }
  }

  /** The count of a slot stays its bucket total. */
  lemma {:induction false} FoldedSlotIsConsistent(ps: seq<Hist>)
    requires MergesFit(ps) && forall i :: 0 <= i < |ps| ==> Consistent(ps[i])
    ensures Consistent(Fold(ps))
  {
    if ps != [] {
      hide Consistent, Merge;
      FoldedSlotIsConsistent(ps[..|ps| - 1]);
      MergedConsistent(ps[|ps| - 1], Fold(ps[..|ps| - 1]));
    } else {
      assert Consistent(NEW_HIST);
    }
  }

  // The declarative merge of points that share their bounds.

  function CountSum(ps: seq<Hist>): nat {
    if ps == [] then 0 else CountSum(ps[..|ps| - 1]) + ps[|ps| - 1].count
  }

  function SumSum(ps: seq<Hist>): real {
    if ps == [] then 0.0 else SumSum(ps[..|ps| - 1]) + ps[|ps| - 1].sum
  }

  predicate AllBounds(ps: seq<Hist>, bounds: seq<real>) {
    forall i :: 0 <= i < |ps| ==> ps[i].bounds == bounds
  }

  /** The count of a bucket, 0 for a bucket that the point does not have. */
  function CountAt(h: Hist, b: nat): uint64 {
    if b < |h.bucketCounts| then h.bucketCounts[b] else 0
  }

  function ColumnSum(ps: seq<Hist>, b: nat): nat {
    if ps == [] then 0 else ColumnSum(ps[..|ps| - 1], b) + CountAt(ps[|ps| - 1], b)
  }

  ghost predicate IsTimeSpan(start: uint64, timestamp: uint64, ps: seq<Hist>) {
    && (exists i :: 0 <= i < |ps| && start == ps[i].start)
    && (forall i :: 0 <= i < |ps| ==> start <= ps[i].start)
    && (exists i :: 0 <= i < |ps| && timestamp == ps[i].timestamp)
    && (forall i :: 0 <= i < |ps| ==> ps[i].timestamp <= timestamp)
  }

  ghost predicate IsLowest(min: Option<real>, ps: seq<Hist>)
    requires ps != []
  {
    && (min.None? <==> ps[0].min.None?)
    && (min.Some? ==>
          && (exists i :: 0 <= i < |ps| && min.value == if ps[i].min.Some? then ps[i].min.value else 0.0)
          && (forall i :: 0 <= i < |ps| ==> min.value <= if ps[i].min.Some? then ps[i].min.value else 0.0))
  }

  ghost predicate IsHighest(max: Option<real>, ps: seq<Hist>)
    requires ps != []
  {
    && (max.None? <==> ps[0].max.None?)
    && (max.Some? ==>
          && (exists i :: 0 <= i < |ps| && max.value == if ps[i].max.Some? then ps[i].max.value else 0.0)
          && (forall i :: 0 <= i < |ps| ==> max.value >= if ps[i].max.Some? then ps[i].max.value else 0.0))
  }

  /** `h` is the merge of the points: sums of sums and, in 64-bit arithmetic, of counts and bucket
      columns, the extreme timestamps and extreme values. A minimum or maximum is kept only if the
      first point has one, and later points without one count as 0. */
  ghost predicate IsMergeOf(h: Hist, ps: seq<Hist>)
    requires ps != []
  {
    && AllBounds(ps, h.bounds)
    && h.count == CountSum(ps) % U64
    && h.sum == SumSum(ps)
    && |h.bucketCounts| == |ps[0].bucketCounts|
    && (forall b :: 0 <= b < |h.bucketCounts| ==> h.bucketCounts[b] == ColumnSum(ps, b) % U64)
    && IsTimeSpan(h.start, h.timestamp, ps)
    && IsLowest(h.min, ps)
    && IsHighest(h.max, ps)
  }

  /** Where the last stretch of a stream starts: the latest point at which the bounds changed or the
      count since the previous such point had come to a multiple of 2^64. */
  function StretchStart(ps: seq<Hist>): (k: nat)
    requires ps != []
    ensures k < |ps|
  {
    var n := |ps| - 1;
    if n == 0 || ps[n - 1].bounds != ps[n].bounds then n
    else
      var k := StretchStart(ps[..n]);
      if CountSum(ps[k..n]) % U64 == 0 then n else k
  }

  function LastStretch(ps: seq<Hist>): (stretch: seq<Hist>)
    requires ps != []
    ensures stretch != []
  {
    ps[StretchStart(ps)..]
  }

  /** The last stretch either goes on with the next point or starts anew with it. */
  lemma StretchExtends(init: seq<Hist>, last: Hist)
    requires init != []
    ensures LastStretch(init + [last]) ==
              if init[|init| - 1].bounds == last.bounds && CountSum(LastStretch(init)) % U64 != 0
              then LastStretch(init) + [last] else [last]
  {
    hide CountSum;
    var ps, n, k := init + [last], |init|, StretchStart(init);
    assert ps[..n] == init && ps[n - 1] == init[n - 1] && ps[n] == last;
    assert ps[k..n] == init[k..] && ps[k..] == init[k..] + [last] && ps[n..] == [last];
  }

  lemma LastOfStretch(ps: seq<Hist>)
    requires ps != []
    ensures var stretch := LastStretch(ps); stretch[|stretch| - 1] == ps[|ps| - 1]
  {
  }

  lemma MergeBounds(h: Hist, ps: seq<Hist>)
    requires ps != [] && IsMergeOf(h, ps)
    ensures h.bounds == ps[|ps| - 1].bounds && h.count == CountSum(ps) % U64
    ensures |h.bucketCounts| == |ps[0].bucketCounts| && h.bounds == ps[0].bounds
  {
  }

  lemma PrefixNonEmpty(ps: seq<Hist>, n: nat)
    requires NonEmpty(ps) && n < |ps|
    ensures NonEmpty(ps[..n]) && ps[n].count != 0
  {
  }

  lemma EmptyFold()
    ensures Fold([]) == NEW_HIST
  {
  }

  lemma SingleStretch(h: Hist)
    ensures LastStretch([h]) == [h]
  {
  }

  lemma FirstPoint(h: Hist)
    requires h.count != 0
    ensures Merge(h, NEW_HIST) == h
  {
  }

  lemma MergeReplaces(from: Hist, to: Hist)
    requires from.count != 0 && (to.count == 0 || from.bounds != to.bounds)
    ensures Merge(from, to) == from
  {
  }

  lemma MergedColumns(to: Hist, ps: seq<Hist>, from: Hist)
    requires forall b :: 0 <= b < |to.bucketCounts| ==> to.bucketCounts[b] == ColumnSum(ps, b) % U64
    ensures forall b :: 0 <= b < |to.bucketCounts| ==>
              AddCounts(to.bucketCounts, from.bucketCounts)[b] == ColumnSum(ps + [from], b) % U64
  {
    assert (ps + [from])[..|ps|] == ps;
    forall b | 0 <= b < |to.bucketCounts|
      ensures AddCounts(to.bucketCounts, from.bucketCounts)[b] == ColumnSum(ps + [from], b) % U64
    {
      AddMod(ColumnSum(ps, b), CountAt(from, b));
    }
  }

  lemma MergedTimes(to: Hist, ps: seq<Hist>, from: Hist)
    requires IsTimeSpan(to.start, to.timestamp, ps)
    ensures IsTimeSpan(if from.start < to.start then from.start else to.start,
                       if from.timestamp > to.timestamp then from.timestamp else to.timestamp,
                       ps + [from])
  {
    var all := ps + [from];
    var i :| 0 <= i < |ps| && to.start == ps[i].start;
    var j :| 0 <= j < |ps| && to.timestamp == ps[j].timestamp;
    assert all[i] == ps[i] && all[j] == ps[j] && all[|ps|] == from;
  }

  lemma MergedLowest(min: Option<real>, ps: seq<Hist>, from: Hist)
    requires ps != [] && IsLowest(min, ps)
    ensures IsLowest(MergedMin(min, from.min), ps + [from])
  {
    var all := ps + [from];
    assert all[0] == ps[0] && all[|ps|] == from;
    if min.Some? {
      var i :| 0 <= i < |ps| && min.value == if ps[i].min.Some? then ps[i].min.value else 0.0;
      assert all[i] == ps[i];
    }
  }

  lemma MergedHighest(max: Option<real>, ps: seq<Hist>, from: Hist)
    requires ps != [] && IsHighest(max, ps)
    ensures IsHighest(MergedMax(max, from.max), ps + [from])
  {
    var all := ps + [from];
    assert all[0] == ps[0] && all[|ps|] == from;
    if max.Some? {
      var i :| 0 <= i < |ps| && max.value == if ps[i].max.Some? then ps[i].max.value else 0.0;
      assert all[i] == ps[i];
    }
  }

  lemma MergeExtends(to: Hist, ps: seq<Hist>, from: Hist)
    requires ps != [] && IsMergeOf(to, ps)
    requires from.count != 0 && to.count != 0 && from.bounds == to.bounds
    ensures IsMergeOf(Merge(from, to), ps + [from])
  {
    hide IsLowest, IsHighest, IsTimeSpan, MergedMin, MergedMax, AddCounts;
    var all, m := ps + [from], Merge(from, to);
    assert all[..|ps|] == ps && all[|ps|] == from && all[0] == ps[0];
    AddMod(CountSum(ps), from.count);
    MergedColumns(to, ps, from);
    MergedTimes(to, ps, from);
    MergedLowest(to.min, ps, from);
    MergedHighest(to.max, ps, from);
  }

  lemma StretchMergeStep(init: seq<Hist>, last: Hist)
    requires init != [] && last.count != 0
    requires IsMergeOf(Fold(init), LastStretch(init)) && IsMergeOf(last, [last])
    ensures IsMergeOf(Merge(last, Fold(init)), LastStretch(init + [last]))
  {
    hide *;
    StretchExtends(init, last);
    LastOfStretch(init);
    MergeBounds(Fold(init), LastStretch(init));
    if init[|init| - 1].bounds == last.bounds && CountSum(LastStretch(init)) % U64 != 0 {
      MergeExtends(Fold(init), LastStretch(init), last);
    } else {
      MergeReplaces(last, Fold(init));
    }
  }

  lemma SingleMerge(h: Hist)
    ensures IsMergeOf(h, [h])
  {
  }

  /** A slot is always the merge of the last stretch of its points. */
  lemma {:induction false} FoldIsStretchMerge(ps: seq<Hist>)
    requires NonEmpty(ps) && ps != []
    ensures IsMergeOf(Fold(ps), LastStretch(ps))
  {
    hide *;
    var n := |ps| - 1;
    var init, last := ps[..n], ps[n];
    FoldExtends(ps);
    PrefixNonEmpty(ps, n);
    SingleMerge(last);
    if n == 0 {
      FirstPoint(last);
      SingleStretch(last);
      assert init == [] && ps == [last];
      EmptyFold();
    } else {
      FoldIsStretchMerge(init);
      assert ps == init + [last];
      StretchMergeStep(init, last);
    }
  }

  // ---------------------------------------------------------------- out of range

  /** Point `i` has no more buckets than the point its stretch starts with. */
  predicate FitsItsStretch(ps: seq<Hist>, i: nat)
    requires i < |ps|
  {
    |ps[i].bucketCounts| <= |LastStretch(ps[..i + 1])[0].bucketCounts|
  }

  lemma FitsInPrefix(ps: seq<Hist>, n: nat, i: nat)
    requires i < n <= |ps|
    ensures FitsItsStretch(ps[..n], i) == FitsItsStretch(ps, i)
  {
    assert ps[..n][..i + 1] == ps[..i + 1];
  }

  lemma LastMergeFits(ps: seq<Hist>)
    requires NonEmpty(ps) && ps != []
    ensures var n := |ps| - 1; Fits(ps[n], Fold(ps[..n])) <==> FitsItsStretch(ps, n)
  {
    hide Fold, LastStretch, IsMergeOf;
    var n := |ps| - 1;
    assert ps[..n + 1] == ps;
    var init, last := ps[..n], ps[n];
    if n == 0 {
      EmptyFold();
      SingleStretch(last);
      assert ps == [last] && init == [];
    } else {
      assert ps == init + [last];
      FoldIsStretchMerge(init);
      MergeBounds(Fold(init), LastStretch(init));
      LastOfStretch(init);
      StretchExtends(init, last);
    }
  }

  /** The merges of a stream stay in range exactly when no point has more buckets than the point its
      stretch starts with. */
  lemma {:induction false} MergesFitExactly(ps: seq<Hist>)
    requires NonEmpty(ps)
    ensures MergesFit(ps) <==> forall i :: 0 <= i < |ps| ==> FitsItsStretch(ps, i)
  {
    if ps != [] {
      hide Fold, Fits, FitsItsStretch;
      var n := |ps| - 1;
      MergesFitExactly(ps[..n]);
      LastMergeFits(ps);
      forall i | 0 <= i < n
        ensures FitsItsStretch(ps[..n], i) == FitsItsStretch(ps, i)
      {
        FitsInPrefix(ps, n, i);
      }
    }
  }

  /** Reading the buckets of a slot stays in range exactly when it would for the point that the last
      stretch starts with. */
  lemma SlotInRangeExactly(ps: seq<Hist>)
    requires NonEmpty(ps) && ps != []
    ensures InRange(Fold(ps)) <==>
              var first := LastStretch(ps)[0]; |first.bucketCounts| >= 1 && |first.bucketCounts| >= |first.bounds|
  {
    hide Fold, LastStretch, IsMergeOf;
    FoldIsStretchMerge(ps);
    MergeBounds(Fold(ps), LastStretch(ps));
  }

  /** A slot has the bounds of its last point. */
  lemma SlotBounds(ps: seq<Hist>)
    requires NonEmpty(ps) && ps != []
    ensures Fold(ps).bounds == ps[|ps| - 1].bounds
  {
    hide *;
    FoldIsStretchMerge(ps);
    MergeBounds(Fold(ps), LastStretch(ps));
    LastOfStretch(ps);
  }

  /** Points with one bucket more than bounds never lead out of range. */
  lemma {:induction false} WellFormedStaysInRange(ps: seq<Hist>)
    requires forall i :: 0 <= i < |ps| ==> WellFormed(ps[i])
    ensures MergesFit(ps) && (ps != [] && NonEmpty(ps) ==> InRange(Fold(ps)))
    ensures Fold(ps) == NEW_HIST || WellFormed(Fold(ps))
  {
    if ps != [] {
      WellFormedStaysInRange(ps[..|ps| - 1]);
    }
  }

  /** A point that has observations but no buckets is stored, and then neither can its buckets be
      read nor a point with buckets and without bounds be merged into it. */
  lemma BucketlessPoint(h: Hist, next: Hist)
    requires h.count != 0 && h.bounds == [] && h.bucketCounts == []
    requires next.count != 0 && next.bounds == [] && next.bucketCounts != []
    ensures MergesFit([h]) && Fold([h]) == h && !InRange(Fold([h]))
    ensures !MergesFit([h, next])
  {
    assert [h, next][..1] == [h] && [h][..0] == [];
    FirstPoint(h);
    assert Fold([h]) == h;
  }

  // ---------------------------------------------------------------- the last bounds

  /** Where the longest suffix of points with the bounds of the last point starts. */
  function SuffixStart(ps: seq<Hist>): (k: nat)
    requires ps != []
    ensures k < |ps| && AllBounds(ps[k..], ps[|ps| - 1].bounds)
    ensures k == 0 || ps[k - 1].bounds != ps[|ps| - 1].bounds
  {
    var n := |ps| - 1;
    if n > 0 && ps[n - 1].bounds == ps[n].bounds then
      var k := SuffixStart(ps[..n]);
      assert ps[k..] == ps[..n][k..] + [ps[n]];
      k
    else n
  }

  function SameBoundsSuffix(ps: seq<Hist>): (suffix: seq<Hist>)
    requires ps != []
    ensures suffix != []
  {
    ps[SuffixStart(ps)..]
  }

  lemma SuffixExtends(init: seq<Hist>, last: Hist)
    requires init != []
    ensures SameBoundsSuffix(init + [last]) ==
              if init[|init| - 1].bounds == last.bounds then SameBoundsSuffix(init) + [last] else [last]
  {
    var ps, n, k := init + [last], |init|, SuffixStart(init);
    assert ps[..n] == init && ps[n - 1] == init[n - 1] && ps[n] == last;
    assert ps[k..] == init[k..] + [last] && ps[n..] == [last];
  }

  lemma CountExtends(ps: seq<Hist>, last: Hist)
    ensures CountSum(ps + [last]) == CountSum(ps) + last.count
  {
    assert (ps + [last])[..|ps|] == ps;
  }

  lemma CountOfOne(h: Hist)
    ensures CountSum([h]) == h.count
  {
    CountExtends([], h);
    assert [] + [h] == [h];
  }

  lemma SingleSuffix(h: Hist)
    ensures SameBoundsSuffix([h]) == [h]
  {
  }

  /** Before the last point the running count of the points never comes to a multiple of 2^64. */
  predicate NeverWrapsToZero(ps: seq<Hist>) {
    forall k :: 0 < k < |ps| ==> CountSum(ps[..k]) % U64 != 0
  }

  lemma NeverWrapsExtends(init: seq<Hist>, last: Hist)
    ensures NeverWrapsToZero(init + [last]) <==>
              NeverWrapsToZero(init) && (init == [] || CountSum(init) % U64 != 0)
  {
    hide CountSum;
    var ps := init + [last];
    assert forall k :: 0 <= k <= |init| ==> ps[..k] == init[..k];
    assert init[..|init|] == init;
    assert init != [] ==> (NeverWrapsToZero(ps) ==> CountSum(ps[..|init|]) % U64 != 0);
  }

  lemma NothingWraps(h: Hist)
    ensures NeverWrapsToZero([h])
  {
  }

  lemma SameButLast(a: seq<Hist>, b: seq<Hist>, last: Hist)
    requires b != []
    ensures a + [last] == b + [last] <==> a == b
    ensures [last] != b + [last]
  {
    if a + [last] == b + [last] {
      assert a == (a + [last])[..|a|] && b == (b + [last])[..|b|];
    }
  }

  /** The slot is the merge of all points since the last change of bounds exactly when no point since
      then found the stored count at 0, which is when it replaces what is stored. */
  lemma {:induction false} StretchIsSuffixExactly(ps: seq<Hist>)
    requires ps != []
    ensures LastStretch(ps) == SameBoundsSuffix(ps) <==> NeverWrapsToZero(SameBoundsSuffix(ps))
  {
    hide LastStretch, SameBoundsSuffix, CountSum, NeverWrapsToZero;
    var n := |ps| - 1;
    var init, last := ps[..n], ps[n];
    NothingWraps(last);
    if n == 0 {
      assert ps == [last];
      SingleStretch(last);
      SingleSuffix(last);
    } else {
      assert ps == init + [last];
      StretchExtends(init, last);
      SuffixExtends(init, last);
      StretchIsSuffixExactly(init);
      NeverWrapsExtends(SameBoundsSuffix(init), last);
      SameButLast(LastStretch(init), SameBoundsSuffix(init), last);
    }
  }

  lemma NoneWraps()
    ensures NeverWrapsToZero([])
  {
  }

  lemma {:induction false} SmallNeverWraps(ps: seq<Hist>)
    requires NonEmpty(ps) && CountSum(ps) < U64
    ensures NeverWrapsToZero(ps) && (ps != [] ==> CountSum(ps) > 0)
  {
    hide NeverWrapsToZero;
    if ps != [] {
      var n := |ps| - 1;
      PrefixNonEmpty(ps, n);
      SmallNeverWraps(ps[..n]);
      NeverWrapsExtends(ps[..n], ps[n]);
      assert ps == ps[..n] + [ps[n]];
    } else {
      assert NeverWrapsToZero([]) by { NoneWraps(); }
    }
  }

  lemma SuffixNonEmpty(ps: seq<Hist>)
    requires NonEmpty(ps) && ps != []
    ensures NonEmpty(SameBoundsSuffix(ps))
  {
  }

  /** A change of bounds discards everything before it. The slot is the merge of all points since, in
      64-bit arithmetic, if no running count comes to a multiple of 2^64, and none of them is lost
      from the count exactly when they count less than 2^64. */
  lemma FoldIsSuffixMerge(ps: seq<Hist>)
    requires NonEmpty(ps) && ps != []
    ensures var suffix := SameBoundsSuffix(ps);
            && (LastStretch(ps) == suffix <==> NeverWrapsToZero(suffix))
            && (NeverWrapsToZero(suffix) ==> IsMergeOf(Fold(ps), suffix))
            && (IsMergeOf(Fold(ps), suffix) && Fold(ps).count == CountSum(suffix) <==> CountSum(suffix) < U64)
  {
    hide Fold, LastStretch, SameBoundsSuffix, IsMergeOf, NeverWrapsToZero, CountSum, NonEmpty;
    StretchIsSuffixExactly(ps);
    FoldIsStretchMerge(ps);
    MergeBounds(Fold(ps), LastStretch(ps));
    SuffixNonEmpty(ps);
    if CountSum(SameBoundsSuffix(ps)) < U64 {
      SmallNeverWraps(SameBoundsSuffix(ps));
    }
  }

  /** A stream whose first two points count 2^63 each: the third replaces them. */
  lemma WrappedCountForgets(a: Hist, b: Hist)
    requires a.bounds == b.bounds && a.count == 0x8000_0000_0000_0000 && b.count == 1
    ensures SameBoundsSuffix([a, a, b]) == [a, a, b] && CountSum([a, a, b]) == 0x1_0000_0000_0000_0001
    ensures Fold([a, a, b]) == b
  {
    hide AddCounts, MergedMin, MergedMax;
    assert [a, a, b][..2] == [a, a] && [a, a][..1] == [a] && [a][..0] == [];
    assert Fold([a]) == a && SuffixStart([a]) == 0 && CountSum([a]) == a.count;
    assert Fold([a, a]).count == 0 && SuffixStart([a, a]) == 0 && CountSum([a, a]) == U64;
  }
}
