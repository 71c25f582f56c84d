/** What a store's histogram slots and percentile answers mean, from the stream of points to the
    point on the cumulative count. */
module StoredHistograms {
  import opened Basics
  import opened Aggregation
  import opened Histogram
  import opened Slots
  import Quantile

  /** After any run, the histogram slot of a sum or percentile config is the merge, in 64-bit
      arithmetic, of the points since it was last replaced. These are all points since the last change
      of bounds exactly when no running count came to a multiple of 2^64, and none of those is lost from
      the count exactly when they count less than 2^64. */
  lemma SlotIsSuffixMerge(cfgs: seq<Config>, ops: seq<Op>, c: Config, g: string)
    requires DistinctKeys(cfgs) && ValidOps(ops) && c in cfgs && MergesHistograms(c.typ)
    requires HistsFor(c, g, ops) != []
    ensures Slot(c.key, g) in Run(cfgs, ops).hists
    ensures var stored, hs := Run(cfgs, ops).hists[Slot(c.key, g)], HistsFor(c, g, ops);
            var stretch, suffix := LastStretch(hs), SameBoundsSuffix(hs);
            && IsMergeOf(stored, stretch)
            && (stretch == suffix <==> NeverWrapsToZero(suffix))
            && (IsMergeOf(stored, suffix) && stored.count == CountSum(suffix) <==> CountSum(suffix) < U64)
  {
    hide Run, HistsFor, Fold, IsMergeOf, CountSum, SameBoundsSuffix, LastStretch, NeverWrapsToZero;
    SlotsAreNaive(cfgs, ops, c, g);
    FoldIsStretchMerge(HistsFor(c, g, ops));
    FoldIsSuffixMerge(HistsFor(c, g, ops));
  }

  /** The last stretch of a group's points starts with a point whose buckets can be read. */
  predicate StartsInRange(c: Config, g: string, ops: seq<Op>)
    requires g in HistGroups(c, ops)
  {
    var first := LastStretch(HistsFor(c, g, ops))[0];
    |first.bucketCounts| >= 1 && |first.bucketCounts| >= |first.bounds|
  }

  /** A percentile query stays in range exactly when every group's last stretch starts with a point
      that has a count for every bound, and at least one count. */
  lemma ReadableExactly(cfgs: seq<Config>, ops: seq<Op>, c: Config)
    requires DistinctKeys(cfgs) && ValidOps(ops) && c in cfgs && c.typ == Percentile
    ensures Readable(c, Run(cfgs, ops)) <==> forall g :: g in HistGroups(c, ops) ==> StartsInRange(c, g, ops)
  {
    hide Run, LastStretch, InRange, NaiveAnswer, Answer, Readable;
    AnswerIsNaive(Quantile.SortBuckets, cfgs, ops, c);
    forall g | g in HistGroups(c, ops)
      ensures InRange(Fold(HistsFor(c, g, ops))) <==> StartsInRange(c, g, ops)
    {
      SlotInRangeExactly(HistsFor(c, g, ops));
    }
  }

  /** A point whose count is its bucket total and whose bounds are increasing, as the OpenTelemetry
      data model wants it. */
  predicate Proper(h: Hist) {
    WellFormed(h) && h.count == BucketTotal(h.bucketCounts) && h.bounds != [] && Increasing(h.bounds)
  }

  predicate AllProper(hs: seq<Hist>) {
    forall i :: 0 <= i < |hs| ==> Proper(hs[i])
  }

  lemma MergedProper(from: Hist, to: Hist)
    requires Proper(from) && Proper(to) && from.count != 0 && to.count != 0 && from.bounds == to.bounds
    requires from.count as int + to.count as int < U64
    ensures Proper(Merge(from, to)) && Merge(from, to).count as int == from.count as int + to.count as int
  {
    hide Increasing;
    AddedCountsExact(to.bucketCounts, from.bucketCounts);
  }

  lemma ProperLast(hs: seq<Hist>)
    requires hs != [] && AllProper(LastStretch(hs))
    ensures Proper(hs[|hs| - 1])
  {
    hide Proper;
    LastOfStretch(hs);
  }

  lemma ProperPrefix(hs: seq<Hist>, last: Hist)
    requires AllProper(hs + [last])
    ensures AllProper(hs)
  {
    hide Proper;
    assert forall i :: 0 <= i < |hs| ==> (hs + [last])[i] == hs[i];
  }

  /** Points before the last stretch may be of any shape and count. */
  lemma {:induction false} FoldIsProper(hs: seq<Hist>)
    requires NonEmpty(hs) && hs != [] && AllProper(LastStretch(hs)) && CountSum(LastStretch(hs)) < U64
    ensures Proper(Fold(hs)) && Fold(hs).count == CountSum(LastStretch(hs)) > 0
  {
    hide *;
    var n := |hs| - 1;
    var init, last := hs[..n], hs[n];
    FoldExtends(hs);
    PrefixNonEmpty(hs, n);
    ProperLast(hs);
    CountOfOne(last);
    if n == 0 {
      assert hs == [last] && init == [];
      EmptyFold();
      SingleStretch(last);
      FirstPoint(last);
    } else {
      assert hs == init + [last];
      StretchExtends(init, last);
      FoldIsStretchMerge(init);
      MergeBounds(Fold(init), LastStretch(init));
      LastOfStretch(init);
      if init[|init| - 1].bounds == last.bounds && CountSum(LastStretch(init)) % U64 != 0 {
        CountExtends(LastStretch(init), last);
        ProperPrefix(LastStretch(init), last);
        FoldIsProper(init);
        MergedProper(last, Fold(init));
      } else {
        MergeReplaces(last, Fold(init));
      }
    }
  }

  // The cumulative count of a stored histogram, on its bounds and counts alone.

  /** The part of bucket `b` at or below `x`: inner buckets are spread evenly, the lowest sits at its
      upper bound and the highest at its lower bound. */
  function PartBelow(h: Hist, b: nat, x: real): real
    requires h.bounds != [] && b <= |h.bounds|
  {
    if b == 0 then (if x >= h.bounds[0] then 1.0 else 0.0)
    else if b == |h.bounds| then (if x >= h.bounds[b - 1] then 1.0 else 0.0)
    else if x <= h.bounds[b - 1] then 0.0
    else if x >= h.bounds[b] then 1.0
    else (x - h.bounds[b - 1]) / (h.bounds[b] - h.bounds[b - 1])
  }

  /** Observations in the first `k` buckets at or below `x`. */
  function CountBelow(h: Hist, x: real, k: nat): real
    requires h.bounds != [] && k <= |h.bounds| + 1 == |h.bucketCounts|
  {
    if k == 0 then 0.0
    else CountBelow(h, x, k - 1) + h.bucketCounts[k - 1] as real * PartBelow(h, k - 1, x)
  }

  /** From the first bound on, at least `p` percent of the observations are at or below `x`. */
  predicate HasPercent(h: Hist, p: real, x: real)
    requires WellFormed(h) && h.bounds != []
  {
    h.bounds[0] <= x && p * h.count as real / 100.0 <= CountBelow(h, x, |h.bucketCounts|)
  }

  /** `x` is the least such point, and it is not beyond the last bound. */
  ghost predicate IsPercentilePoint(h: Hist, p: real, x: real)
    requires WellFormed(h) && h.bounds != []
  {
    && HasPercent(h, p, x)
    && x <= h.bounds[|h.bounds| - 1]
    && forall y :: HasPercent(h, p, y) ==> x <= y
  }

  lemma PartIsShare(h: Hist, b: nat, x: real)
    requires WellFormed(h) && Increasing(h.bounds) && h.bounds != [] && b <= |h.bounds|
    ensures Quantile.WellFormed(BucketsOf(h)) && Quantile.Share(BucketsOf(h), b, x) == PartBelow(h, b, x)
  {
    BucketsWellFormed(h);
  }

  lemma {:induction false} CountIsWeighted(h: Hist, x: real, k: nat)
    requires WellFormed(h) && Increasing(h.bounds) && h.bounds != [] && k <= |h.bucketCounts|
    ensures Quantile.WellFormed(BucketsOf(h))
    ensures Quantile.Weighted(BucketsOf(h), Quantile.Shares(BucketsOf(h), x), k) == CountBelow(h, x, k)
  {
    hide Quantile.WellFormed, Quantile.Share, PartBelow, Increasing, Quantile.Weigh;
    BucketsWellFormed(h);
    if k > 0 {
      CountIsWeighted(h, x, k - 1);
      PartIsShare(h, k - 1, x);
      Quantile.AllAtOnce(h.bucketCounts[k - 1], PartBelow(h, k - 1, x));
    }
  }

  lemma PercentOfCount(p: real, n: nat)
    requires 0.0 <= p <= 100.0
    ensures 0.0 <= ToQuantile(p) <= 1.0 && Quantile.Rank(ToQuantile(p), n) == p * n as real / 100.0
  {
    QuotientOf100(p);
  }

  lemma ReachesIsPercent(h: Hist, p: real, x: real)
    requires Proper(h) && 0.0 <= p <= 100.0
    ensures Quantile.WellFormed(BucketsOf(h)) && 0.0 <= ToQuantile(p) <= 1.0
    ensures Quantile.Reaches(BucketsOf(h), Quantile.Rank(ToQuantile(p), h.count), x) <==> HasPercent(h, p, x)
  {
    hide Quantile.WellFormed, Quantile.Rank, ToQuantile, Increasing, CountBelow, Quantile.Weighted, Quantile.Shares;
    BucketsWellFormed(h);
    PercentOfCount(p, h.count);
    CountIsWeighted(h, x, |h.bucketCounts|);
  }

  lemma PercentileOfProper(sort: Quantile.Sorter, p: real, h: Hist)
    requires Proper(h) && h.count != 0 && 0.0 <= p <= 100.0
    ensures PercentileOf(sort, p, h).Num? && IsPercentilePoint(h, p, PercentileOf(sort, p, h).r)
  {
    hide Quantile.Rank, Quantile.QuantileSorted, Quantile.WellFormed, Quantile.Reaches, PercentileOf,
      ToQuantile, HasPercent;
    QuotientOf100(p);
    BucketsWellFormed(h);
    PercentileIsQuantile(sort, p, h);
    Quantile.QuantileIsLeast(ToQuantile(p), BucketsOf(h));
    forall x
      ensures Quantile.Reaches(BucketsOf(h), Quantile.Rank(ToQuantile(p), h.count), x) <==> HasPercent(h, p, x)
    {
      ReachesIsPercent(h, p, x);
    }
  }

  lemma NaiveAnswerForPercentile(sort: Quantile.Sorter, c: Config, g: string, ops: seq<Op>)
    requires c.typ == Percentile && Answerable(c, ops) && HistsFor(c, g, ops) != []
    ensures var h := NaiveHist(c.typ, HistsFor(c, g, ops));
            && g in NaiveAnswer(sort, c, ops) && InRange(h)
            && NaiveAnswer(sort, c, ops)[g] == PercentileOf(sort, c.percentile, h)
  {
  }

  lemma ProperHas(h: Hist)
    requires Proper(h)
    ensures WellFormed(h) && h.bounds != []
  {
  }

  /** From the stream to the answer: what Get reports for a percentile config is the least point at
      which the interpolated cumulative count of the stored histogram reaches that percentage of its
      observations, which are those of the points since the slot was last replaced. */
  lemma PercentileAnswerIsLeast(sort: Quantile.Sorter, cfgs: seq<Config>, ops: seq<Op>, c: Config, g: string)
    requires ValidList(cfgs) && ValidOps(ops) && c in cfgs && c.typ == Percentile
    requires HistsFor(c, g, ops) != [] && Answerable(c, ops)
    requires var stretch := LastStretch(HistsFor(c, g, ops)); AllProper(stretch) && CountSum(stretch) < U64
    ensures DistinctKeys(cfgs) && Readable(c, Run(cfgs, ops)) && Slot(c.key, g) in Run(cfgs, ops).hists
    ensures g in Answer(sort, c, Run(cfgs, ops)) && Answer(sort, c, Run(cfgs, ops))[g].Num?
    ensures var h := Run(cfgs, ops).hists[Slot(c.key, g)];
            && Proper(h) && h.count == CountSum(LastStretch(HistsFor(c, g, ops))) > 0
            && IsPercentilePoint(h, c.percentile, Answer(sort, c, Run(cfgs, ops))[g].r)
  {
    hide Run, HistsFor, NumbersFor, Fold, Proper, CountSum, PercentileOf, Answer, NumberGroups, HistGroups, Readable,
      Answerable, LastStretch, IsPercentilePoint, BucketsOf, Compatible;
    KeysDistinct(cfgs);
    AnswerIsNaive(sort, cfgs, ops, c);
    SlotsAreNaive(cfgs, ops, c, g);
    FoldIsProper(HistsFor(c, g, ops));
    PercentileOfProper(sort, c.percentile, Fold(HistsFor(c, g, ops)));
    assert ValidConfig(c);
    NaiveAnswerForPercentile(sort, c, g, ops);
    ProperHas(Fold(HistsFor(c, g, ops)));
  }
}
