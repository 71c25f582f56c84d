/**
  The percentile query: deltaExplicitBucketsQuantile.

  The method works on an array that it sorts in place, as the program does. What it returns is
  then characterised against an independent definition: the interpolated cumulative count `Cdf`,
  a sum over the buckets of count times the share of the bucket that lies at or below a point.
*/
module Quantile {
  import opened Basics

  /** An inclusive upper bound: a finite number, or the +Inf of the highest bucket. */
  datatype Bound = Finite(r: real) | Infinity

  datatype ExplicitBucket = ExplicitBucket(upperBound: Bound, count: uint64)

  type Buckets = seq<ExplicitBucket>

  function ToFloat(b: Bound): Float {
    match b
    case Finite(r) => Num(r)
    case Infinity => PosInf
  }

  predicate LessEq(a: Bound, b: Bound) {
    b.Infinity? || (a.Finite? && a.r <= b.r)
  }

  // ---------------------------------------------------------------- sorting

  predicate Sorted(bs: Buckets) {
    forall i, j :: 0 <= i < j < |bs| ==> LessEq(bs[i].upperBound, bs[j].upperBound)
  }

  predicate DistinctBounds(bs: Buckets) {
    forall i, j :: 0 <= i < j < |bs| ==> bs[i].upperBound != bs[j].upperBound
  }

  lemma SortedCons(b: ExplicitBucket, bs: Buckets)
    requires Sorted(bs) && (bs == [] || LessEq(b.upperBound, bs[0].upperBound))
    ensures Sorted([b] + bs)
  {
    var r := [b] + bs;
    forall i, j | 0 <= i < j < |r|
      ensures LessEq(r[i].upperBound, r[j].upperBound)
    {
      assert r[j] == bs[j - 1];
      if i > 0 { assert r[i] == bs[i - 1]; }
    }
  }

  lemma InsertedBelow(least: ExplicitBucket, b: ExplicitBucket, bs: Buckets, rest: Buckets)
    requires multiset(rest) == multiset(bs) + multiset{b}
    requires LessEq(least.upperBound, b.upperBound)
    requires forall i :: 0 <= i < |bs| ==> LessEq(least.upperBound, bs[i].upperBound)
    ensures rest != [] && LessEq(least.upperBound, rest[0].upperBound)
  {
    assert b in multiset(rest);
    assert rest[0] in multiset(rest);
    if rest[0] != b {
      assert rest[0] in multiset(bs);
    }
  }

  function Insert(b: ExplicitBucket, bs: Buckets): (r: Buckets)
    requires Sorted(bs)
    ensures Sorted(r)
    ensures multiset(r) == multiset(bs) + multiset{b}
  {
    if bs == [] then [b]
    else if LessEq(b.upperBound, bs[0].upperBound) then
      SortedCons(b, bs);
      [b] + bs
    else
      var rest := Insert(b, bs[1..]);
      assert bs == [bs[0]] + bs[1..];
      InsertedBelow(bs[0], b, bs[1..], rest);
      SortedCons(bs[0], rest);
      [bs[0]] + rest
  }

  function SortBuckets(bs: Buckets): (r: Buckets)
    ensures Sorted(r)
    ensures multiset(r) == multiset(bs)
    ensures |r| == |bs|
  {
    if bs == [] then []
    else
      assert bs == [bs[0]] + bs[1..];
      var r := Insert(bs[0], SortBuckets(bs[1..]));
      assert |r| == |multiset(r)| && |bs| == |multiset(bs)|;
      r
  }

  lemma WithoutLowest(a: Buckets)
    requires Sorted(a) && a != []
    ensures Sorted(a[1..]) && (DistinctBounds(a) ==> DistinctBounds(a[1..]))
    ensures multiset(a[1..]) == multiset(a) - multiset{a[0]}
  {
    assert a == [a[0]] + a[1..];
  }

  lemma SameLowest(a: Buckets, b: Buckets)
    requires Sorted(a) && Sorted(b) && multiset(a) == multiset(b) && DistinctBounds(a)
    requires a != [] && b != []
    ensures a[0] == b[0]
  {
    assert a[0] in multiset(b) && b[0] in multiset(a);
    var i :| 0 <= i < |b| && b[i] == a[0];
    var j :| 0 <= j < |a| && a[j] == b[0];
    assert LessEq(b[0].upperBound, a[0].upperBound);
    assert LessEq(a[0].upperBound, a[j].upperBound);
  }

  /** With distinct bounds every sorting algorithm gives the same buckets. */
  lemma {:induction false} SortedUnique(a: Buckets, b: Buckets)
    requires Sorted(a) && Sorted(b) && multiset(a) == multiset(b) && DistinctBounds(a)
    ensures a == b
  {
    hide Sorted, DistinctBounds;
    assert |a| == |multiset(a)| == |multiset(b)| == |b|;
    if a != [] {
      SameLowest(a, b);
      WithoutLowest(a);
      WithoutLowest(b);
      SortedUnique(a[1..], b[1..]);
      assert a == [a[0]] + a[1..] && b == [b[0]] + b[1..];
    }
  }

  /** The library sort, of which only the result is known: for the same buckets it always gives the
      same list in the order of their bounds, but equal bounds may come in any order. */
  ghost predicate IsSorter(sort: Buckets -> Buckets) {
    forall bs :: Sorted(sort(bs)) && multiset(sort(bs)) == multiset(bs)
  }

  type Sorter = sort: Buckets -> Buckets | IsSorter(sort) witness SortBuckets

  lemma SortSorted(sort: Sorter, bs: Buckets)
    requires Sorted(bs) && DistinctBounds(bs)
    ensures sort(bs) == bs
  {
    SortedUnique(bs, sort(bs));
  }

  /** Insertion sort leaves a sorted list alone, with the order of its equal bounds. */
  lemma {:induction false} StableOnSorted(bs: Buckets)
    requires Sorted(bs)
    ensures SortBuckets(bs) == bs
  {
    if bs != [] {
      StableOnSorted(bs[1..]);
      assert bs == [bs[0]] + bs[1..];
    }
  }

  // ---------------------------------------------------------------- what the program computes

  /** The program's running uint64 count over the first `k` buckets. */
  function Counted(bs: Buckets, k: nat): uint64
    requires k <= |bs|
  {
    if k == 0 then 0 else Add64(Counted(bs, k - 1), bs[k - 1].count)
  }

  /** The first bucket from `i` on whose running count reaches the rank. One always exists. */
  function FirstReaching(bs: Buckets, rank: real, i: nat): (idx: nat)
    requires i < |bs| && rank <= Counted(bs, |bs|) as real
    ensures i <= idx < |bs|
    ensures Counted(bs, idx + 1) as real >= rank
    ensures i < idx ==> (Counted(bs, idx) as real) < rank
    decreases |bs| - i
  {
    if Counted(bs, i + 1) as real >= rank || i + 1 == |bs| then i
    else FirstReaching(bs, rank, i + 1)
  }

  /** `lo + (hi - lo) * f` in float64 arithmetic. */
  function Interpolate(lo: Bound, hi: Bound, f: real): Float {
    match (lo, hi)
    case (Finite(l), Finite(h)) => Num(l + (h - l) * f)
    case (Finite(l), Infinity) => if f == 0.0 then NaN else PosInf
    case (Infinity, _) => NaN
  }

  lemma Product(c: real, s: real)
    requires 0.0 <= c && 0.0 <= s <= 1.0
    ensures 0.0 <= c * s <= c
  {
    assert c * (1.0 - s) >= 0.0;
  }

  /** `q` times a number of observations. */
  function Rank(q: real, n: nat): (r: real)
    requires 0.0 <= q <= 1.0
    ensures 0.0 <= r <= n as real
  {
    Product(n as real, q);
    n as real * q
  }

  lemma AddSub64(a: uint64, b: uint64)
    ensures Sub64(Add64(a, b), b) == a
    ensures a + b < U64 ==> Add64(a, b) == a + b
    ensures a + b >= U64 ==> Add64(a, b) < a
  {
  }

  /** The division is never by zero, and the wrapped subtraction is the previous running count,
      even when the total number of observations overflows 64 bits. */
  lemma ReachedBucketIsNotEmpty(bs: Buckets, rank: real, idx: nat)
    requires 0 < idx < |bs|
    requires Counted(bs, idx) as real < rank <= Counted(bs, idx + 1) as real
    ensures bs[idx].count != 0
    ensures Sub64(Counted(bs, idx + 1), bs[idx].count) == Counted(bs, idx)
    ensures Counted(bs, idx + 1) == Counted(bs, idx) + bs[idx].count
  {
    AddSub64(Counted(bs, idx), bs[idx].count);
  }

  /** The point inside bucket `idx` where the missing part of the rank is found. */
  function PointIn(bs: Buckets, rank: real, idx: nat): Float
    requires 0 < idx < |bs|
    requires Counted(bs, idx) as real < rank <= Counted(bs, idx + 1) as real
  {
    var before := Sub64(Counted(bs, idx + 1), bs[idx].count);
    ReachedBucketIsNotEmpty(bs, rank, idx);
    Interpolate(bs[idx - 1].upperBound, bs[idx].upperBound,
                (rank - before as real) / bs[idx].count as real)
  }

  /** The bucket that the rank falls into, and the point in it. */
  function AtRank(bs: Buckets, rank: real): Float
    requires |bs| >= 2 && rank <= Counted(bs, |bs|) as real
  {
    var idx := FirstReaching(bs, rank, 0);
    if idx == |bs| - 1 then ToFloat(bs[|bs| - 2].upperBound)
    else if idx == 0 then ToFloat(bs[0].upperBound)
    else PointIn(bs, rank, idx)
  }

  /** The part of the computation that follows the sort, for a quantile between 0 and 1. */
  function QuantileSorted(q: real, bs: Buckets): Float
    requires 0.0 <= q <= 1.0
  {
    if |bs| < 2 || bs[|bs| - 1].upperBound != Infinity || Counted(bs, |bs|) == 0 then NaN
    else AtRank(bs, Rank(q, Counted(bs, |bs|)))
  }

  predicate InRange(q: Float) {
    q.Num? && 0.0 <= q.r <= 1.0
  }

  /** The answer for what is not a quantile. */
  function OutOfRange(q: Float): Float
    requires !InRange(q)
  {
    match q
    case NaN => NaN
    case NegInf => NegInf
    case PosInf => PosInf
    case Num(r) => if r < 0.0 then NegInf else PosInf
  }

  /** The whole function on a value: special cases, then sort, then quantile. */
  function DeltaQuantile(sort: Sorter, q: Float, bs: Buckets): Float {
    if InRange(q) then QuantileSorted(q.r, sort(bs)) else OutOfRange(q)
  }

  lemma MulLessEq(c: real, a: real, b: real)
    requires 0.0 <= c && a <= b
    ensures c * a <= c * b
  {
    assert c * (b - a) >= 0.0;
  }

  lemma MulLess(c: real, a: real, b: real)
    requires 0.0 < c && a < b
    ensures c * a < c * b
  {
    assert c * (b - a) > 0.0;
  }

  lemma Smaller(c: real, a: real, b: real)
    requires 0.0 < c && c * a <= c * b
    ensures a <= b
  {
    if b < a { MulLess(c, b, a); }
  }

  // ---------------------------------------------------------------- the imperative form

  /** slices.SortFunc by upper bound. The sort is not stable: buckets with equal bounds may end in
      any order, but always in the same one. */
  method SortByUpperBound(sort: Sorter, a: array<ExplicitBucket>)
    modifies a
    ensures Sorted(a[..]) && multiset(a[..]) == old(multiset(a[..])) && a[..] == sort(old(a[..]))
  {
    var s := sort(a[..]);
    assert |s| == |multiset(s)| && |a[..]| == |multiset(a[..])|;
    forall i | 0 <= i < a.Length {
      a[i] := s[i];
    }
    assert a[..] == s;
  }

  method CountObservations(buckets: array<ExplicitBucket>) returns (observations: uint64)
    ensures observations == Counted(buckets[..], buckets.Length)
  {
    observations := 0;
    for i := 0 to buckets.Length
      invariant observations == Counted(buckets[..], i)
    {
      observations := Add64(observations, buckets[i].count);
    }
  }

  /** slices.IndexFunc with the closure that keeps the running count. */
  method IndexOfRank(buckets: array<ExplicitBucket>, rank: real) returns (idx: nat, countSoFar: uint64)
    requires 0 < buckets.Length && rank <= Counted(buckets[..], buckets.Length) as real
    ensures idx == FirstReaching(buckets[..], rank, 0) < buckets.Length
    ensures countSoFar == Counted(buckets[..], idx + 1)
  {
    ghost var bs := buckets[..];
    idx, countSoFar := 0, buckets[0].count;
    assert countSoFar == Counted(bs, 1);
    while (countSoFar as real) < rank
      invariant 0 <= idx < buckets.Length && buckets[..] == bs
      invariant countSoFar == Counted(bs, idx + 1)
      invariant FirstReaching(bs, rank, 0) == FirstReaching(bs, rank, idx)
      decreases buckets.Length - idx
    {
      idx := idx + 1;
      countSoFar := Add64(countSoFar, buckets[idx].count);
    }
  }

  method InterpolateInBucket(buckets: array<ExplicitBucket>, rank: real, bucketIdx: nat, countSoFar: uint64)
    returns (r: Float)
    requires 0 < bucketIdx < buckets.Length
    requires countSoFar == Counted(buckets[..], bucketIdx + 1)
    requires Counted(buckets[..], bucketIdx) as real < rank <= countSoFar as real
    ensures r == PointIn(buckets[..], rank, bucketIdx)
  {
    var bucketStart := buckets[bucketIdx - 1].upperBound;
    var bucketEnd := buckets[bucketIdx].upperBound;
    var bucketCount := buckets[bucketIdx].count;
    ReachedBucketIsNotEmpty(buckets[..], rank, bucketIdx);
    var bucketQuantile := (rank - Sub64(countSoFar, bucketCount) as real) / bucketCount as real;
    r := Interpolate(bucketStart, bucketEnd, bucketQuantile);
  }

  method DeltaExplicitBucketsQuantile(sort: Sorter, q: Float, buckets: array<ExplicitBucket>) returns (r: Float)
    modifies buckets
    ensures r == DeltaQuantile(sort, q, old(buckets[..]))
    ensures multiset(buckets[..]) == old(multiset(buckets[..]))
    ensures InRange(q) ==> Sorted(buckets[..])
  {
    hide Rank, FirstReaching, Counted, PointIn;
    if q == NaN { return NaN; }
    if q == NegInf || (q.Num? && q.r < 0.0) { return NegInf; }
    if q == PosInf || (q.Num? && q.r > 1.0) { return PosInf; }

    SortByUpperBound(sort, buckets);
    ghost var bs := buckets[..];

    if buckets.Length < 2 { return NaN; }
    if buckets[buckets.Length - 1].upperBound != Infinity { return NaN; }

    var observations := CountObservations(buckets);
    if observations == 0 { return NaN; }

    var rank := Rank(q.r, observations);
    var bucketIdx, countSoFar := IndexOfRank(buckets, rank);
    if bucketIdx == buckets.Length - 1 { return ToFloat(buckets[buckets.Length - 2].upperBound); }
    if bucketIdx == 0 { return ToFloat(buckets[0].upperBound); }

    r := InterpolateInBucket(buckets, rank, bucketIdx, countSoFar);
  }

  // ---------------------------------------------------------------- the cumulative count

  /** Sorted contiguous buckets with at least one finite bound and a last bound of +Inf. */
  predicate WellFormed(bs: Buckets) {
    && |bs| >= 2
    && bs[|bs| - 1].upperBound == Infinity
    && (forall i :: 0 <= i < |bs| - 1 ==> bs[i].upperBound.Finite?)
    && (forall i, j :: 0 <= i < j < |bs| - 1 ==> bs[i].upperBound.r < bs[j].upperBound.r)
  }

  /** Observations in the first `k` buckets, as an unbounded number. */
  function Below(bs: Buckets, k: nat): nat
    requires k <= |bs|
  {
    if k == 0 then 0 else Below(bs, k - 1) + bs[k - 1].count
  }

  function Total(bs: Buckets): nat {
    Below(bs, |bs|)
  }

  /** How much of the interval from `lo` to `hi` lies at or below `x`. */
  function Fraction(lo: real, hi: real, x: real): real
    requires lo < hi
  {
    if x <= lo then 0.0 else if x >= hi then 1.0 else (x - lo) / (hi - lo)
  }

  /** The share of bucket `i` at or below `x`. Inner buckets are spread evenly; the lowest bucket
      sits at its upper bound and the highest bucket at its lower bound. */
  function Share(bs: Buckets, i: nat, x: real): real
    requires WellFormed(bs) && i < |bs|
  {
    if i == 0 then (if x >= bs[0].upperBound.r then 1.0 else 0.0)
    else if i == |bs| - 1 then (if x >= bs[i - 1].upperBound.r then 1.0 else 0.0)
    else Fraction(bs[i - 1].upperBound.r, bs[i].upperBound.r, x)
  }

  function Shares(bs: Buckets, x: real): (s: seq<real>)
    requires WellFormed(bs)
    ensures |s| == |bs| && forall i :: 0 <= i < |bs| ==> s[i] == Share(bs, i, x)
  {
    seq(|bs|, i requires 0 <= i < |bs| => Share(bs, i, x))
  }

  /** `n` observations that contribute `s` each; n * s (see AllAtOnce). */
  function Weigh(n: nat, s: real): real {
    if n == 0 then 0.0 else Weigh(n - 1, s) + s
  }

  lemma {:induction false} AllAtOnce(n: nat, s: real)
    ensures Weigh(n, s) == n as real * s
  {
    if n > 0 {
      AllAtOnce(n - 1, s);
      Distribute((n - 1) as real, 1.0, s);
    }
  }

  /** The first `k` counts, each times its weight. */
  function Weighted(bs: Buckets, w: seq<real>, k: nat): real
    requires k <= |bs| == |w|
  {
    if k == 0 then 0.0 else Weighted(bs, w, k - 1) + Weigh(bs[k - 1].count, w[k - 1])
  }

  /** Interpolated number of observations at or below `x`. */
  function Cdf(bs: Buckets, x: real): real
    requires WellFormed(bs)
  {
    Weighted(bs, Shares(bs, x), |bs|)
  }

  /** From the first finite bound on, the cumulative count at `x` reaches the rank. */
  predicate Reaches(bs: Buckets, rank: real, x: real)
    requires WellFormed(bs)
  {
    bs[0].upperBound.r <= x && rank <= Cdf(bs, x)
  }

  /** `x` is the least such point, and it is not beyond the last finite bound. */
  ghost predicate IsLeast(bs: Buckets, rank: real, x: real)
    requires WellFormed(bs)
  {
    && Reaches(bs, rank, x)
    && x <= bs[|bs| - 2].upperBound.r
    && forall y :: Reaches(bs, rank, y) ==> x <= y
  }

  // ---------------------------------------------------------------- facts about weighted counts

  predicate Between(w: seq<real>, lo: real, hi: real) {
    forall i :: 0 <= i < |w| ==> lo <= w[i] <= hi
  }

  lemma {:induction false} WeighRange(n: nat, s: real)
    requires 0.0 <= s <= 1.0
    ensures 0.0 <= Weigh(n, s) <= n as real
    ensures s == 1.0 ==> Weigh(n, s) == n as real
    ensures s == 0.0 ==> Weigh(n, s) == 0.0
  {
    if n > 0 { WeighRange(n - 1, s); }
  }

  lemma {:induction false} WeighMonotone(n: nat, s: real, t: real)
    requires s <= t
    ensures Weigh(n, s) <= Weigh(n, t)
    ensures n > 0 && s < t ==> Weigh(n, s) < Weigh(n, t)
  {
    if n > 0 { WeighMonotone(n - 1, s, t); }
  }

  lemma {:induction false} WeighAdds(m: nat, n: nat, s: real)
    ensures Weigh(m + n, s) == Weigh(m, s) + Weigh(n, s)
  {
    if n > 0 { WeighAdds(m, n - 1, s); }
  }

  lemma {:induction false} WeightedAtMostBelow(bs: Buckets, w: seq<real>, k: nat)
    requires k <= |bs| == |w| && Between(w, 0.0, 1.0)
    ensures Weighted(bs, w, k) <= Below(bs, k) as real
  {
    if k > 0 {
      WeightedAtMostBelow(bs, w, k - 1);
      WeighRange(bs[k - 1].count, w[k - 1]);
    }
  }

  lemma {:induction false} WeightedGrows(bs: Buckets, w: seq<real>, k: nat, m: nat)
    requires k <= m <= |bs| == |w| && Between(w, 0.0, 1.0)
    ensures Weighted(bs, w, k) <= Weighted(bs, w, m)
    decreases m
  {
    if k < m {
      WeightedGrows(bs, w, k, m - 1);
      WeighRange(bs[m - 1].count, w[m - 1]);
    }
  }

  lemma {:induction false} WeightedFull(bs: Buckets, w: seq<real>, k: nat)
    requires k <= |bs| == |w| && forall i :: 0 <= i < k ==> w[i] == 1.0
    ensures Weighted(bs, w, k) == Below(bs, k) as real
  {
    if k > 0 {
      WeightedFull(bs, w, k - 1);
      WeighRange(bs[k - 1].count, 1.0);
    }
  }

  lemma {:induction false} WeightedNone(bs: Buckets, w: seq<real>, k: nat, m: nat)
    requires k <= m <= |bs| == |w| && forall i :: k <= i < m ==> w[i] == 0.0
    ensures Weighted(bs, w, m) == Weighted(bs, w, k)
    decreases m
  {
    if k < m {
      WeightedNone(bs, w, k, m - 1);
      WeighRange(bs[m - 1].count, 0.0);
    }
  }

  lemma {:induction false} WeightedMonotone(bs: Buckets, v: seq<real>, w: seq<real>, k: nat)
    requires k <= |bs| == |v| == |w| && forall i :: 0 <= i < |v| ==> v[i] <= w[i]
    ensures Weighted(bs, v, k) <= Weighted(bs, w, k)
  {
    if k > 0 {
      WeightedMonotone(bs, v, w, k - 1);
      WeighMonotone(bs[k - 1].count, v[k - 1], w[k - 1]);
    }
  }

  // ---------------------------------------------------------------- facts about shares

  lemma QuotientRange(part: real, c: real)
    requires 0.0 < part <= c
    ensures 0.0 < part / c <= 1.0
    ensures c * (part / c) == part
  {
    var f := part / c;
    assert f * c == part;
    if f > 1.0 { MulLess(c, 1.0, f); }
    if f <= 0.0 { MulLessEq(c, f, 0.0); }
  }

  lemma FractionRange(lo: real, hi: real, x: real)
    requires lo < hi
    ensures 0.0 <= Fraction(lo, hi, x) <= 1.0
  {
    if lo < x < hi {
      QuotientRange(x - lo, hi - lo);
    }
  }

  lemma QuotientMonotone(a: real, b: real, w: real)
    requires 0.0 < w && a <= b
    ensures a / w <= b / w
  {
    var p, q := a / w, b / w;
    assert p * w == a && q * w == b;
    if q < p { MulLess(w, q, p); }
  }

  lemma FractionMonotone(lo: real, hi: real, x: real, y: real)
    requires lo < hi && x <= y
    ensures Fraction(lo, hi, x) <= Fraction(lo, hi, y)
  {
    FractionRange(lo, hi, x);
    FractionRange(lo, hi, y);
    if lo < x && y < hi {
      QuotientRange(x - lo, hi - lo);
      QuotientRange(y - lo, hi - lo);
      QuotientMonotone(x - lo, y - lo, hi - lo);
    }
  }

  lemma SharesRange(bs: Buckets, x: real)
    requires WellFormed(bs)
    ensures Between(Shares(bs, x), 0.0, 1.0)
  {
    forall i | 0 <= i < |bs|
      ensures 0.0 <= Share(bs, i, x) <= 1.0
    {
      if 0 < i < |bs| - 1 {
        FractionRange(bs[i - 1].upperBound.r, bs[i].upperBound.r, x);
      }
    }
  }

  lemma SharesMonotone(bs: Buckets, x: real, y: real)
    requires WellFormed(bs) && x <= y
    ensures forall i :: 0 <= i < |bs| ==> Shares(bs, x)[i] <= Shares(bs, y)[i]
  {
    forall i | 0 <= i < |bs|
      ensures Share(bs, i, x) <= Share(bs, i, y)
    {
      if 0 < i < |bs| - 1 {
        FractionMonotone(bs[i - 1].upperBound.r, bs[i].upperBound.r, x, y);
      }
    }
  }

  /** The cumulative count never decreases. */
  lemma CdfMonotone(bs: Buckets, x: real, y: real)
    requires WellFormed(bs) && x <= y
    ensures Cdf(bs, x) <= Cdf(bs, y)
  {
    SharesMonotone(bs, x, y);
    WeightedMonotone(bs, Shares(bs, x), Shares(bs, y), |bs|);
  }

  /** At or beyond a finite bound the buckets up to it count in full. */
  lemma SharesFull(bs: Buckets, k: nat, x: real)
    requires WellFormed(bs) && 0 < k < |bs| && bs[k - 1].upperBound.r <= x
    ensures Weighted(bs, Shares(bs, x), k) == Below(bs, k) as real
  {
    var w := Shares(bs, x);
    forall i | 0 <= i < k
      ensures w[i] == 1.0
    {
      assert bs[i].upperBound.r <= x;
      if i > 0 { assert bs[i - 1].upperBound.r < bs[i].upperBound.r; }
    }
    WeightedFull(bs, w, k);
  }

  /** Before a finite bound the buckets above it do not count at all. */
  lemma SharesNone(bs: Buckets, k: nat, x: real)
    requires WellFormed(bs) && 0 < k < |bs| && x < bs[k - 1].upperBound.r
    ensures Cdf(bs, x) == Weighted(bs, Shares(bs, x), k)
  {
    var w := Shares(bs, x);
    forall i | k <= i < |bs|
      ensures w[i] == 0.0
    {
      assert bs[k - 1].upperBound.r <= bs[i - 1].upperBound.r;
    }
    WeightedNone(bs, w, k, |bs|);
  }

  // ---------------------------------------------------------------- running counts

  lemma {:induction false} CountedIsBelow(bs: Buckets, k: nat)
    requires k <= |bs|
    ensures Counted(bs, k) == Below(bs, k) % U64
  {
    if k > 0 {
      CountedIsBelow(bs, k - 1);
      AddMod(Below(bs, k - 1), bs[k - 1].count);
    }
  }

  lemma {:induction false} BelowGrows(bs: Buckets, k: nat, m: nat)
    requires k <= m <= |bs|
    ensures Below(bs, k) <= Below(bs, m)
    decreases m
  {
    if k < m {
      BelowGrows(bs, k, m - 1);
    }
  }

  /** When the observations fit in 64 bits no running count wraps. */
  lemma CountedExact(bs: Buckets, k: nat)
    requires k <= |bs| && Total(bs) < U64
    ensures Counted(bs, k) == Below(bs, k)
  {
    CountedIsBelow(bs, k);
    BelowGrows(bs, k, |bs|);
  }

  // ---------------------------------------------------------------- the quantile is the least point

  lemma LeastInHighest(bs: Buckets, rank: real)
    requires WellFormed(bs) && Below(bs, |bs| - 1) as real < rank <= Total(bs) as real
    ensures IsLeast(bs, rank, bs[|bs| - 2].upperBound.r)
  {
    var x := bs[|bs| - 2].upperBound.r;
    SharesFull(bs, |bs| - 1, x);
    assert Shares(bs, x)[|bs| - 1] == 1.0;
    WeighRange(bs[|bs| - 1].count, 1.0);
    forall y | Reaches(bs, rank, y)
      ensures x <= y
    {
      if y < x {
        SharesRange(bs, y);
        SharesNone(bs, |bs| - 1, y);
        WeightedAtMostBelow(bs, Shares(bs, y), |bs| - 1);
      }
    }
  }

  lemma LeastInLowest(bs: Buckets, rank: real)
    requires WellFormed(bs) && rank <= Below(bs, 1) as real
    ensures IsLeast(bs, rank, bs[0].upperBound.r)
  {
    var x := bs[0].upperBound.r;
    SharesRange(bs, x);
    SharesFull(bs, 1, x);
    WeightedGrows(bs, Shares(bs, x), 1, |bs|);
  }

  /** Inside the interval, the fraction times the width is the distance from the lower end. */
  lemma FractionOf(lo: real, hi: real, x: real)
    requires lo < x <= hi
    ensures (hi - lo) * Fraction(lo, hi, x) == x - lo
  {
    if x < hi { QuotientRange(x - lo, hi - lo); }
  }

  lemma SameQuotient(w: real, a: real, b: real)
    requires 0.0 < w && w * a == w * b
    ensures a == b
  {
    if a < b { MulLess(w, a, b); }
    if b < a { MulLess(w, b, a); }
  }

  /** The point at fraction `f` of an interval of width `w`. */
  lemma PointAt(lo: real, hi: real, w: real, f: real, p: real)
    requires w == hi - lo && 0.0 < w && 0.0 < f <= 1.0 && p == w * f
    ensures 0.0 < p <= w && Fraction(lo, hi, lo + p) == f
  {
    hide Fraction;
    MulLess(w, 0.0, f);
    Product(w, f);
    FractionOf(lo, hi, lo + p);
    SameQuotient(w, f, Fraction(lo, hi, lo + p));
  }

  lemma FractionLow(lo: real, hi: real, x: real)
    requires x <= lo < hi
    ensures Fraction(lo, hi, x) == 0.0
  {
  }

  lemma BeforePoint(lo: real, hi: real, w: real, f: real, p: real, y: real)
    requires w == hi - lo && 0.0 < w && 0.0 < f <= 1.0 && p == w * f && y < lo + p
    ensures Fraction(lo, hi, y) < f
  {
    hide Fraction;
    Product(w, f);
    if y <= lo {
      FractionLow(lo, hi, y);
    } else {
      FractionOf(lo, hi, y);
      if f <= Fraction(lo, hi, y) { MulLessEq(w, f, Fraction(lo, hi, y)); }
    }
  }

  lemma CdfInside(bs: Buckets, idx: nat, x: real, f: real)
    requires WellFormed(bs) && 0 < idx < |bs| - 1
    requires bs[idx - 1].upperBound.r <= x && Share(bs, idx, x) == f
    ensures Below(bs, idx) as real + Weigh(bs[idx].count, f) <= Cdf(bs, x)
  {
    SharesFull(bs, idx, x);
    SharesRange(bs, x);
    WeightedGrows(bs, Shares(bs, x), idx + 1, |bs|);
  }

  lemma CdfBeforeInside(bs: Buckets, idx: nat, y: real, f: real)
    requires WellFormed(bs) && 0 < idx < |bs| - 1 && bs[idx].count != 0
    requires y < bs[idx].upperBound.r && Share(bs, idx, y) < f
    ensures Cdf(bs, y) < Below(bs, idx) as real + Weigh(bs[idx].count, f)
  {
    var w := Shares(bs, y);
    SharesRange(bs, y);
    SharesNone(bs, idx + 1, y);
    WeightedAtMostBelow(bs, w, idx);
    WeighMonotone(bs[idx].count, w[idx], f);
  }

  /** `p` is the distance from the lower end of bucket `idx` at which the missing observations
      are found. */
  lemma LeastInside(bs: Buckets, rank: real, idx: nat, f: real, p: real)
    requires WellFormed(bs) && 0 < idx < |bs| - 1 && bs[idx].count != 0
    requires 0.0 < f <= 1.0 && bs[idx].count as real * f == rank - Below(bs, idx) as real
    requires p == (bs[idx].upperBound.r - bs[idx - 1].upperBound.r) * f
    ensures IsLeast(bs, rank, bs[idx - 1].upperBound.r + p)
  {
    hide Fraction;
    var lo, hi := bs[idx - 1].upperBound.r, bs[idx].upperBound.r;
    var x := lo + p;
    PointAt(lo, hi, hi - lo, f, p);
    CdfInside(bs, idx, x, f);
    AllAtOnce(bs[idx].count, f);
    forall y | Reaches(bs, rank, y)
      ensures x <= y
    {
      if y < x {
        BeforePoint(lo, hi, hi - lo, f, p, y);
        CdfBeforeInside(bs, idx, y, f);
      }
    }
  }

  lemma PointInIs(bs: Buckets, rank: real, idx: nat)
    requires 0 < idx < |bs| && bs[idx].count != 0
    requires Counted(bs, idx) as real < rank <= Counted(bs, idx + 1) as real
    ensures PointIn(bs, rank, idx)
         == Interpolate(bs[idx - 1].upperBound, bs[idx].upperBound,
                        (rank - Counted(bs, idx) as real) / bs[idx].count as real)
  {
    hide Counted;
    ReachedBucketIsNotEmpty(bs, rank, idx);
  }

  /** The program's interpolation, as the fraction `f` of the bucket that it goes into and the
      distance `p` that this amounts to. */
  lemma PointInValue(bs: Buckets, rank: real, idx: nat) returns (f: real, p: real)
    requires WellFormed(bs) && 0 < idx < |bs| - 1
    requires Counted(bs, idx) as real < rank <= Counted(bs, idx + 1) as real
    ensures bs[idx].count != 0
    ensures 0.0 < f <= 1.0 && bs[idx].count as real * f == rank - Counted(bs, idx) as real
    ensures p == (bs[idx].upperBound.r - bs[idx - 1].upperBound.r) * f
    ensures PointIn(bs, rank, idx) == Num(bs[idx - 1].upperBound.r + p)
  {
    hide PointIn, Counted;
    ReachedBucketIsNotEmpty(bs, rank, idx);
    QuotientRange(rank - Counted(bs, idx) as real, bs[idx].count as real);
    f := (rank - Counted(bs, idx) as real) / bs[idx].count as real;
    PointInIs(bs, rank, idx);
    p := (bs[idx].upperBound.r - bs[idx - 1].upperBound.r) * f;
  }

  /** For any rank up to the number of observations, the program's choice of bucket and its
      interpolation give the least point where the cumulative count reaches the rank. */
  lemma RankIsLeast(bs: Buckets, rank: real)
    requires WellFormed(bs) && Total(bs) < U64 && 0.0 <= rank <= Total(bs) as real
    requires rank <= Counted(bs, |bs|) as real
    ensures AtRank(bs, rank).Num?
    ensures IsLeast(bs, rank, AtRank(bs, rank).r)
  {
    hide PointIn, IsLeast;
    var idx := FirstReaching(bs, rank, 0);
    CountedExact(bs, idx + 1);
    CountedExact(bs, idx);
    if idx == |bs| - 1 {
      LeastInHighest(bs, rank);
    } else if idx == 0 {
      LeastInLowest(bs, rank);
    } else {
      var f, p := PointInValue(bs, rank, idx);
      LeastInside(bs, rank, idx, f, p);
    }
  }

  /** Among well-formed buckets whose observations fit in 64 bits, the program's answer for q is
      the least point where the interpolated cumulative count reaches q times the observations. */
  lemma QuantileIsLeast(q: real, bs: Buckets)
    requires 0.0 <= q <= 1.0 && WellFormed(bs) && 0 < Total(bs) < U64
    ensures QuantileSorted(q, bs).Num?
    ensures IsLeast(bs, Rank(q, Total(bs)), QuantileSorted(q, bs).r)
  {
    hide AtRank, Rank, IsLeast;
    CountedExact(bs, |bs|);
    RankIsLeast(bs, Rank(q, Total(bs)));
  }

  // ---------------------------------------------------------------- consequences

  lemma RankIsWeigh(q: real, n: nat)
    requires 0.0 <= q <= 1.0
    ensures Rank(q, n) == Weigh(n, q)
  {
    AllAtOnce(n, q);
  }

  lemma RankMonotone(p: real, q: real, n: nat)
    requires 0.0 <= p <= q <= 1.0
    ensures Rank(p, n) <= Rank(q, n)
  {
    RankIsWeigh(p, n);
    RankIsWeigh(q, n);
    hide Rank;
    WeighMonotone(n, p, q);
  }

  /** A higher rank is reached no earlier, also when running counts wrap around. */
  lemma {:induction false} ReachedLater(bs: Buckets, r1: real, r2: real, i: nat)
    requires i < |bs| && r1 <= r2 <= Counted(bs, |bs|) as real
    ensures FirstReaching(bs, r1, i) <= FirstReaching(bs, r2, i)
    decreases |bs| - i
  {
    hide Counted;
    if Counted(bs, i + 1) as real < r1 && i + 1 < |bs| {
      ReachedLater(bs, r1, r2, i + 1);
    }
  }

  /** The answer for a rank lies in the bucket that the rank falls into. */
  lemma AtRankInBucket(bs: Buckets, rank: real)
    requires WellFormed(bs) && 0.0 <= rank <= Counted(bs, |bs|) as real
    ensures AtRank(bs, rank).Num?
    ensures var idx := FirstReaching(bs, rank, 0);
            && (idx < |bs| - 1 ==> AtRank(bs, rank).r <= bs[idx].upperBound.r)
            && (idx > 0 ==> bs[idx - 1].upperBound.r <= AtRank(bs, rank).r)
            && (idx == 0 ==> AtRank(bs, rank).r == bs[0].upperBound.r)
            && (idx == |bs| - 1 ==> AtRank(bs, rank).r == bs[|bs| - 2].upperBound.r)
  {
    hide PointIn, Fraction, FirstReaching, Counted;
    var idx := FirstReaching(bs, rank, 0);
    if 0 < idx < |bs| - 1 {
      var f, p := PointInValue(bs, rank, idx);
      var lo, hi := bs[idx - 1].upperBound.r, bs[idx].upperBound.r;
      PointAt(lo, hi, hi - lo, f, p);
    }
  }

  /** Within one bucket a higher rank leads further. */
  lemma PointInMonotone(bs: Buckets, r1: real, r2: real, idx: nat)
    requires WellFormed(bs) && 0 < idx < |bs| - 1
    requires (Counted(bs, idx) as real) < r1 <= r2 <= Counted(bs, idx + 1) as real
    ensures PointIn(bs, r1, idx).Num? && PointIn(bs, r2, idx).Num?
    ensures PointIn(bs, r1, idx).r <= PointIn(bs, r2, idx).r
  {
    hide PointIn, Counted;
    var f1, p1 := PointInValue(bs, r1, idx);
    var f2, p2 := PointInValue(bs, r2, idx);
    Smaller(bs[idx].count as real, f1, f2);
    assert bs[idx - 1].upperBound.r < bs[idx].upperBound.r;
    MulLessEq(bs[idx].upperBound.r - bs[idx - 1].upperBound.r, f1, f2);
  }

  lemma AtRankMonotone(bs: Buckets, r1: real, r2: real)
    requires WellFormed(bs) && 0.0 <= r1 <= r2 <= Counted(bs, |bs|) as real
    ensures AtRank(bs, r1).Num? && AtRank(bs, r2).Num?
    ensures AtRank(bs, r1).r <= AtRank(bs, r2).r
  {
    hide PointIn, FirstReaching, Counted;
    var i, j := FirstReaching(bs, r1, 0), FirstReaching(bs, r2, 0);
    ReachedLater(bs, r1, r2, 0);
    AtRankInBucket(bs, r1);
    AtRankInBucket(bs, r2);
    if 0 < i == j < |bs| - 1 {
      PointInMonotone(bs, r1, r2, i);
    }
  }

  /** A higher quantile is never smaller, also when the number of observations overflows 64 bits. */
  lemma QuantileMonotone(p: real, q: real, bs: Buckets)
    requires 0.0 <= p <= q <= 1.0 && WellFormed(bs) && Total(bs) % U64 != 0
    ensures QuantileSorted(p, bs).Num? && QuantileSorted(q, bs).Num?
    ensures QuantileSorted(p, bs).r <= QuantileSorted(q, bs).r
  {
    CountedIsBelow(bs, |bs|);
    RankMonotone(p, q, Counted(bs, |bs|));
    hide AtRank, Rank, Counted;
    AtRankMonotone(bs, Rank(p, Counted(bs, |bs|)), Rank(q, Counted(bs, |bs|)));
  }

  lemma AtRankWithinBounds(bs: Buckets, rank: real)
    requires WellFormed(bs) && 0.0 <= rank <= Counted(bs, |bs|) as real
    ensures AtRank(bs, rank).Num?
    ensures bs[0].upperBound.r <= AtRank(bs, rank).r <= bs[|bs| - 2].upperBound.r
  {
    hide AtRank, FirstReaching, Counted;
    AtRankInBucket(bs, rank);
  }

  /** Even when the number of observations wraps around 64 bits, the answer for well-formed buckets
      is NaN exactly when the wrapped number is zero, and otherwise lies between the first and the
      last finite bound. */
  lemma QuantileWithinBounds(q: real, bs: Buckets)
    requires 0.0 <= q <= 1.0 && WellFormed(bs)
    ensures QuantileSorted(q, bs) == NaN <==> Total(bs) % U64 == 0
    ensures QuantileSorted(q, bs) != NaN ==>
              && QuantileSorted(q, bs).Num?
              && bs[0].upperBound.r <= QuantileSorted(q, bs).r <= bs[|bs| - 2].upperBound.r
  {
    hide AtRank, Rank;
    CountedIsBelow(bs, |bs|);
    if Counted(bs, |bs|) != 0 {
      AtRankWithinBounds(bs, Rank(q, Counted(bs, |bs|)));
    }
  }

  lemma DistinctCountsOnce(a: Buckets, k: nat)
    requires k < |a| && DistinctBounds(a)
    ensures multiset(a)[a[k]] == 1
  {
    assert a == a[..k] + [a[k]] + a[k + 1..];
    assert a[k] !in a[..k] && a[k] !in a[k + 1..];
  }

  lemma {:induction false} DistinctPermuted(a: Buckets, b: Buckets)
    requires multiset(a) == multiset(b) && DistinctBounds(a)
    ensures DistinctBounds(b)
  {
    forall i, j | 0 <= i < j < |b|
      ensures b[i].upperBound != b[j].upperBound
    {
      assert b[i] in multiset(a) && b[j] in multiset(a);
      var k :| 0 <= k < |a| && a[k] == b[i];
      var l :| 0 <= l < |a| && a[l] == b[j];
      if k == l {
        RepeatedTwice(b, i, j);
        DistinctCountsOnce(a, k);
      }
    }
  }

  lemma {:induction false} BelowOfPrefix(a: Buckets, n: nat, k: nat)
    requires k <= n <= |a|
    ensures Below(a[..n], k) == Below(a, k)
    decreases k
  {
    if k > 0 { BelowOfPrefix(a, n, k - 1); }
  }

  lemma TotalUnfolds(a: Buckets)
    requires a != []
    ensures Total(a) == Total(a[..|a| - 1]) + a[|a| - 1].count
  {
    BelowOfPrefix(a, |a| - 1, |a| - 1);
  }

  lemma {:induction false} TotalWithout(a: Buckets, i: nat)
    requires i < |a|
    ensures Total(a) == Total(a[..i] + a[i + 1..]) + a[i].count
    decreases |a|
  {
    var n := |a| - 1;
    var rest := a[..i] + a[i + 1..];
    TotalUnfolds(a);
    if i == n {
      assert rest == a[..n];
    } else {
      TotalWithout(a[..n], i);
      TotalUnfolds(rest);
      assert a[..n][..i] + a[..n][i + 1..] == rest[..n - 1] && rest[n - 1] == a[n];
    }
  }

  lemma MultisetWithout(a: Buckets, i: nat)
    requires i < |a|
    ensures multiset(a[..i] + a[i + 1..]) == multiset(a) - multiset{a[i]}
  {
    assert a == a[..i] + [a[i]] + a[i + 1..];
  }

  lemma {:induction false} TotalPermuted(a: Buckets, b: Buckets)
    requires multiset(a) == multiset(b)
    ensures Total(a) == Total(b)
    decreases |a|
  {
    assert |a| == |multiset(a)| == |multiset(b)| == |b|;
    if a != [] {
      var n := |a| - 1;
      assert a[n] in multiset(b);
      var i :| 0 <= i < |b| && b[i] == a[n];
      TotalUnfolds(a);
      TotalWithout(b, i);
      MultisetWithout(a, n);
      MultisetWithout(b, i);
      assert a[..n] + a[n + 1..] == a[..n];
      TotalPermuted(a[..n], b[..i] + b[i + 1..]);
    }
  }

  /** The special cases: what is not a quantile, too few buckets, no bucket up to +Inf, and no
      observations in 64-bit arithmetic. */
  lemma SpecialCases(sort: Sorter, q: Float, bs: Buckets)
    ensures q == NaN ==> DeltaQuantile(sort, q, bs) == NaN
    ensures q == NegInf || (q.Num? && q.r < 0.0) ==> DeltaQuantile(sort, q, bs) == NegInf
    ensures q == PosInf || (q.Num? && q.r > 1.0) ==> DeltaQuantile(sort, q, bs) == PosInf
    ensures q.Num? && 0.0 <= q.r <= 1.0
            && (|bs| < 2 || (forall b :: b in bs ==> b.upperBound.Finite?) || Total(bs) % U64 == 0) ==>
              DeltaQuantile(sort, q, bs) == NaN
  {
    hide AtRank, Rank, Sorted;
    var s := sort(bs);
    assert |s| == |multiset(s)| == |multiset(bs)| == |bs|;
    TotalPermuted(s, bs);
    CountedIsBelow(s, |s|);
    if s != [] {
      assert s[|s| - 1] in multiset(bs);
    }
  }

  /** With distinct bounds neither the sort nor the order in which the buckets are listed matters. */
  lemma QuantileIgnoresOrder(sort: Sorter, other: Sorter, q: Float, a: Buckets, b: Buckets)
    requires multiset(a) == multiset(b) && DistinctBounds(a)
    ensures DeltaQuantile(sort, q, a) == DeltaQuantile(other, q, b)
  {
    DistinctPermuted(a, sort(a));
    SortedUnique(sort(a), other(b));
  }

  /** Two buckets with the same bound between a lowest and a highest one without observations. */
  function Tied(first: uint64, second: uint64): Buckets {
    [ExplicitBucket(Finite(0.0), 0), ExplicitBucket(Finite(12.0), first),
     ExplicitBucket(Finite(12.0), second), ExplicitBucket(Infinity, 0)]
  }

  lemma RunningCounts(first: uint64, second: uint64)
    requires first + second < U64
    ensures var s := Tied(first, second);
            && Counted(s, 1) == 0 && Counted(s, 2) == first
            && Counted(s, 3) == first + second && Counted(s, 4) == first + second
  {
    var s := Tied(first, second);
    assert Counted(s, 0) == 0;
    assert Counted(s, 1) == Add64(Counted(s, 0), s[0].count);
    assert Counted(s, 2) == Add64(Counted(s, 1), s[1].count);
    assert Counted(s, 3) == Add64(Counted(s, 2), s[2].count);
    assert Counted(s, 4) == Add64(Counted(s, 3), s[3].count);
  }

  /** An eighth of four observations is half an observation of the first of the two buckets. */
  lemma SecondBucket(first: uint64, second: uint64, r: real)
    requires 0 < first < 4 && first + second == 4 && r * first as real == 6.0
    ensures Sorted(Tied(first, second)) && QuantileSorted(0.125, Tied(first, second)) == Num(r)
  {
    var s := Tied(first, second);
    RunningCounts(first, second);
    assert Rank(0.125, 4) == 0.5;
    hide Counted, Rank;
    assert FirstReaching(s, 0.5, 0) == FirstReaching(s, 0.5, 1) == 1;
    var c := first as real;
    assert 12.0 * (0.5 / c) == r by {
      assert (0.5 / c) * c == 0.5;
      SameQuotient(c, r, 12.0 * (0.5 / c));
    }
  }

  lemma TiedPermuted(first: uint64, second: uint64)
    ensures multiset(Tied(first, second)) == multiset(Tied(second, first))
  {
  }

  lemma StableQuantile(q: real, bs: Buckets)
    requires 0.0 <= q <= 1.0 && Sorted(bs)
    ensures DeltaQuantile(SortBuckets, Num(q), bs) == QuantileSorted(q, bs)
  {
    hide QuantileSorted;
    StableOnSorted(bs);
  }

  /** With equal bounds the order may matter: the stable insertion sort, which the library uses for
      so few buckets, leaves both listings of the same buckets as they are, and the answers differ. */
  lemma EqualBoundsShowOrder()
    ensures multiset(Tied(1, 3)) == multiset(Tied(3, 1))
    ensures DeltaQuantile(SortBuckets, Num(0.125), Tied(1, 3)) == Num(6.0)
    ensures DeltaQuantile(SortBuckets, Num(0.125), Tied(3, 1)) == Num(2.0)
  {
    hide Tied, DeltaQuantile;
    TiedPermuted(1, 3);
    SecondBucket(1, 3, 6.0);
    SecondBucket(3, 1, 2.0);
    StableQuantile(0.125, Tied(1, 3));
    StableQuantile(0.125, Tied(3, 1));
  }

  // ---------------------------------------------------------------- merging and scaling

  predicate SameBounds(a: Buckets, b: Buckets) {
    |a| == |b| && forall i :: 0 <= i < |a| ==> a[i].upperBound == b[i].upperBound
  }

  lemma SameShares(a: Buckets, b: Buckets, x: real)
    requires WellFormed(a) && SameBounds(a, b)
    ensures WellFormed(b) && Shares(a, x) == Shares(b, x)
  {
    forall i | 0 <= i < |a|
      ensures WellFormed(b) && Share(a, i, x) == Share(b, i, x)
    {
    }
  }

  /** `c` has the bounds of `a` and `b` and, bucket by bucket, the sum of their counts. */
  predicate IsSum(a: Buckets, b: Buckets, c: Buckets) {
    && SameBounds(a, b) && SameBounds(a, c)
    && forall i :: 0 <= i < |a| ==> c[i].count == a[i].count + b[i].count
  }

  lemma {:induction false} WeightedAdds(a: Buckets, b: Buckets, c: Buckets, w: seq<real>, k: nat)
    requires IsSum(a, b, c) && k <= |a| == |w|
    ensures Weighted(c, w, k) == Weighted(a, w, k) + Weighted(b, w, k)
    ensures Below(c, k) == Below(a, k) + Below(b, k)
  {
    if k > 0 {
      WeightedAdds(a, b, c, w, k - 1);
      WeighAdds(a[k - 1].count, b[k - 1].count, w[k - 1]);
    }
  }

  lemma Distribute(a: real, b: real, s: real)
    ensures (a + b) * s == a * s + b * s
  {
  }

  lemma CdfAdds(a: Buckets, b: Buckets, c: Buckets, x: real)
    requires WellFormed(a) && IsSum(a, b, c)
    ensures WellFormed(b) && WellFormed(c)
    ensures Cdf(c, x) == Cdf(a, x) + Cdf(b, x)
    ensures Total(c) == Total(a) + Total(b)
  {
    SameShares(a, b, x);
    SameShares(a, c, x);
    WeightedAdds(a, b, c, Shares(a, x), |a|);
  }

  /** The least points of the parts bound the least point of the sum. */
  lemma LeastOfSum(a: Buckets, b: Buckets, c: Buckets, ra: real, rb: real, xa: real, xb: real, xc: real)
    requires WellFormed(a) && WellFormed(b) && WellFormed(c) && IsSum(a, b, c)
    requires IsLeast(a, ra, xa) && IsLeast(b, rb, xb) && IsLeast(c, ra + rb, xc)
    ensures Min(xa, xb) <= xc <= Max(xa, xb)
  {
    hide Cdf;
    var hi := Max(xa, xb);
    CdfMonotone(a, xa, hi);
    CdfMonotone(b, xb, hi);
    CdfAdds(a, b, c, hi);
    assert Reaches(c, ra + rb, hi);
    CdfAdds(a, b, c, xc);
    if ra <= Cdf(a, xc) {
      assert Reaches(a, ra, xc);
    } else {
      assert Reaches(b, rb, xc);
    }
  }

  lemma RankAdds(q: real, m: nat, n: nat)
    requires 0.0 <= q <= 1.0
    ensures Rank(q, m + n) == Rank(q, m) + Rank(q, n)
  {
    RankIsWeigh(q, m);
    RankIsWeigh(q, n);
    RankIsWeigh(q, m + n);
    hide Rank;
    WeighAdds(m, n, q);
  }

  /** Merging is percentile-safe: every quantile of the merged buckets lies between the quantiles
      of the two parts. */
  lemma MergedQuantileBetween(q: real, a: Buckets, b: Buckets, c: Buckets)
    requires 0.0 <= q <= 1.0 && WellFormed(a) && WellFormed(b) && WellFormed(c)
    requires IsSum(a, b, c) && 0 < Total(a) && 0 < Total(b) && Total(c) < U64
    ensures QuantileSorted(q, a).Num? && QuantileSorted(q, b).Num? && QuantileSorted(q, c).Num?
    ensures Min(QuantileSorted(q, a).r, QuantileSorted(q, b).r)
         <= QuantileSorted(q, c).r
         <= Max(QuantileSorted(q, a).r, QuantileSorted(q, b).r)
  {
    hide QuantileSorted, Rank, IsLeast;
    CdfAdds(a, b, c, 0.0);
    QuantileIsLeast(q, a);
    QuantileIsLeast(q, b);
    QuantileIsLeast(q, c);
    RankAdds(q, Total(a), Total(b));
    LeastOfSum(a, b, c, Rank(q, Total(a)), Rank(q, Total(b)),
               QuantileSorted(q, a).r, QuantileSorted(q, b).r, QuantileSorted(q, c).r);
  }

  /** `c` is `a` with every count multiplied by `m`. */
  predicate IsMultiple(a: Buckets, m: nat, c: Buckets) {
    SameBounds(a, c) && forall i :: 0 <= i < |a| ==> c[i].count == m * a[i].count
  }

  function Times(m: nat, s: real): real {
    m as real * s
  }

  lemma TimesSum(m: nat, s: real, t: real)
    ensures Times(m, s + t) == Times(m, s) + Times(m, t)
  {
  }

  lemma TimesSumNat(m: nat, i: nat, j: nat)
    ensures m * (i + j) == m * i + m * j
  {
  }

  lemma {:induction false} WeighScales(m: nat, n: nat, s: real)
    requires m * n >= 0
    ensures Weigh(m * n, s) == Times(m, Weigh(n, s))
  {
    if n > 0 {
      TimesSumNat(m, n - 1, 1);
      WeighScales(m, n - 1, s);
      WeighAdds(m * (n - 1), m, s);
      AllAtOnce(m, s);
      TimesSum(m, Weigh(n - 1, s), s);
    }
  }

  lemma {:induction false} WeightedScales(a: Buckets, m: nat, c: Buckets, w: seq<real>, k: nat)
    requires IsMultiple(a, m, c) && k <= |a| == |w|
    ensures Weighted(c, w, k) == Times(m, Weighted(a, w, k))
  {
    if k > 0 {
      hide Times;
      WeightedScales(a, m, c, w, k - 1);
      WeighScales(m, a[k - 1].count, w[k - 1]);
      TimesSum(m, Weighted(a, w, k - 1), Weigh(a[k - 1].count, w[k - 1]));
    } else {
      assert Times(m, 0.0) == 0.0;
    }
  }

  lemma {:induction false} BelowScales(a: Buckets, m: nat, c: Buckets, k: nat)
    requires IsMultiple(a, m, c) && k <= |a|
    ensures Below(c, k) == m * Below(a, k)
  {
    if k > 0 {
      BelowScales(a, m, c, k - 1);
      TimesSumNat(m, Below(a, k - 1), a[k - 1].count);
    }
  }

  lemma CdfScales(a: Buckets, m: nat, c: Buckets, x: real)
    requires WellFormed(a) && WellFormed(c) && IsMultiple(a, m, c)
    ensures Cdf(c, x) == Times(m, Cdf(a, x))
  {
    hide Weighted, Times, Share;
    SameShares(a, c, x);
    WeightedScales(a, m, c, Shares(a, x), |a|);
  }

  lemma TimesCompare(m: nat, s: real, t: real)
    requires m > 0
    ensures Times(m, s) <= Times(m, t) <==> s <= t
  {
    if s <= t {
      MulLessEq(m as real, s, t);
    } else {
      MulLess(m as real, t, s);
    }
  }

  /** Scaling counts and rank alike leaves the points that reach the rank the same. */
  lemma ReachesScales(a: Buckets, m: nat, c: Buckets, rank: real, x: real)
    requires WellFormed(a) && WellFormed(c) && IsMultiple(a, m, c) && m > 0
    ensures Reaches(c, Times(m, rank), x) <==> Reaches(a, rank, x)
  {
    CdfScales(a, m, c, x);
    hide Cdf, Times;
    TimesCompare(m, rank, Cdf(a, x));
  }

  lemma RankScales(q: real, m: nat, n: nat)
    requires 0.0 <= q <= 1.0
    ensures m * n >= 0 && Rank(q, m * n) == Times(m, Rank(q, n))
  {
    assert m * n >= 0;
    RankIsWeigh(q, n);
    RankIsWeigh(q, m * n);
    hide Rank, Times;
    WeighScales(m, n, q);
  }

  /** Multiplying all counts by the same factor changes no quantile. */
  lemma QuantileIgnoresScale(q: real, a: Buckets, m: nat, c: Buckets)
    requires 0.0 <= q <= 1.0 && WellFormed(a) && WellFormed(c) && IsMultiple(a, m, c)
    requires m > 0 && 0 < Total(a) && 0 < Total(c) < U64 && Total(a) < U64
    ensures QuantileSorted(q, c) == QuantileSorted(q, a)
  {
    hide QuantileSorted, Rank, Reaches, Times;
    BelowScales(a, m, c, |a|);
    RankScales(q, m, Total(a));
    QuantileIsLeast(q, a);
    QuantileIsLeast(q, c);
    var rank := Rank(q, Total(a));
    var xa, xc := QuantileSorted(q, a).r, QuantileSorted(q, c).r;
    ReachesScales(a, m, c, rank, xa);
    ReachesScales(a, m, c, rank, xc);
    assert Reaches(a, rank, xc) && Reaches(c, Times(m, rank), xa);
  }
}
