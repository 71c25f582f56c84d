/**
  What the answers of a store are, from the recorded points at their positions: which points make up a
  group, and what each aggregation type reports for them.
*/
module Answers {
  import opened Basics
  import opened Aggregation
  import opened Histogram
  import opened Slots
  import opened Recording
  import Quantile

  // ---------------------------------------------------------------- which points make up a group

  /** The point counts for the config and the group. */
  ghost predicate CountsFor(c: Config, g: string, r: Recorded) {
    IsWanted(c, r.name, r.attrs, r.resAttrs) && IsGroup(c, r.attrs, r.resAttrs, g)
  }

  /** At `k` there is a number point for the config and the group that no reset follows. */
  ghost predicate HasNumber(c: Config, g: string, ops: seq<Op>, k: nat) {
    && k < |ops| && ops[k].Record? && ops[k].point.sample.NumberSample? && CountsFor(c, g, ops[k].point)
    && forall j :: k < j < |ops| ==> ops[j].Record?
  }

  /** At `k` there is a histogram point for the config and the group. */
  ghost predicate HasHist(c: Config, g: string, ops: seq<Op>, k: nat) {
    k < |ops| && ops[k].Record? && ops[k].point.sample.HistSample? && CountsFor(c, g, ops[k].point)
  }

  ghost predicate InOrder(at: seq<nat>) {
    forall i, j :: 0 <= i < j < |at| ==> at[i] < at[j]
  }

  /** `ps` are all those number points, at the positions `at`. */
  ghost predicate AreNumbers(c: Config, g: string, ops: seq<Op>, at: seq<nat>, ps: seq<NumberPoint>) {
    && |at| == |ps| && InOrder(at)
    && (forall i :: 0 <= i < |at| ==> HasNumber(c, g, ops, at[i]) && ps[i] == ops[at[i]].point.sample.number)
    && (forall k :: HasNumber(c, g, ops, k) ==> k in at)
  }

  /** `hs` are all those histogram points, at the positions `at`. */
  ghost predicate AreHists(c: Config, g: string, ops: seq<Op>, at: seq<nat>, hs: seq<Hist>) {
    && |at| == |hs| && InOrder(at)
    && (forall i :: 0 <= i < |at| ==> HasHist(c, g, ops, at[i]) && hs[i] == ops[at[i]].point.sample.hist)
    && (forall k :: HasHist(c, g, ops, k) ==> k in at)
  }

  lemma CountsExactly(c: Config, g: string, r: Recorded)
    ensures CountsFor(c, g, r) <==> IsFor(c, r) && GroupOf(c, r) == g
  {
    hide Matches, IsWanted, IsGroup, GetValueFromMaps;
    MatchesByPosition(c, r.name, r.attrs, r.resAttrs);
    GroupByPosition(c, r.attrs, r.resAttrs, g);
  }

  lemma NumbersExtend(c: Config, g: string, init: seq<Op>, op: Op, at: seq<nat>, ps: seq<NumberPoint>)
    requires AreNumbers(c, g, init, at, ps)
    ensures var ops, n := init + [op], |init|;
            if op.Reset? then AreNumbers(c, g, ops, [], [])
            else if op.point.sample.NumberSample? && CountsFor(c, g, op.point)
            then AreNumbers(c, g, ops, at + [n], ps + [op.point.sample.number])
            else AreNumbers(c, g, ops, at, ps)
  {
    hide CountsFor;
    var ops, n := init + [op], |init|;
    forall k: nat
      ensures HasNumber(c, g, ops, k) <==>
                op.Record? && (HasNumber(c, g, init, k) || (k == n && op.point.sample.NumberSample?
                                                            && CountsFor(c, g, op.point)))
    {
      assert forall j :: 0 <= j < n ==> ops[j] == init[j];
      assert ops[n] == op;
    }
    assert forall i :: 0 <= i < |at| ==> at[i] < n && ops[at[i]] == init[at[i]];
    hide HasNumber;
  }

  lemma NothingThere(c: Config, g: string)
    ensures AreNumbers(c, g, [], [], []) && AreHists(c, g, [], [], [])
  {
  }

  /** The naive recomputation takes the number points since the last reset, in order. */
  lemma {:induction false} NumbersAt(c: Config, g: string, ops: seq<Op>) returns (at: seq<nat>)
    ensures AreNumbers(c, g, ops, at, NumbersFor(c, g, ops))
  {
    hide AreNumbers, CountsFor, IsFor, GroupOf;
    if ops == [] {
      NothingThere(c, g);
      at := [];
    } else {
      var init, op := ops[..|ops| - 1], ops[|ops| - 1];
      assert ops == init + [op];
      at := NumbersAt(c, g, init);
      NumbersExtend(c, g, init, op, at, NumbersFor(c, g, init));
      if op.Reset? {
        at := [];
      } else {
        CountsExactly(c, g, op.point);
        if op.point.sample.NumberSample? && CountsFor(c, g, op.point) { at := at + [|init|]; }
      }
    }
  }

  lemma HistsExtend(c: Config, g: string, init: seq<Op>, op: Op, at: seq<nat>, hs: seq<Hist>)
    requires AreHists(c, g, init, at, hs)
    ensures var ops, n := init + [op], |init|;
            if op.Record? && op.point.sample.HistSample? && CountsFor(c, g, op.point)
            then AreHists(c, g, ops, at + [n], hs + [op.point.sample.hist])
            else AreHists(c, g, ops, at, hs)
  {
    hide CountsFor;
    var ops, n := init + [op], |init|;
    forall k: nat
      ensures HasHist(c, g, ops, k) <==>
                HasHist(c, g, init, k)
                || (k == n && op.Record? && op.point.sample.HistSample? && CountsFor(c, g, op.point))
    {
      assert k < n ==> ops[k] == init[k];
      assert ops[n] == op;
    }
    assert forall i :: 0 <= i < |at| ==> at[i] < n && ops[at[i]] == init[at[i]];
    hide HasHist;
  }

  /** And all histogram points, in order. */
  lemma {:induction false} HistsAt(c: Config, g: string, ops: seq<Op>) returns (at: seq<nat>)
    ensures AreHists(c, g, ops, at, HistsFor(c, g, ops))
  {
    hide AreHists, CountsFor, IsFor, GroupOf;
    if ops == [] {
      NothingThere(c, g);
      at := [];
    } else {
      var init, op := ops[..|ops| - 1], ops[|ops| - 1];
      assert ops == init + [op];
      at := HistsAt(c, g, init);
      HistsExtend(c, g, init, op, at, HistsFor(c, g, init));
      if op.Record? {
        CountsExactly(c, g, op.point);
        if op.point.sample.HistSample? && CountsFor(c, g, op.point) { at := at + [|init|]; }
      }
    }
  }

  // ---------------------------------------------------------------- what is reported for number points

  /** The value of a point: an integer or a float, and 0 if it is unset. */
  predicate HasValue(p: NumberPoint, v: real) {
    match p.value
    case Unset => v == 0.0
    case IntValue(i) => v == i as real
    case DoubleValue(r) => v == r
  }

  lemma ValueOf(p: NumberPoint)
    ensures HasValue(p, DoubleOf(p)) && forall v :: HasValue(p, v) ==> v == DoubleOf(p)
  {
  }

  /** `sums` are the partial sums of the values. */
  predicate ArePartialSums(ps: seq<NumberPoint>, sums: seq<real>) {
    && |sums| == |ps| + 1 && sums[0] == 0.0
    && forall i :: 0 <= i < |ps| ==> HasValue(ps[i], sums[i + 1] - sums[i])
  }

  ghost predicate IsTotal(ps: seq<NumberPoint>, total: real) {
    exists sums :: ArePartialSums(ps, sums) && sums[|ps|] == total
  }

  /** The maximum of the values and 0. */
  ghost predicate IsMaximum(ps: seq<NumberPoint>, v: real) {
    && v >= 0.0
    && (v == 0.0 || exists i :: 0 <= i < |ps| && HasValue(ps[i], v))
    && forall i, w :: 0 <= i < |ps| && HasValue(ps[i], w) ==> w <= v
  }

  /** Points with the value 0 take no part in the span of a rate. */
  predicate Starts(p: NumberPoint) {
    !HasValue(p, 0.0) && (p.start != 0 || p.timestamp != 0)
  }

  /** The start time of the first point that has one, or its time if it has no start time; 0 if no
      point has either. */
  ghost predicate IsStart(ps: seq<NumberPoint>, start: int) {
    || (start == 0 && forall i :: 0 <= i < |ps| ==> !Starts(ps[i]))
    || (exists k :: 0 <= k < |ps| && Starts(ps[k]) && (forall j :: 0 <= j < k ==> !Starts(ps[j]))
                    && start == if ps[k].start == 0 then ps[k].timestamp else ps[k].start)
  }

  /** The latest time. */
  ghost predicate IsEnd(ps: seq<NumberPoint>, end: int) {
    && end >= 0
    && (end == 0 || exists i :: 0 <= i < |ps| && !HasValue(ps[i], 0.0) && ps[i].timestamp == end)
    && forall i :: 0 <= i < |ps| && !HasValue(ps[i], 0.0) ==> ps[i].timestamp <= end
  }

  /** `d` is the span as a signed 64-bit number. */
  predicate IsDuration(span: int, d: int) {
    -0x8000_0000_0000_0000 <= d < 0x8000_0000_0000_0000 && (d - span) % 0x1_0000_0000_0000_0000 == 0
  }

  /** The total per second over a number of nanoseconds, and 0 if that is not positive. */
  predicate IsPerSecond(total: real, nanos: int, v: real) {
    if nanos <= 0 then v == 0.0 else v * (nanos as real / 1000000000.0) == total
  }

  ghost predicate IsRate(ps: seq<NumberPoint>, v: real) {
    exists total, start, end, d ::
      IsTotal(ps, total) && IsStart(ps, start) && IsEnd(ps, end) && IsDuration(end - start, d)
      && IsPerSecond(total, d, v)
  }

  ghost predicate IsNumberAnswer(typ: AggregationType, ps: seq<NumberPoint>, v: real)
    requires ps != []
  {
    match typ
    case Last => HasValue(ps[|ps| - 1], v)
    case Max => IsMaximum(ps, v)
    case Sum => IsTotal(ps, v)
    case Rate => IsRate(ps, v)
    case _ => v == 0.0
  }

  lemma {:induction false} TotalAt(ps: seq<NumberPoint>) returns (sums: seq<real>)
    ensures ArePartialSums(ps, sums) && sums[|ps|] == TotalOf(ps)
  {
    hide HasValue, DoubleOf;
    if ps == [] {
      sums := [0.0];
    } else {
      var n := |ps| - 1;
      var before := TotalAt(ps[..n]);
      ValueOf(ps[n]);
      NaiveAppends(ps[..n], ps[n]);
      assert ps == ps[..n] + [ps[n]];
      sums := before + [TotalOf(ps)];
    }
  }

  lemma TotalIs(ps: seq<NumberPoint>)
    ensures IsTotal(ps, TotalOf(ps))
  {
    hide ArePartialSums;
    var sums := TotalAt(ps);
  }

  lemma MaximumIs(ps: seq<NumberPoint>)
    ensures IsMaximum(ps, HighestOf(ps))
  {
    hide HasValue, DoubleOf, HighestOf;
    HighestIsMaximum(ps);
    forall i | 0 <= i < |ps|
      ensures HasValue(ps[i], DoubleOf(ps[i])) && forall v :: HasValue(ps[i], v) ==> v == DoubleOf(ps[i])
    {
      ValueOf(ps[i]);
    }
  }

  lemma StartsAre(p: NumberPoint)
    ensures StartsRate(p) <==> Starts(p)
    ensures StartOf(p) == if p.start == 0 then p.timestamp else p.start
  {
  }

  lemma StartIs(ps: seq<NumberPoint>)
    ensures IsStart(ps, FirstStart(ps))
  {
    hide StartsRate, Starts, StartOf, FirstStart;
    FirstStartIsFirst(ps);
    forall i | 0 <= i < |ps|
      ensures StartsRate(ps[i]) <==> Starts(ps[i])
      ensures StartOf(ps[i]) == if ps[i].start == 0 then ps[i].timestamp else ps[i].start
    {
      StartsAre(ps[i]);
    }
  }

  lemma ZeroValue(p: NumberPoint)
    ensures HasValue(p, 0.0) <==> DoubleOf(p) == 0.0
  {
  }

  lemma {:induction false} EndIs(ps: seq<NumberPoint>)
    ensures IsEnd(ps, LatestTime(ps))
  {
    hide HasValue, DoubleOf;
    if ps != [] {
      EndIs(ps[1..]);
      ValueOf(ps[0]);
      ZeroValue(ps[0]);
      var end := LatestTime(ps[1..]);
      assert forall i :: 0 < i < |ps| ==> ps[i] == ps[1..][i - 1];
      if end != 0 {
        var i :| 0 <= i < |ps[1..]| && !HasValue(ps[1..][i], 0.0) && ps[1..][i].timestamp == end;
        assert ps[i + 1] == ps[1..][i];
      }
    }
  }

  lemma DurationIs(start: uint64, end: uint64)
    ensures IsDuration(end as int - start as int, DurationBetween(start, end))
  {
  }

  lemma PerSecondIs(total: real, nanos: int)
    ensures IsPerSecond(total, nanos, PerSecond(total, nanos))
  {
  }

  lemma NothingPerSecond(nanos: int)
    ensures PerSecond(0.0, nanos) == 0.0
  {
  }

  lemma RateIs(ps: seq<NumberPoint>)
    requires ps != []
    ensures IsRate(ps, NumberAnswer(Rate, NaiveNumber(Rate, ps)))
  {
    hide IsTotal, IsStart, IsEnd, IsDuration, IsPerSecond, PerSecond, TotalOf, FirstStart, LatestTime;
    var n := NaiveNumber(Rate, ps);
    TotalIs(ps);
    StartIs(ps);
    EndIs(ps);
    DurationIs(n.start, n.timestamp);
    RateOfState(n);
    PerSecondIs(n.value, DurationBetween(n.start, n.timestamp));
    NothingPerSecond(DurationBetween(n.start, n.timestamp));
  }

  /** The number answer recomputed from a group's points: the last value, the maximum with 0, the total,
      the total per second, and 0 for any other type. */
  lemma NumberAnswerIs(typ: AggregationType, ps: seq<NumberPoint>)
    requires ps != []
    ensures IsNumberAnswer(typ, ps, NumberAnswer(typ, NaiveNumber(typ, ps)))
  {
    hide IsTotal, IsRate, IsMaximum, HasValue, TotalOf, HighestOf, DoubleOf;
    match typ
    case Last => ValueOf(ps[|ps| - 1]);
    case Max => MaximumIs(ps);
    case Sum => TotalIs(ps);
    case Rate => RateIs(ps);
    case _ =>
  }

  // ---------------------------------------------------------------- answers

  /** A sum is that of the merged points, a percentile is read off them, any other type reports 0. */
  ghost predicate IsHistAnswer(sort: Quantile.Sorter, c: Config, hs: seq<Hist>, v: Float)
    requires hs != []
  {
    match c.typ
    case Sum => v == Num(SumSum(LastStretch(hs)))
    case Percentile =>
      exists h :: IsMergeOf(h, LastStretch(hs)) && InRange(h) && v == PercentileOf(sort, c.percentile, h)
    case _ => v == Num(0.0)
  }

  lemma HistAnswerIs(sort: Quantile.Sorter, c: Config, hs: seq<Hist>)
    requires hs != [] && NonEmpty(hs) && (c.typ == Percentile ==> InRange(Fold(hs)))
    ensures IsHistAnswer(sort, c, hs, HistAnswer(sort, c, NaiveHist(c.typ, hs)))
  {
    hide Fold, PercentileOf, LastStretch, InRange;
    FoldIsStretchMerge(hs);
  }

  /** The config and the group have a point. */
  ghost predicate HasPoint(c: Config, g: string, ops: seq<Op>) {
    exists k :: HasNumber(c, g, ops, k) || HasHist(c, g, ops, k)
  }

  /** What an answer says about a group. */
  ghost predicate AnswersGroup(sort: Quantile.Sorter, c: Config, g: string, ops: seq<Op>, m: map<string, Float>)
    requires g in m
  {
    exists ps, at, hs, bt ::
      && AreNumbers(c, g, ops, at, ps) && AreHists(c, g, ops, bt, hs)
      && if hs != [] then IsHistAnswer(sort, c, hs, m[g])
         else ps != [] && m[g].Num? && IsNumberAnswer(c.typ, ps, m[g].r)
  }

  /** The answer for a config: one value for every group that has points, from its histogram points if
      it has any and else from its number points since the last reset; a single 0 if there are none. */
  ghost predicate IsAnswer(sort: Quantile.Sorter, c: Config, ops: seq<Op>, m: map<string, Float>) {
    if forall g :: !HasPoint(c, g, ops) then m == map["" := Num(0.0)]
    else forall g :: (g in m <==> HasPoint(c, g, ops)) && (g in m ==> AnswersGroup(sort, c, g, ops, m))
  }

  lemma HasPointExactly(c: Config, g: string, ops: seq<Op>, at: seq<nat>, ps: seq<NumberPoint>, bt: seq<nat>,
                        hs: seq<Hist>)
    requires AreNumbers(c, g, ops, at, ps) && AreHists(c, g, ops, bt, hs)
    ensures HasPoint(c, g, ops) <==> ps != [] || hs != []
  {
    hide HasNumber, HasHist;
    if ps != [] { assert HasNumber(c, g, ops, at[0]); }
    if hs != [] { assert HasHist(c, g, ops, bt[0]); }
  }

  lemma GroupIsAnswered(sort: Quantile.Sorter, c: Config, g: string, ops: seq<Op>, m: map<string, Float>,
                        at: seq<nat>, ps: seq<NumberPoint>, bt: seq<nat>, hs: seq<Hist>)
    requires AreNumbers(c, g, ops, at, ps) && AreHists(c, g, ops, bt, hs) && g in m
    requires if hs != [] then IsHistAnswer(sort, c, hs, m[g])
             else ps != [] && m[g].Num? && IsNumberAnswer(c.typ, ps, m[g].r)
    ensures AnswersGroup(sort, c, g, ops, m)
  {
    hide AreNumbers, AreHists, IsHistAnswer, IsNumberAnswer;
  }

  lemma NaiveAnswerOf(sort: Quantile.Sorter, c: Config, g: string, ops: seq<Op>)
    requires Answerable(c, ops)
    ensures var ps, hs, m := NumbersFor(c, g, ops), HistsFor(c, g, ops), NaiveAnswer(sort, c, ops);
            && (hs != [] ==> (c.typ == Percentile ==> InRange(Fold(hs)))
                             && g in m && m[g] == HistAnswer(sort, c, NaiveHist(c.typ, hs)))
            && (hs == [] && ps != [] ==> g in m && m[g] == Num(NumberAnswer(c.typ, NaiveNumber(c.typ, ps))))
  {
    hide NumbersFor, HistsFor, NumberGroups, HistGroups, NaiveNumber, NumberAnswer, HistAnswer, InRange, Fold;
  }

  lemma GroupAnswer(sort: Quantile.Sorter, c: Config, g: string, ops: seq<Op>)
    requires ValidOps(ops) && Answerable(c, ops)
    ensures HasPoint(c, g, ops) <==> g in NumberGroups(c, ops) || g in HistGroups(c, ops)
    ensures HasPoint(c, g, ops) ==>
              g in NaiveAnswer(sort, c, ops) && AnswersGroup(sort, c, g, ops, NaiveAnswer(sort, c, ops))
  {
    hide *;
    var ps, hs := NumbersFor(c, g, ops), HistsFor(c, g, ops);
    var at := NumbersAt(c, g, ops);
    var bt := HistsAt(c, g, ops);
    HasPointExactly(c, g, ops, at, ps, bt, hs);
    if HasPoint(c, g, ops) {
      NaiveAnswerOf(sort, c, g, ops);
      if hs != [] {
        HistAnswerIs(sort, c, hs);
      } else {
        NumberAnswerIs(c.typ, ps);
      }
      GroupIsAnswered(sort, c, g, ops, NaiveAnswer(sort, c, ops), at, ps, bt, hs);
    }
  }

  lemma NaiveAnswerKeys(sort: Quantile.Sorter, c: Config, ops: seq<Op>)
    requires Answerable(c, ops)
    ensures var m, groups := NaiveAnswer(sort, c, ops), NumberGroups(c, ops) + HistGroups(c, ops);
            if groups == {} then m == map["" := Num(0.0)] else m.Keys == groups
  {
    hide NumbersFor, HistsFor, NumberGroups, HistGroups, NaiveNumber, NumberAnswer, HistAnswer, Answerable, NaiveHist;
  }

  /** The recomputed answer, and with it that of the store, spelled out on the recorded points. */
  lemma AnswerIs(sort: Quantile.Sorter, c: Config, ops: seq<Op>)
    requires ValidOps(ops) && Answerable(c, ops)
    ensures IsAnswer(sort, c, ops, NaiveAnswer(sort, c, ops))
  {
    hide HasPoint, AnswersGroup, NaiveAnswer, Answerable, NumberGroups, HistGroups;
    NaiveAnswerKeys(sort, c, ops);
    forall g
      ensures HasPoint(c, g, ops) <==> g in NumberGroups(c, ops) + HistGroups(c, ops)
      ensures HasPoint(c, g, ops) ==>
                g in NaiveAnswer(sort, c, ops) && AnswersGroup(sort, c, g, ops, NaiveAnswer(sort, c, ops))
    {
      GroupAnswer(sort, c, g, ops);
    }
  }

  // ---------------------------------------------------------------- one point

  /** A batch with one point of a sum metric "m". */
  function OneSum(temporality: Temporality, p: NumberPoint): seq<ResourceMetrics> {
    [ResourceMetrics([], [[Metric("m", Total(temporality, [NumberDP([], p)]))]])]
  }

  lemma OneSumOps(temporality: Temporality, p: NumberPoint)
    ensures MetricsOps(OneSum(temporality, p))
         == if temporality == Cumulative then [] else [PointOfM(NumberSample(p))]
  {
    OneMetric(Metric("m", Total(temporality, [NumberDP([], p)])), []);
    assert [NumberDP([], p)][..0] == [] && NumberOps("m", [], []) == [];
    assert NumberOps("m", [NumberDP([], p)], []) == [PointOfM(NumberSample(p))];
  }

  lemma NothingRun(c: Config)
    ensures Run([c], []) == EMPTY_STATE
  {
  }

  /** One point of a sum, whose value may be an integer or a float: a delta sum is reported, a
      cumulative one is not recorded. */
  lemma OneSumPoint(sort: Quantile.Sorter, temporality: Temporality, p: NumberPoint, v: real)
    requires HasValue(p, v)
    ensures Answer(sort, SUM_OF_M, Run([SUM_OF_M], MetricsOps(OneSum(temporality, p))))
         == map["" := Num(if temporality == Cumulative then 0.0 else v)]
  {
    hide Run, MetricsOps;
    OneSumOps(temporality, p);
    if temporality == Cumulative {
      NothingRun(SUM_OF_M);
    } else {
      RunOne(SUM_OF_M, NumberSample(p));
      SlotsAnswer(sort, SUM_OF_M, State(map[Slot("k", "") := NumberState(v, 0, 0)], map[]), map["" := Num(v)]);
    }
  }
}
