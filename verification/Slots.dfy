/**
  What the store keeps: one slot per config key and group, updated by every matching data point.

  `Run` is the specification of the store's updates. The main results compare it with a naive
  recomputation from the list of everything that was ever added (`NaiveAnswer`).
*/
module Slots {
  import opened Basics
  import opened Aggregation
  import opened Histogram
  import Quantile

  datatype NumberValue = Unset | IntValue(i: int) | DoubleValue(r: real)

  /** A number data point as it arrives; 0 is an unset timestamp. */
  datatype NumberPoint = NumberPoint(value: NumberValue, start: uint64, timestamp: uint64)

  function DoubleOf(p: NumberPoint): real {
    match p.value
    case Unset => 0.0
    case IntValue(i) => i as real
    case DoubleValue(r) => r
  }

  /** What a number slot holds. */
  datatype NumberState = NumberState(value: real, start: uint64, timestamp: uint64)

  const NEW_NUMBER := NumberState(0.0, 0, 0)

  datatype Sample = NumberSample(number: NumberPoint) | HistSample(hist: Hist)

  /** A data point with the metric name and the attributes it is recorded under. */
  datatype Recorded = Recorded(name: string, attrs: Attributes, resAttrs: Attributes, sample: Sample)

  datatype Op = Record(point: Recorded) | Reset

  /** Histogram points without observations are never recorded. */
  predicate ValidOp(op: Op) {
    op.Record? && op.point.sample.HistSample? ==> op.point.sample.hist.count != 0
  }

  predicate ValidOps(ops: seq<Op>) {
    forall i :: 0 <= i < |ops| ==> ValidOp(ops[i])
  }

  datatype Slot = Slot(key: string, group: string)

  datatype State = State(nums: map<Slot, NumberState>, hists: map<Slot, Hist>)

  const EMPTY_STATE := State(map[], map[])

  // ---------------------------------------------------------------- one update

  function GroupOf(cfg: Config, r: Recorded): string {
    AsString(GetValueFromMaps(cfg.groupBy, r.attrs, r.resAttrs))
  }

  function SlotFor(cfg: Config, r: Recorded): Slot {
    Slot(cfg.key, GroupOf(cfg, r))
  }

  predicate IsFor(cfg: Config, r: Recorded) {
    Matches(cfg, r.name, r.attrs, r.resAttrs)
  }

  /** A data point without a start time counts from its own time. */
  function StartOf(p: NumberPoint): uint64 {
    if p.start != 0 then p.start else p.timestamp
  }

  function UpdateNumber(typ: AggregationType, p: NumberPoint, to: NumberState): NumberState {
    match typ
    case Last => to.(value := DoubleOf(p))
    case Max => if DoubleOf(p) > to.value then to.(value := DoubleOf(p)) else to
    case Sum => to.(value := to.value + DoubleOf(p))
    case Rate =>
      if DoubleOf(p) == 0.0 then to
      else NumberState(to.value + DoubleOf(p),
                       if to.start == 0 then StartOf(p) else to.start,
                       if to.timestamp < p.timestamp then p.timestamp else to.timestamp)
    case _ => to
  }

  predicate MergesHistograms(typ: AggregationType) {
    typ == Sum || typ == Percentile
  }

  function UpdateHist(typ: AggregationType, h: Hist, to: Hist): Hist {
    if MergesHistograms(typ) then Merge(h, to) else to
  }

  function NumberAt(st: State, s: Slot): Option<NumberState> {
    if s in st.nums then Some(st.nums[s]) else None
  }

  function HistAt(st: State, s: Slot): Option<Hist> {
    if s in st.hists then Some(st.hists[s]) else None
  }

  function OrNew<T>(v: Option<T>, initial: T): T {
    if v.Some? then v.value else initial
  }

  /** The point recorded under one matching config; a slot is created on first use. */
  function Apply(cfg: Config, st: State, r: Recorded): State {
    var s := SlotFor(cfg, r);
    match r.sample
    case NumberSample(p) =>
      st.(nums := st.nums[s := UpdateNumber(cfg.typ, p, OrNew(NumberAt(st, s), NEW_NUMBER))])
    case HistSample(h) =>
      st.(hists := st.hists[s := UpdateHist(cfg.typ, h, OrNew(HistAt(st, s), NEW_HIST))])
  }

  function ApplyAll(cfgs: seq<Config>, st: State, r: Recorded): State {
    if cfgs == [] then st
    else Apply(cfgs[|cfgs| - 1], ApplyAll(cfgs[..|cfgs| - 1], st, r), r)
  }

  function Step(cfgs: seq<Config>, st: State, op: Op): State {
    match op
    case Record(r) => ApplyAll(Scan(cfgs, r.name, r.attrs, r.resAttrs), st, r)
    case Reset => st.(nums := map[])
  }

  function Run(cfgs: seq<Config>, ops: seq<Op>): State {
    if ops == [] then EMPTY_STATE
    else Step(cfgs, Run(cfgs, ops[..|ops| - 1]), ops[|ops| - 1])
  }

  lemma RunExtends(cfgs: seq<Config>, log: seq<Op>, op: Op)
    ensures Run(cfgs, log + [op]) == Step(cfgs, Run(cfgs, log), op)
  {
    hide Step;
  }

  // ---------------------------------------------------------------- queries

  /** uint64 subtraction converted to a signed duration in nanoseconds. */
  function DurationBetween(start: uint64, end: uint64): int {
    var d := Sub64(end, start);
    if d < U64 / 2 then d else d - U64
  }

  function NumberAnswer(typ: AggregationType, n: NumberState): real {
    match typ
    case Rate =>
      if n.value == 0.0 then 0.0
      else
        var duration := DurationBetween(n.start, n.timestamp);
        if duration <= 0 then 0.0 else n.value / (duration as real / 1000000000.0)
    case Last => n.value
    case Sum => n.value
    case Max => n.value
    case _ => 0.0
  }

  function HistAnswer(sort: Quantile.Sorter, cfg: Config, h: Hist): Float
    requires cfg.typ == Percentile ==> InRange(h)
  {
    match cfg.typ
    case Percentile => PercentileOf(sort, cfg.percentile, h)
    case Sum => Num(h.sum)
    case _ => Num(0.0)
  }

  /** The query for a config stays in range. */
  predicate Readable(cfg: Config, st: State) {
    cfg.typ == Percentile ==> forall s :: s in st.hists && s.key == cfg.key ==> InRange(st.hists[s])
  }

  function GroupsOf<T>(m: map<Slot, T>, key: string): set<string> {
    set s | s in m && s.key == key :: s.group
  }

  /** The query for one key: histogram slots take precedence over number slots of the same group. */
  function Answer(sort: Quantile.Sorter, cfg: Config, st: State): map<string, Float>
    requires Readable(cfg, st)
  {
    var numGroups, histGroups := GroupsOf(st.nums, cfg.key), GroupsOf(st.hists, cfg.key);
    if numGroups == {} && histGroups == {} then map["" := Num(0.0)]
    else
      map g | g in numGroups + histGroups ::
        if g in histGroups then HistAnswer(sort, cfg, st.hists[Slot(cfg.key, g)])
        else Num(NumberAnswer(cfg.typ, st.nums[Slot(cfg.key, g)]))
  }

  lemma SlotsAnswer(sort: Quantile.Sorter, cfg: Config, st: State, m: map<string, Float>)
    requires Readable(cfg, st)
    requires exists s :: (s in st.nums || s in st.hists) && s.key == cfg.key
    requires forall g :: g in m <==> Slot(cfg.key, g) in st.nums || Slot(cfg.key, g) in st.hists
    requires forall g :: g in m ==>
               m[g] == if Slot(cfg.key, g) in st.hists then HistAnswer(sort, cfg, st.hists[Slot(cfg.key, g)])
                       else Num(NumberAnswer(cfg.typ, st.nums[Slot(cfg.key, g)]))
    ensures m == Answer(sort, cfg, st)
  {
    hide HistAnswer, NumberAnswer;
    var numGroups, histGroups := GroupsOf(st.nums, cfg.key), GroupsOf(st.hists, cfg.key);
    forall g
      ensures g in numGroups <==> Slot(cfg.key, g) in st.nums
      ensures g in histGroups <==> Slot(cfg.key, g) in st.hists
    {
    }
    var s :| (s in st.nums || s in st.hists) && s.key == cfg.key;
    assert s.group in numGroups + histGroups;
  }

  // ---------------------------------------------------------------- the naive recomputation

  /** The number points of one config and group since the last reset, in order. */
  function NumbersFor(cfg: Config, g: string, ops: seq<Op>): seq<NumberPoint> {
    if ops == [] then []
    else
      var before := NumbersFor(cfg, g, ops[..|ops| - 1]);
      match ops[|ops| - 1]
      case Reset => []
      case Record(r) =>
        if r.sample.NumberSample? && IsFor(cfg, r) && GroupOf(cfg, r) == g then before + [r.sample.number] else before
  }

  /** All histogram points of one config and group, in order; a reset does not cut them. */
  function HistsFor(cfg: Config, g: string, ops: seq<Op>): (hs: seq<Hist>)
    ensures ValidOps(ops) ==> NonEmpty(hs)
  {
    if ops == [] then []
    else
      var before := HistsFor(cfg, g, ops[..|ops| - 1]);
      match ops[|ops| - 1]
      case Reset => before
      case Record(r) =>
        if r.sample.HistSample? && IsFor(cfg, r) && GroupOf(cfg, r) == g then before + [r.sample.hist] else before
  }

  function NumberGroups(cfg: Config, ops: seq<Op>): (gs: set<string>)
    ensures forall g :: g in gs <==> NumbersFor(cfg, g, ops) != []
  {
    if ops == [] then {}
    else
      var before := NumberGroups(cfg, ops[..|ops| - 1]);
      match ops[|ops| - 1]
      case Reset => {}
      case Record(r) => if r.sample.NumberSample? && IsFor(cfg, r) then before + {GroupOf(cfg, r)} else before
  }

  function HistGroups(cfg: Config, ops: seq<Op>): (gs: set<string>)
    ensures forall g :: g in gs <==> HistsFor(cfg, g, ops) != []
  {
    if ops == [] then {}
    else
      var before := HistGroups(cfg, ops[..|ops| - 1]);
      match ops[|ops| - 1]
      case Reset => before
      case Record(r) => if r.sample.HistSample? && IsFor(cfg, r) then before + {GroupOf(cfg, r)} else before
  }

  function TotalOf(ps: seq<NumberPoint>): real {
    if ps == [] then 0.0 else DoubleOf(ps[0]) + TotalOf(ps[1..])
  }

  /** The largest value, but at least 0. */
  function HighestOf(ps: seq<NumberPoint>): real {
    if ps == [] then 0.0 else Basics.Max(DoubleOf(ps[0]), HighestOf(ps[1..]))
  }

  /** The first set start time among the points with a value other than 0. */
  function FirstStart(ps: seq<NumberPoint>): uint64 {
    if ps == [] then 0
    else if DoubleOf(ps[0]) != 0.0 && StartOf(ps[0]) != 0 then StartOf(ps[0])
    else FirstStart(ps[1..])
  }

  /** The latest time among the points with a value other than 0. */
  function LatestTime(ps: seq<NumberPoint>): uint64 {
    if ps == [] then 0
    else
      var rest := LatestTime(ps[1..]);
      if DoubleOf(ps[0]) != 0.0 && rest < ps[0].timestamp then ps[0].timestamp else rest
  }

  function NaiveNumber(typ: AggregationType, ps: seq<NumberPoint>): NumberState
    requires ps != []
  {
    match typ
    case Last => NumberState(DoubleOf(ps[|ps| - 1]), 0, 0)
    case Max => NumberState(HighestOf(ps), 0, 0)
    case Sum => NumberState(TotalOf(ps), 0, 0)
    case Rate => NumberState(TotalOf(ps), FirstStart(ps), LatestTime(ps))
    case _ => NEW_NUMBER
  }

  function NaiveHist(typ: AggregationType, hs: seq<Hist>): Hist
    requires hs != []
  {
    if MergesHistograms(typ) then Fold(hs) else NEW_HIST
  }

  /** The recomputation of a percentile stays in range. */
  predicate Answerable(cfg: Config, ops: seq<Op>) {
    cfg.typ == Percentile ==> forall g :: g in HistGroups(cfg, ops) ==> InRange(Fold(HistsFor(cfg, g, ops)))
  }

  /** The answer for one config recomputed from everything that was added. No other config and no
      stored slot takes part. */
  function NaiveAnswer(sort: Quantile.Sorter, cfg: Config, ops: seq<Op>): map<string, Float>
    requires Answerable(cfg, ops)
  {
    var numGroups, histGroups := NumberGroups(cfg, ops), HistGroups(cfg, ops);
    if numGroups == {} && histGroups == {} then map["" := Num(0.0)]
    else
      map g | g in numGroups + histGroups ::
        if g in histGroups then HistAnswer(sort, cfg, NaiveHist(cfg.typ, HistsFor(cfg, g, ops)))
        else Num(NumberAnswer(cfg.typ, NaiveNumber(cfg.typ, NumbersFor(cfg, g, ops))))
  }

  /** With distinct bounds in the last histogram point of every group of a percentile, it does not
      matter which sort is used. */
  lemma SortDoesNotMatter(sort: Quantile.Sorter, other: Quantile.Sorter, cfg: Config, ops: seq<Op>)
    requires ValidOps(ops) && Answerable(cfg, ops)
    requires cfg.typ == Percentile ==>
               forall g :: g in HistGroups(cfg, ops) ==> var hs := HistsFor(cfg, g, ops); Distinct(hs[|hs| - 1].bounds)
    ensures NaiveAnswer(sort, cfg, ops) == NaiveAnswer(other, cfg, ops)
  {
    hide NumberAnswer, NaiveNumber, PercentileOf, Distinct, InRange, Fold, HistsFor, NumbersFor, NumberGroups,
      HistGroups;
    forall g | g in HistGroups(cfg, ops)
      ensures var h := NaiveHist(cfg.typ, HistsFor(cfg, g, ops));
              HistAnswer(sort, cfg, h) == HistAnswer(other, cfg, h)
    {
      if cfg.typ == Percentile {
        SlotBounds(HistsFor(cfg, g, ops));
        DistinctBoundsFixPercentile(sort, other, cfg.percentile, Fold(HistsFor(cfg, g, ops)));
      }
    }
  }

  // ---------------------------------------------------------------- what the naive forms say

  /** A maximum over the values and 0. */
  lemma {:induction false} HighestIsMaximum(ps: seq<NumberPoint>)
    ensures HighestOf(ps) >= 0.0 && forall i :: 0 <= i < |ps| ==> DoubleOf(ps[i]) <= HighestOf(ps)
    ensures HighestOf(ps) == 0.0 || exists i :: 0 <= i < |ps| && DoubleOf(ps[i]) == HighestOf(ps)
  {
    if ps != [] {
      HighestIsMaximum(ps[1..]);
      if HighestOf(ps) != DoubleOf(ps[0]) && HighestOf(ps) != 0.0 {
        var i :| 0 <= i < |ps[1..]| && DoubleOf(ps[1..][i]) == HighestOf(ps);
        assert ps[i + 1] == ps[1..][i];
      }
    }
  }

  /** It is the maximum of the values alone exactly when one of them is not negative. */
  lemma MaximumExactly(ps: seq<NumberPoint>)
    ensures (exists i :: 0 <= i < |ps| && DoubleOf(ps[i]) == HighestOf(ps)) <==>
            exists i :: 0 <= i < |ps| && DoubleOf(ps[i]) >= 0.0
  {
    hide DoubleOf, HighestOf;
    HighestIsMaximum(ps);
  }

  predicate StartsRate(p: NumberPoint) {
    DoubleOf(p) != 0.0 && StartOf(p) != 0
  }

  predicate IsFirstStart(ps: seq<NumberPoint>, k: nat)
    requires k < |ps|
  {
    StartsRate(ps[k]) && forall j :: 0 <= j < k ==> !StartsRate(ps[j])
  }

  /** The start of the first point that has a value and a start, however low later ones are. */
  lemma {:induction false} FirstStartIsFirst(ps: seq<NumberPoint>)
    ensures FirstStart(ps) == 0 <==> forall i :: 0 <= i < |ps| ==> !StartsRate(ps[i])
    ensures FirstStart(ps) != 0 ==> exists k :: 0 <= k < |ps| && IsFirstStart(ps, k) && StartOf(ps[k]) == FirstStart(ps)
  {
    if ps != [] && !StartsRate(ps[0]) {
      FirstStartIsFirst(ps[1..]);
      if FirstStart(ps) != 0 {
        var k :| 0 <= k < |ps[1..]| && IsFirstStart(ps[1..], k) && StartOf(ps[1..][k]) == FirstStart(ps);
        assert forall j :: 0 < j < |ps| ==> ps[j] == ps[1..][j - 1];
        assert IsFirstStart(ps, k + 1);
      } else {
        assert forall j :: 0 < j < |ps| ==> ps[j] == ps[1..][j - 1];
      }
    } else if ps != [] {
      assert IsFirstStart(ps, 0);
    }
  }

  /** A total per second over a number of nanoseconds, and 0 over a span that is not positive. */
  function PerSecond(total: real, nanos: int): real {
    if nanos <= 0 then 0.0 else total / (nanos as real / 1000000000.0)
  }

  lemma RateOfState(n: NumberState)
    ensures NumberAnswer(Rate, n) ==
              if n.value == 0.0 then 0.0 else PerSecond(n.value, DurationBetween(n.start, n.timestamp))
  {
  }

  lemma PerSecondIsZero(total: real, nanos: int)
    ensures PerSecond(total, nanos) == 0.0 <==> total == 0.0 || nanos <= 0
  {
    if nanos > 0 {
      var seconds := nanos as real / 1000000000.0;
      assert (total / seconds) * seconds == total;
    }
  }

  /** Beyond the range of a signed 64-bit duration the sign of a difference turns around. */
  lemma WrappedDifference(start: uint64, end: uint64)
    ensures var d, span := DurationBetween(start, end), end as int - start as int;
            if span < -(U64 / 2) then d > 0 else if span < U64 / 2 then d == span else d < 0
  {
  }

  /** A rate is the total per second from the first start to the latest time exactly when the span
      fits a signed 64-bit duration, or the total is 0. */
  lemma RateIsTotalOverSpan(ps: seq<NumberPoint>)
    requires ps != []
    ensures var span := LatestTime(ps) as int - FirstStart(ps) as int;
            NumberAnswer(Rate, NaiveNumber(Rate, ps)) == PerSecond(TotalOf(ps), span)
            <==> TotalOf(ps) == 0.0 || -(U64 / 2) <= span < U64 / 2
  {
    hide TotalOf, LatestTime, FirstStart;
    var span := LatestTime(ps) as int - FirstStart(ps) as int;
    WrappedDifference(FirstStart(ps), LatestTime(ps));
    RateOfState(NaiveNumber(Rate, ps));
    hide PerSecond;
    PerSecondIsZero(TotalOf(ps), span);
    PerSecondIsZero(TotalOf(ps), DurationBetween(FirstStart(ps), LatestTime(ps)));
  }

  // ---------------------------------------------------------------- the naive forms, point by point

  lemma {:induction false} NaiveAppends(ps: seq<NumberPoint>, p: NumberPoint)
    ensures TotalOf(ps + [p]) == TotalOf(ps) + DoubleOf(p)
    ensures HighestOf(ps + [p]) == Basics.Max(HighestOf(ps), DoubleOf(p))
    ensures FirstStart(ps + [p]) ==
              if FirstStart(ps) != 0 then FirstStart(ps) else if DoubleOf(p) != 0.0 then StartOf(p) else 0
    ensures LatestTime(ps + [p]) ==
              if DoubleOf(p) != 0.0 && LatestTime(ps) < p.timestamp then p.timestamp else LatestTime(ps)
  {
    if ps == [] {
      assert [p][1..] == [] && [] + [p] == [p];
    } else {
      assert (ps + [p])[1..] == ps[1..] + [p] && (ps + [p])[0] == ps[0];
      NaiveAppends(ps[1..], p);
    }
  }

  /** The slot update follows the naive form when one more point arrives. */
  lemma UpdateFollowsNaive(typ: AggregationType, ps: seq<NumberPoint>, p: NumberPoint)
    ensures NaiveNumber(typ, ps + [p])
         == UpdateNumber(typ, p, if ps == [] then NEW_NUMBER else NaiveNumber(typ, ps))
  {
    NaiveAppends(ps, p);
  }

  lemma HistFollowsNaive(typ: AggregationType, hs: seq<Hist>, h: Hist)
    ensures NaiveHist(typ, hs + [h])
         == UpdateHist(typ, h, if hs == [] then NEW_HIST else NaiveHist(typ, hs))
  {
    hide Merge;
    var all := hs + [h];
    assert all[..|hs|] == hs && all[|hs|] == h;
    assert Fold(all) == Merge(h, Fold(hs));
  }

  // ---------------------------------------------------------------- each config touches one slot

  predicate DistinctKeys(cfgs: seq<Config>) {
    forall i, j :: 0 <= i < j < |cfgs| ==> cfgs[i].key != cfgs[j].key
  }

  lemma {:induction false} ScanDistinct(cfgs: seq<Config>, r: Recorded)
    requires DistinctKeys(cfgs)
    ensures DistinctKeys(Scan(cfgs, r.name, r.attrs, r.resAttrs))
  {
    if cfgs != [] {
      var n := |cfgs| - 1;
      var init, found := cfgs[..n], Scan(cfgs[..n], r.name, r.attrs, r.resAttrs);
      ScanDistinct(init, r);
      forall c | c in found
        ensures c.key != cfgs[n].key
      {
        assert c in init;
      }
    }
  }

  predicate SameAt(a: State, b: State, s: Slot) {
    NumberAt(a, s) == NumberAt(b, s) && HistAt(a, s) == HistAt(b, s)
  }

  lemma ApplyElsewhere(c: Config, st: State, r: Recorded, s: Slot)
    requires SlotFor(c, r) != s
    ensures SameAt(Apply(c, st, r), st, s)
  {
  }

  lemma ApplyHere(c: Config, a: State, b: State, r: Recorded)
    requires SameAt(a, b, SlotFor(c, r))
    ensures SameAt(Apply(c, a, r), Apply(c, b, r), SlotFor(c, r))
  {
  }

  /** A slot whose config is not among those applied keeps its contents. */
  lemma {:induction false} OthersUntouched(cfgs: seq<Config>, st: State, r: Recorded, s: Slot)
    requires forall c :: c in cfgs ==> SlotFor(c, r) != s
    ensures SameAt(ApplyAll(cfgs, st, r), st, s)
  {
    if cfgs != [] {
      hide Apply, SlotFor;
      var n := |cfgs| - 1;
      OthersUntouched(cfgs[..n], st, r, s);
      assert cfgs[n] in cfgs;
      ApplyElsewhere(cfgs[n], ApplyAll(cfgs[..n], st, r), r, s);
    }
  }

  /** Applying a list of configs with distinct keys updates the slot of each of them once. */
  lemma {:induction false} TouchedOnce(cfgs: seq<Config>, st: State, r: Recorded, c: Config)
    requires DistinctKeys(cfgs) && c in cfgs
    ensures SameAt(ApplyAll(cfgs, st, r), Apply(c, st, r), SlotFor(c, r))
  {
    hide Apply, GroupOf;
    var n := |cfgs| - 1;
    var before := ApplyAll(cfgs[..n], st, r);
    if cfgs[n] == c {
      forall b | b in cfgs[..n]
        ensures SlotFor(b, r) != SlotFor(c, r)
      {
      }
      OthersUntouched(cfgs[..n], st, r, SlotFor(c, r));
      ApplyHere(c, before, st, r);
    } else {
      assert c in cfgs[..n];
      TouchedOnce(cfgs[..n], st, r, c);
      ApplyElsewhere(cfgs[n], before, r, SlotFor(c, r));
    }
  }

  lemma SameKeySameConfig(cfgs: seq<Config>, b: Config, c: Config)
    requires DistinctKeys(cfgs) && b in cfgs && c in cfgs && b.key == c.key
    ensures b == c
  {
  }

  /** What one recorded point does to the slot of a configured key and any group. */
  lemma StepOnSlot(cfgs: seq<Config>, st: State, r: Recorded, c: Config, g: string)
    requires DistinctKeys(cfgs) && c in cfgs
    ensures var st', s := Step(cfgs, st, Record(r)), Slot(c.key, g);
            SameAt(st', if IsFor(c, r) && GroupOf(c, r) == g then Apply(c, st, r) else st, s)
  {
    hide Apply, GroupOf, Matches, SameAt;
    var found := Scan(cfgs, r.name, r.attrs, r.resAttrs);
    ScanDistinct(cfgs, r);
    if IsFor(c, r) && GroupOf(c, r) == g {
      TouchedOnce(found, st, r, c);
    } else {
      forall b | b in found
        ensures SlotFor(b, r) != Slot(c.key, g)
      {
        if b.key == c.key {
          SameKeySameConfig(cfgs, b, c);
        }
      }
      OthersUntouched(found, st, r, Slot(c.key, g));
    }
  }

  // ---------------------------------------------------------------- online refines offline

  function NaiveNumberAt(c: Config, g: string, ops: seq<Op>): Option<NumberState> {
    var ps := NumbersFor(c, g, ops);
    if ps == [] then None else Some(NaiveNumber(c.typ, ps))
  }

  function NaiveHistAt(c: Config, g: string, ops: seq<Op>): Option<Hist> {
    var hs := HistsFor(c, g, ops);
    if hs == [] then None else Some(NaiveHist(c.typ, hs))
  }

  lemma RecordIsNaive(cfgs: seq<Config>, init: seq<Op>, r: Recorded, c: Config, g: string)
    requires NumberAt(Run(cfgs, init), Slot(c.key, g)) == NaiveNumberAt(c, g, init)
    requires HistAt(Run(cfgs, init), Slot(c.key, g)) == NaiveHistAt(c, g, init)
    ensures var ops, st := init + [Record(r)], Run(cfgs, init);
            var from := if IsFor(c, r) && GroupOf(c, r) == g then Apply(c, st, r) else st;
            && NumberAt(from, Slot(c.key, g)) == NaiveNumberAt(c, g, ops)
            && HistAt(from, Slot(c.key, g)) == NaiveHistAt(c, g, ops)
  {
    assert (init + [Record(r)])[..|init|] == init;
    match r.sample
    case NumberSample(p) => UpdateFollowsNaive(c.typ, NumbersFor(c, g, init), p);
    case HistSample(h) => HistFollowsNaive(c.typ, HistsFor(c, g, init), h);
  }

  /** After any run, the slot of every configured key and group is what the naive recomputation
      gives for it, and there is no slot where the recomputation finds no point. */
  lemma {:induction false} SlotsAreNaive(cfgs: seq<Config>, ops: seq<Op>, c: Config, g: string)
    requires DistinctKeys(cfgs) && c in cfgs
    ensures NumberAt(Run(cfgs, ops), Slot(c.key, g)) == NaiveNumberAt(c, g, ops)
    ensures HistAt(Run(cfgs, ops), Slot(c.key, g)) == NaiveHistAt(c, g, ops)
  {
    if ops != [] {
      var init, op := ops[..|ops| - 1], ops[|ops| - 1];
      SlotsAreNaive(cfgs, init, c, g);
      if op.Record? {
        StepOnSlot(cfgs, Run(cfgs, init), op.point, c, g);
        RecordIsNaive(cfgs, init, op.point, c, g);
      }
    }
  }

  lemma GroupsAreNaive(c: Config, st: State, ops: seq<Op>)
    requires forall g :: NumberAt(st, Slot(c.key, g)) == NaiveNumberAt(c, g, ops)
    requires forall g :: HistAt(st, Slot(c.key, g)) == NaiveHistAt(c, g, ops)
    ensures GroupsOf(st.nums, c.key) == NumberGroups(c, ops)
    ensures GroupsOf(st.hists, c.key) == HistGroups(c, ops)
  {
    hide NaiveHist, NaiveNumber, NumbersFor, HistsFor, NumberGroups, HistGroups;
    forall g
      ensures g in GroupsOf(st.nums, c.key) <==> NumberAt(st, Slot(c.key, g)).Some?
    {
      assert g in GroupsOf(st.nums, c.key) <==> Slot(c.key, g) in st.nums;
    }
    forall g
      ensures g in GroupsOf(st.hists, c.key) <==> HistAt(st, Slot(c.key, g)).Some?
    {
      assert g in GroupsOf(st.hists, c.key) <==> Slot(c.key, g) in st.hists;
    }
  }

  lemma SlotsReadable(c: Config, st: State, ops: seq<Op>)
    requires forall g :: HistAt(st, Slot(c.key, g)) == NaiveHistAt(c, g, ops)
    ensures Readable(c, st) <==> Answerable(c, ops)
  {
    hide Fold, HistsFor, HistGroups, InRange;
    if c.typ == Percentile {
      forall g
        ensures g in HistGroups(c, ops) <==> Slot(c.key, g) in st.hists
        ensures g in HistGroups(c, ops) ==> st.hists[Slot(c.key, g)] == Fold(HistsFor(c, g, ops))
      {
        assert HistAt(st, Slot(c.key, g)) == NaiveHistAt(c, g, ops);
      }
      forall s | s in st.hists && s.key == c.key
        ensures s == Slot(c.key, s.group) && s.group in HistGroups(c, ops)
      {
      }
    }
  }

  lemma SlotsGiveAnswer(sort: Quantile.Sorter, c: Config, st: State, ops: seq<Op>)
    requires forall g :: NumberAt(st, Slot(c.key, g)) == NaiveNumberAt(c, g, ops)
    requires forall g :: HistAt(st, Slot(c.key, g)) == NaiveHistAt(c, g, ops)
    requires GroupsOf(st.nums, c.key) == NumberGroups(c, ops)
    requires GroupsOf(st.hists, c.key) == HistGroups(c, ops)
    requires Readable(c, st) && Answerable(c, ops)
    ensures Answer(sort, c, st) == NaiveAnswer(sort, c, ops)
  {
    hide HistAnswer, NumberAnswer, NaiveHist, NaiveNumber, NumbersFor, HistsFor, NumberGroups, HistGroups, Fold,
      GroupsOf, Readable, Answerable;
  }

  /** After any run, the answer for every configured key is the naive recomputation over the points
      added: number points since the last reset, histogram points since the start. The one can be
      computed exactly when the other can. */
  lemma AnswerIsNaive(sort: Quantile.Sorter, cfgs: seq<Config>, ops: seq<Op>, c: Config)
    requires DistinctKeys(cfgs) && c in cfgs
    ensures Readable(c, Run(cfgs, ops)) <==> Answerable(c, ops)
    ensures Answerable(c, ops) ==> Answer(sort, c, Run(cfgs, ops)) == NaiveAnswer(sort, c, ops)
  {
    hide *;
    var st := Run(cfgs, ops);
    forall g
      ensures NumberAt(st, Slot(c.key, g)) == NaiveNumberAt(c, g, ops)
      ensures HistAt(st, Slot(c.key, g)) == NaiveHistAt(c, g, ops)
    {
      SlotsAreNaive(cfgs, ops, c, g);
    }
    GroupsAreNaive(c, st, ops);
    SlotsReadable(c, st, ops);
    if Answerable(c, ops) {
      SlotsGiveAnswer(sort, c, st, ops);
    }
  }

  lemma OneConfig(c: Config)
    ensures DistinctKeys([c]) && c in [c]
  {
  }

  /** Configs do not interfere: over any run the answers for a key are those of a store that holds
      only that key's config. */
  lemma ConfigsDoNotInterfere(sort: Quantile.Sorter, cfgs: seq<Config>, ops: seq<Op>, c: Config)
    requires DistinctKeys(cfgs) && c in cfgs
    ensures Readable(c, Run(cfgs, ops)) <==> Readable(c, Run([c], ops))
    ensures Readable(c, Run(cfgs, ops)) ==> Answer(sort, c, Run(cfgs, ops)) == Answer(sort, c, Run([c], ops))
  {
    hide *;
    OneConfig(c);
    AnswerIsNaive(sort, cfgs, ops, c);
    AnswerIsNaive(sort, [c], ops, c);
  }

  lemma KeysDistinct(cfgs: seq<Config>)
    requires ValidList(cfgs)
    ensures DistinctKeys(cfgs)
  {
  }

  // ---------------------------------------------------------------- when nothing is out of range

  /** Recording the point under a config keeps the merge in range. */
  predicate ApplyFits(cfg: Config, st: State, r: Recorded) {
    r.sample.HistSample? && MergesHistograms(cfg.typ) ==>
      Fits(r.sample.hist, OrNew(HistAt(st, SlotFor(cfg, r)), NEW_HIST))
  }

  /** Every merge that the operation leads to stays in range. */
  predicate StepFits(cfgs: seq<Config>, st: State, op: Op) {
    op.Record? ==> forall c :: c in cfgs && IsFor(c, op.point) ==> ApplyFits(c, st, op.point)
  }

  /** A store can take these operations, one after the other, without a merge out of range. */
  predicate Survives(cfgs: seq<Config>, ops: seq<Op>) {
    ops == [] ||
    (Survives(cfgs, ops[..|ops| - 1]) && StepFits(cfgs, Run(cfgs, ops[..|ops| - 1]), ops[|ops| - 1]))
  }

  lemma {:induction false} SurvivesPrefix(cfgs: seq<Config>, a: seq<Op>, b: seq<Op>)
    requires Survives(cfgs, a + b)
    ensures Survives(cfgs, a)
  {
    if b == [] {
      assert a + b == a;
    } else {
      assert (a + b)[..|a + b| - 1] == a + b[..|b| - 1];
      SurvivesPrefix(cfgs, a, b[..|b| - 1]);
    }
  }

  /** What a store survives as a whole it survives part by part. */
  lemma SurvivesNext(cfgs: seq<Config>, log: seq<Op>, before: seq<Op>, next: seq<Op>, all: seq<Op>)
    requires before + next <= all && Survives(cfgs, log + all)
    ensures Survives(cfgs, log + before + next)
  {
    hide Survives;
    var n := |before + next|;
    assert log + all == log + before + next + all[n..];
    SurvivesPrefix(cfgs, log + before + next, all[n..]);
  }

  lemma LastStepFits(cfgs: seq<Config>, log: seq<Op>, op: Op)
    requires Survives(cfgs, log + [op])
    ensures StepFits(cfgs, Run(cfgs, log), op)
  {
    hide StepFits;
    assert (log + [op])[..|log|] == log;
  }

  /** Configs with distinct keys do not change each other's slots, so a merge that fits before the
      point is recorded fits when its turn comes. */
  lemma FitsInTurn(cfgs: seq<Config>, j: nat, st: State, r: Recorded)
    requires j < |cfgs| && DistinctKeys(cfgs) && ApplyFits(cfgs[j], st, r)
    ensures ApplyFits(cfgs[j], ApplyAll(cfgs[..j], st, r), r)
  {
    hide GroupOf, Fits;
    OthersUntouched(cfgs[..j], st, r, SlotFor(cfgs[j], r));
  }

  /** The same for one config and group. */
  predicate GroupFits(c: Config, g: string, st: State, op: Op) {
    op.Record? && IsFor(c, op.point) && GroupOf(c, op.point) == g ==> ApplyFits(c, st, op.point)
  }

  /** All merges of the histogram points of one config and group stay in range. */
  predicate AllFit(c: Config, g: string, ops: seq<Op>) {
    c.typ in {Sum, Percentile} ==> MergesFit(HistsFor(c, g, ops))
  }

  lemma OneMoreMergeFits(hs: seq<Hist>, h: Hist)
    ensures MergesFit(hs + [h]) <==> MergesFit(hs) && Fits(h, Fold(hs))
  {
    assert (hs + [h])[..|hs|] == hs;
  }

  lemma OneMoreOpFits(cfgs: seq<Config>, init: seq<Op>, op: Op, c: Config, g: string)
    requires DistinctKeys(cfgs) && c in cfgs
    ensures AllFit(c, g, init + [op]) <==> AllFit(c, g, init) && GroupFits(c, g, Run(cfgs, init), op)
  {
    hide Run, IsFor, GroupOf, Fold, Fits, MergesFit;
    SlotsAreNaive(cfgs, init, c, g);
    assert (init + [op])[..|init|] == init;
    if op.Record? && op.point.sample.HistSample? {
      OneMoreMergeFits(HistsFor(c, g, init), op.point.sample.hist);
      EmptyFold();
    }
  }

  lemma StepFitsEachGroup(cfgs: seq<Config>, st: State, op: Op)
    ensures StepFits(cfgs, st, op) <==> forall c, g :: c in cfgs ==> GroupFits(c, g, st, op)
  {
    hide IsFor, GroupOf, ApplyFits;
    if (forall c, g :: c in cfgs ==> GroupFits(c, g, st, op)) && op.Record? {
      forall c | c in cfgs && IsFor(c, op.point)
        ensures ApplyFits(c, st, op.point)
      {
        assert GroupFits(c, GroupOf(c, op.point), st, op);
      }
    }
  }

  lemma NothingFits(c: Config, g: string)
    ensures AllFit(c, g, [])
  {
  }

  /** A run stays in range exactly when for every config that merges histograms and every group the
      merges of the matching points do. */
  lemma {:induction false} SurvivesExactly(cfgs: seq<Config>, ops: seq<Op>)
    requires DistinctKeys(cfgs)
    ensures Survives(cfgs, ops) <==> forall c, g :: c in cfgs ==> AllFit(c, g, ops)
  {
    hide Run, AllFit, StepFits, GroupFits, DistinctKeys;
    if ops == [] {
      forall c, g
        ensures AllFit(c, g, ops)
      {
        NothingFits(c, g);
      }
    } else {
      var init, op := ops[..|ops| - 1], ops[|ops| - 1];
      assert ops == init + [op];
      SurvivesExactly(cfgs, init);
      StepFitsEachGroup(cfgs, Run(cfgs, init), op);
      forall c, g | c in cfgs
        ensures AllFit(c, g, ops) <==> AllFit(c, g, init) && GroupFits(c, g, Run(cfgs, init), op)
      {
        OneMoreOpFits(cfgs, init, op, c, g);
      }
    }
  }

  predicate AllWellFormed(ops: seq<Op>) {
    forall i :: 0 <= i < |ops| && ops[i].Record? && ops[i].point.sample.HistSample? ==>
      WellFormed(ops[i].point.sample.hist)
  }

  lemma {:induction false} HistsForWellFormed(c: Config, g: string, ops: seq<Op>)
    requires AllWellFormed(ops)
    ensures forall i :: 0 <= i < |HistsFor(c, g, ops)| ==> WellFormed(HistsFor(c, g, ops)[i])
  {
    if ops != [] {
      HistsForWellFormed(c, g, ops[..|ops| - 1]);
    }
  }

  /** Histogram points of the usual shape never lead out of range, whatever their counts. */
  lemma WellFormedSurvives(cfgs: seq<Config>, ops: seq<Op>)
    requires DistinctKeys(cfgs) && ValidOps(ops) && AllWellFormed(ops)
    ensures Survives(cfgs, ops) && forall c :: c in cfgs ==> Answerable(c, ops)
  {
    hide HistsFor, Survives, InRange, WellFormed, MergesFit, Fold;
    forall c, g
      ensures AllFit(c, g, ops) && (HistsFor(c, g, ops) != [] ==> InRange(Fold(HistsFor(c, g, ops))))
    {
      HistsForWellFormed(c, g, ops);
      WellFormedStaysInRange(HistsFor(c, g, ops));
    }
    SurvivesExactly(cfgs, ops);
  }

  // ---------------------------------------------------------------- what a reset leaves

  /** There are no slots of keys that are not configured. */
  lemma {:induction false} OnlyConfiguredKeys(cfgs: seq<Config>, ops: seq<Op>, s: Slot)
    requires s in Run(cfgs, ops).hists
    ensures exists c :: c in cfgs && c.key == s.key
  {
    if ops != [] {
      var init, op := ops[..|ops| - 1], ops[|ops| - 1];
      if s in Run(cfgs, init).hists {
        OnlyConfiguredKeys(cfgs, init, s);
      } else {
        var r := op.point;
        var found := Scan(cfgs, r.name, r.attrs, r.resAttrs);
        if forall c :: c in found ==> SlotFor(c, r) != s {
          OthersUntouched(found, Run(cfgs, init), r, s);
        }
      }
    }
  }

  /** A reset empties the store exactly when no histogram point was recorded before it: histogram
      slots are not deleted. */
  lemma ResetEmptiesExactly(cfgs: seq<Config>, ops: seq<Op>)
    requires DistinctKeys(cfgs)
    ensures Run(cfgs, ops + [Reset]) == EMPTY_STATE <==> forall c :: c in cfgs ==> HistGroups(c, ops) == {}
  {
    hide Run, HistsFor, HistGroups, NaiveHist;
    RunExtends(cfgs, ops, Reset);
    var hists := Run(cfgs, ops).hists;
    forall c, g | c in cfgs
      ensures g in HistGroups(c, ops) <==> Slot(c.key, g) in hists
    {
      SlotsAreNaive(cfgs, ops, c, g);
    }
    forall s | s in hists
      ensures exists c :: c in cfgs && s.group in HistGroups(c, ops)
    {
      OnlyConfiguredKeys(cfgs, ops, s);
      var c :| c in cfgs && c.key == s.key;
      assert s == Slot(c.key, s.group);
    }
  }

  const LAST_OF_M := Config("k", "m", map[], Last, 0.0, "")

  const SUM_OF_M := LAST_OF_M.(typ := Sum)

  /** A point of the metric "m" without attributes. */
  function PointOfM(sample: Sample): Op {
    Record(Recorded("m", [], [], sample))
  }

  lemma ApplyOne(c: Config, st: State, r: Recorded)
    ensures ApplyAll([c], st, r) == Apply(c, st, r)
  {
    hide Apply;
    assert [c][..0] == [] && ApplyAll([], st, r) == st;
  }

  lemma RunNext(c: Config, ops: seq<Op>, sample: Sample)
    requires c.name == "m" && c.labels == map[] && c.groupBy == ""
    ensures Run([c], ops + [PointOfM(sample)]) == Apply(c, Run([c], ops), PointOfM(sample).point)
    ensures SlotFor(c, PointOfM(sample).point) == Slot(c.key, "")
  {
    hide Apply;
    var r := PointOfM(sample).point;
    RunExtends([c], ops, PointOfM(sample));
    assert Scan([c], r.name, r.attrs, r.resAttrs) == [c] by {
      assert [c][..0] == [] && Scan([], r.name, r.attrs, r.resAttrs) == [];
      assert Matches(c, r.name, r.attrs, r.resAttrs);
    }
    ApplyOne(c, Run([c], ops), r);
  }

  /** What the first and the next point of "m" do to a store with one such config. */
  lemma RunOne(c: Config, sample: Sample)
    requires c.name == "m" && c.labels == map[] && c.groupBy == ""
    ensures Run([c], [PointOfM(sample)]) == Apply(c, EMPTY_STATE, PointOfM(sample).point)
    ensures SlotFor(c, PointOfM(sample).point) == Slot(c.key, "")
  {
    RunNext(c, [], sample);
    assert [] + [PointOfM(sample)] == [PointOfM(sample)];
    assert Run([c], []) == EMPTY_STATE;
  }

  /** One histogram point outlives a reset. */
  lemma ResetKeepsHistograms(sort: Quantile.Sorter, h: Hist)
    requires h.count != 0
    ensures var ops := [PointOfM(HistSample(h))];
            && Answer(sort, SUM_OF_M, Run([SUM_OF_M], ops)) == map["" := Num(h.sum)]
            && Answer(sort, SUM_OF_M, Run([SUM_OF_M], ops + [Reset])) == map["" := Num(h.sum)]
  {
    hide Run;
    RunOne(SUM_OF_M, HistSample(h));
    RunExtends([SUM_OF_M], [PointOfM(HistSample(h))], Reset);
    FirstPoint(h);
    var st := State(map[], map[Slot("k", "") := h]);
    SlotsAnswer(sort, SUM_OF_M, st, map["" := Num(h.sum)]);
  }

  // ---------------------------------------------------------------- two kinds of points in a group

  /** A group that holds number points and histogram points reports its histograms. Its number answer
      is reported exactly when it has no histogram point, or the two happen to agree. */
  lemma NumberAnswerShowsExactly(sort: Quantile.Sorter, cfgs: seq<Config>, ops: seq<Op>, c: Config, g: string)
    requires DistinctKeys(cfgs) && c in cfgs && Answerable(c, ops) && g in NumberGroups(c, ops)
    ensures Readable(c, Run(cfgs, ops)) && g in Answer(sort, c, Run(cfgs, ops))
    ensures var number := NumberAnswer(c.typ, NaiveNumber(c.typ, NumbersFor(c, g, ops)));
            Answer(sort, c, Run(cfgs, ops))[g] == Num(number) <==>
              || g !in HistGroups(c, ops)
              || match c.typ
                 case Percentile => PercentileOf(sort, c.percentile, Fold(HistsFor(c, g, ops))) == Num(0.0)
                 case Sum => number == Fold(HistsFor(c, g, ops)).sum
                 case _ => number == 0.0
  {
    AnswerIsNaive(sort, cfgs, ops, c);
    hide Run, Answer, NumbersFor, HistsFor, NumberGroups, HistGroups, NaiveNumber, Fold, PercentileOf, InRange,
      Readable;
  }

  /** A last value of 5 turns to 0 when a histogram point arrives under the same name. */
  lemma HistogramHidesNumber(sort: Quantile.Sorter, h: Hist, time: uint64)
    requires h.count != 0
    ensures var five := PointOfM(NumberSample(NumberPoint(IntValue(5), 0, time)));
            && Answer(sort, LAST_OF_M, Run([LAST_OF_M], [five])) == map["" := Num(5.0)]
            && Answer(sort, LAST_OF_M, Run([LAST_OF_M], [five, PointOfM(HistSample(h))])) == map["" := Num(0.0)]
  {
    hide Run;
    var number := NumberSample(NumberPoint(IntValue(5), 0, time));
    RunOne(LAST_OF_M, number);
    RunNext(LAST_OF_M, [PointOfM(number)], HistSample(h));
    var st := State(map[Slot("k", "") := NumberState(5.0, 0, 0)], map[]);
    SlotsAnswer(sort, LAST_OF_M, st, map["" := Num(5.0)]);
    SlotsAnswer(sort, LAST_OF_M, st.(hists := map[Slot("k", "") := NEW_HIST]), map["" := Num(0.0)]);
    assert [PointOfM(number), PointOfM(HistSample(h))] == [PointOfM(number)] + [PointOfM(HistSample(h))];
  }

  const MAX_OF_M := LAST_OF_M.(typ := Max)

  /** The maximum of a single negative value is reported as 0. */
  lemma NegativeMaximum(sort: Quantile.Sorter, time: uint64)
    ensures var minus5 := PointOfM(NumberSample(NumberPoint(IntValue(-5), 0, time)));
            Answer(sort, MAX_OF_M, Run([MAX_OF_M], [minus5])) == map["" := Num(0.0)]
  {
    hide Run;
    RunOne(MAX_OF_M, NumberSample(NumberPoint(IntValue(-5), 0, time)));
    SlotsAnswer(sort, MAX_OF_M, State(map[Slot("k", "") := NEW_NUMBER], map[]), map["" := Num(0.0)]);
  }
}
