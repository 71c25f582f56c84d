/**
  The in-memory metric store as a class: two indexes fixed at creation and two maps of slots that
  Add and Reset update in place. `Valid()` ties the slots to the list of everything added so far,
  so that what Get and GetAll return is stated in terms of that list alone.

  The maps from key to group to slot are kept as one map from (key, group) pairs.
*/
module Store {
  import opened Basics
  import opened Aggregation
  import opened Histogram
  import opened Slots
  import opened Recording
  import opened StoredHistograms
  import Answers
  import Quantile

  // ---------------------------------------------------------------- unnamed metrics

  lemma {:induction false} NotNamedNotScanned(cfgs: seq<Config>, r: Recorded)
    requires ByName(cfgs, r.name) == []
    ensures Scan(cfgs, r.name, r.attrs, r.resAttrs) == []
  {
    ScanByName(cfgs, r.name, r.attrs, r.resAttrs);
  }

  predicate AllNamed(ops: seq<Op>, name: string) {
    forall i :: 0 <= i < |ops| ==> ops[i].Record? && ops[i].point.name == name
  }

  lemma NothingApplied(st: State, r: Recorded)
    ensures ApplyAll([], st, r) == st
  {
  }

  /** The fast fail on metric names without a config skips points that no config would match. */
  lemma {:induction false} UnnamedPointsDoNothing(cfgs: seq<Config>, log: seq<Op>, ops: seq<Op>, name: string)
    requires AllNamed(ops, name) && ByName(cfgs, name) == []
    ensures Run(cfgs, log + ops) == Run(cfgs, log)
  {
    hide Run, ByName, Scan, ApplyAll;
    if ops == [] {
      assert log + ops == log;
    } else {
      var init, op := ops[..|ops| - 1], ops[|ops| - 1];
      UnnamedPointsDoNothing(cfgs, log, init, name);
      NotNamedNotScanned(cfgs, op.point);
      RunExtends(cfgs, log + init, op);
      NothingApplied(Run(cfgs, log), op.point);
      assert log + ops == log + init + [op];
    }
  }

  lemma {:induction false} NumberOpsNamed(name: string, ps: seq<NumberDP>, resAttrs: Attributes)
    ensures AllNamed(NumberOps(name, ps, resAttrs), name)
  {
    if ps != [] { NumberOpsNamed(name, ps[..|ps| - 1], resAttrs); }
  }

  lemma {:induction false} HistOpsNamed(name: string, hs: seq<HistDP>, resAttrs: Attributes)
    ensures AllNamed(HistOps(name, hs, resAttrs), name)
  {
    if hs != [] { HistOpsNamed(name, hs[..|hs| - 1], resAttrs); }
  }

  lemma MetricOpsNamed(m: Metric, resAttrs: Attributes)
    ensures AllNamed(MetricOps(m, resAttrs), m.name)
  {
    match m.data
    case Gauge(ps) => NumberOpsNamed(m.name, ps, resAttrs);
    case Total(_, ps) => NumberOpsNamed(m.name, ps, resAttrs);
    case Distribution(_, hs) => HistOpsNamed(m.name, hs, resAttrs);
    case Unsupported =>
  }

  // ---------------------------------------------------------------- slots as objects

  /** A stored number data point. */
  class NumberDataPoint {
    var value: real
    var start: uint64
    var timestamp: uint64

    function View(): NumberState
      reads this
    {
      NumberState(value, start, timestamp)
    }

    constructor ()
      ensures View() == NEW_NUMBER
    {
      value, start, timestamp := 0.0, 0, 0;
    }
  }

  /** The aggregation of one number data point into a slot. */
  method MergeNumber(typ: AggregationType, dp: NumberPoint, to: NumberDataPoint)
    modifies to
    ensures to.View() == UpdateNumber(typ, dp, old(to.View()))
  {
    match typ
    case Last =>
      to.value := DoubleOf(dp);
    case Max =>
      var newVal := DoubleOf(dp);
      if newVal > to.value { to.value := newVal; }
    case Sum =>
      to.value := to.value + DoubleOf(dp);
    case Rate =>
      var val := DoubleOf(dp);
      if val != 0.0 {
        to.value := to.value + val;
        if to.start == 0 {
          if dp.start != 0 { to.start := dp.start; } else { to.start := dp.timestamp; }
        }
        if to.timestamp < dp.timestamp { to.timestamp := dp.timestamp; }
      }
    case _ =>
  }

  method GetHistAggByType(sort: Quantile.Sorter, cfg: Config, dp: HistogramDataPoint) returns (r: Float)
    requires cfg.typ == Percentile ==> InRange(dp.View())
    ensures r == HistAnswer(sort, cfg, dp.View())
    ensures cfg.typ == Percentile && 0.0 <= cfg.percentile <= 100.0 && Proper(dp.View()) && dp.count != 0 ==>
              r.Num? && IsPercentilePoint(dp.View(), cfg.percentile, r.r)
  {
    hide IsPercentilePoint, Proper;
    if cfg.typ == Percentile && 0.0 <= cfg.percentile <= 100.0 && Proper(dp.View()) && dp.count != 0 {
      ProperHas(dp.View());
      PercentileOfProper(sort, cfg.percentile, dp.View());
    }
    match cfg.typ
    case Percentile =>
      var buckets := ExplicitBucketsFromHistogramDataPoint(dp);
      r := Quantile.DeltaExplicitBucketsQuantile(sort, Num(ToQuantile(cfg.percentile)), buckets);
    case Sum =>
      r := Num(dp.sum);
    case _ =>
      r := Num(0.0);
  }

  // ---------------------------------------------------------------- the store

  class Store {
    const sort: Quantile.Sorter
    const keyM: map<string, Config>
    const nameM: map<string, seq<Config>>
    var nums: map<Slot, NumberDataPoint>
    var hists: map<Slot, HistogramDataPoint>

    ghost const configs: seq<Config>
    ghost var log: seq<Op>
    ghost var Repr: set<object>

    /** Every slot has an object of its own. */
    ghost predicate Separate()
      reads this`nums, this`hists, this`Repr
    {
      && this !in Repr
      && (forall s :: s in nums ==> nums[s] in Repr)
      && (forall s :: s in hists ==> hists[s] in Repr)
      && (forall s, t :: s in nums && t in nums && nums[s] == nums[t] ==> s == t)
      && (forall s, t :: s in hists && t in hists && hists[s] == hists[t] ==> s == t)
    }

    ghost function NumsView(): map<Slot, NumberState>
      requires Separate()
      reads this`nums, this`hists, this`Repr, Repr
    {
      map s | s in nums :: nums[s].View()
    }

    ghost function HistsView(): map<Slot, Hist>
      requires Separate()
      reads this`nums, this`hists, this`Repr, Repr
    {
      map s | s in hists :: hists[s].View()
    }

    ghost function View(): State
      requires Separate()
      reads this`nums, this`hists, this`Repr, Repr
    {
      State(NumsView(), HistsView())
    }

    /** The slots are what the log of added points and resets leads to. */
    ghost predicate Valid()
      reads this, Repr
    {
      && Separate()
      && ValidList(configs) && IndexesList(configs, keyM, nameM)
      && ValidOps(log)
      && View() == Run(configs, log)
    }

    constructor (sort: Quantile.Sorter, ghost cfgs: seq<Config>, indexes: Indexes)
      requires ValidList(cfgs) && IndexesList(cfgs, indexes.keyM, indexes.nameM)
      ensures Valid() && configs == cfgs && log == [] && fresh(Repr) && this.sort == sort
    {
      this.sort := sort;
      keyM, nameM := indexes.keyM, indexes.nameM;
      nums, hists := map[], map[];
      configs, log, Repr := cfgs, [], {};
    }

    /** Finds or creates the number slot of a config and group. */
    method NumberMergeTo(cfg: Config, attrs: Attributes, resAttrs: Attributes)
      returns (to: NumberDataPoint, ghost slot: Slot)
      requires Separate()
      modifies this`nums, this`Repr
      ensures slot == Slot(cfg.key, AsString(GetValueFromMaps(cfg.groupBy, attrs, resAttrs)))
      ensures IsGroup(cfg, attrs, resAttrs, slot.group)
      ensures Separate() && nums == old(nums)[slot := to] && Repr == old(Repr) + {to}
      ensures to in old(Repr) || fresh(to)
      ensures if slot in old(nums) then to == old(nums)[slot] else fresh(to) && to.View() == NEW_NUMBER
    {
      var found := Slot(cfg.key, AsString(GetValueFromMaps(cfg.groupBy, attrs, resAttrs)));
      if found !in nums {
        var created := new NumberDataPoint();
        nums := nums[found := created];
        Repr := Repr + {created};
      }
      to, slot := nums[found], found;
      GroupByPosition(cfg, attrs, resAttrs, found.group);
    }

    /** Finds or creates the histogram slot of a config and group. */
    method HistMergeTo(cfg: Config, attrs: Attributes, resAttrs: Attributes)
      returns (to: HistogramDataPoint, ghost slot: Slot)
      requires Separate()
      modifies this`hists, this`Repr
      ensures slot == Slot(cfg.key, AsString(GetValueFromMaps(cfg.groupBy, attrs, resAttrs)))
      ensures IsGroup(cfg, attrs, resAttrs, slot.group)
      ensures Separate() && hists == old(hists)[slot := to] && Repr == old(Repr) + {to}
      ensures to in old(Repr) || fresh(to)
      ensures if slot in old(hists) then to == old(hists)[slot] else fresh(to) && to.View() == NEW_HIST
    {
      var found := Slot(cfg.key, AsString(GetValueFromMaps(cfg.groupBy, attrs, resAttrs)));
      if found !in hists {
        var created := new HistogramDataPoint();
        hists := hists[found := created];
        Repr := Repr + {created};
      }
      to, slot := hists[found], found;
      GroupByPosition(cfg, attrs, resAttrs, found.group);
    }

    /** Updating the object of one slot changes the view at this slot only. */
    twostate lemma OneNumberChanged(new to: NumberDataPoint, s: Slot)
      requires old(Separate()) && Separate()
      requires nums == old(nums)[s := to] && hists == old(hists)
      requires forall o :: o in old(Repr) && o != to ==> unchanged(o)
      ensures NumsView() == old(NumsView())[s := to.View()]
      ensures HistsView() == old(HistsView())
    {
      hide NumberDataPoint.View, HistogramDataPoint.View;
      forall t | t in nums && t != s
        ensures t in old(nums) && nums[t].View() == old(nums[t].View())
      {
        assert nums[t] != nums[s];
      }
      forall t | t in hists
        ensures hists[t].View() == old(hists[t].View())
      {
        assert hists[t] as object != to;
      }
    }

    twostate lemma OneHistChanged(new to: HistogramDataPoint, s: Slot)
      requires old(Separate()) && Separate()
      requires hists == old(hists)[s := to] && nums == old(nums)
      requires forall o :: o in old(Repr) && o != to ==> unchanged(o)
      ensures HistsView() == old(HistsView())[s := to.View()]
      ensures NumsView() == old(NumsView())
    {
      hide NumberDataPoint.View, HistogramDataPoint.View;
      forall t | t in hists && t != s
        ensures t in old(hists) && hists[t].View() == old(hists[t].View())
      {
        assert hists[t] != hists[s];
      }
      forall t | t in nums
        ensures nums[t].View() == old(nums[t].View())
      {
        assert nums[t] as object != to;
      }
    }

    /** Records a number point under one config. */
    method ApplyNumber(cfg: Config, attrs: Attributes, resAttrs: Attributes, dp: NumberPoint, ghost r: Recorded)
      requires Separate()
      requires attrs == r.attrs && resAttrs == r.resAttrs && r.sample == NumberSample(dp)
      modifies this`nums, this`Repr, Repr
      ensures Separate() && fresh(Repr - old(Repr)) && log == old(log)
      ensures View() == Apply(cfg, old(View()), r)
    {
      hide UpdateNumber, GetValueFromMaps, Separate, NumberDataPoint.View;
      var to, slot := NumberMergeTo(cfg, attrs, resAttrs);
      assert to.View() == OrNew(NumberAt(old(View()), slot), NEW_NUMBER);
      MergeNumber(cfg.typ, dp, to);
      OneNumberChanged(to, slot);
    }

    /** Merges a histogram point into the slot of one config. */
    method ApplyHist(cfg: Config, attrs: Attributes, resAttrs: Attributes, dp: Hist, ghost r: Recorded)
      requires Separate() && ApplyFits(cfg, View(), r)
      requires attrs == r.attrs && resAttrs == r.resAttrs && r.sample == HistSample(dp)
      modifies this`hists, this`Repr, Repr
      ensures Separate() && fresh(Repr - old(Repr)) && log == old(log)
      ensures View() == Apply(cfg, old(View()), r)
    {
      hide Merge, GetValueFromMaps, Separate, HistogramDataPoint.View;
      var to, slot := HistMergeTo(cfg, attrs, resAttrs);
      assert to.View() == OrNew(HistAt(old(View()), slot), NEW_HIST);
      if MergesHistograms(cfg.typ) {
        AddHistogramDataPoint(dp, to);
      }
      OneHistChanged(to, slot);
    }

    method MergeNumberDataPoints(name: string, from: seq<NumberDP>, resAttrs: Attributes)
      requires Valid()
      modifies this`nums, this`Repr, this`log, Repr
      ensures Valid() && fresh(Repr - old(Repr))
      ensures log == old(log) + NumberOps(name, from, resAttrs)
    {
      hide Valid;
      for i := 0 to |from|
        invariant Valid() && fresh(Repr - old(Repr))
        invariant log == old(log) + NumberOps(name, from[..i], resAttrs)
      {
        var dp := from[i];
        RecordNumber(name, dp, resAttrs);
        assert from[..i + 1][..i] == from[..i];
      }
      assert from[..|from|] == from;
    }

    method ApplyNumberToAll(cfgs: seq<Config>, dp: NumberDP, resAttrs: Attributes, ghost r: Recorded)
      requires Separate()
      requires dp.attrs == r.attrs && resAttrs == r.resAttrs && r.sample == NumberSample(dp.point)
      modifies this`nums, this`Repr, Repr
      ensures Separate() && fresh(Repr - old(Repr)) && log == old(log)
      ensures View() == ApplyAll(cfgs, old(View()), r)
    {
      hide Apply, Separate, View;
      for j := 0 to |cfgs|
        invariant Separate() && fresh(Repr - old(Repr)) && log == old(log)
        invariant View() == ApplyAll(cfgs[..j], old(View()), r)
      {
        ApplyNumber(cfgs[j], dp.attrs, resAttrs, dp.point, r);
        assert cfgs[..j + 1][..j] == cfgs[..j];
      }
      assert cfgs[..|cfgs|] == cfgs;
    }

    method RecordNumber(name: string, dp: NumberDP, resAttrs: Attributes)
      requires Valid()
      modifies this`nums, this`Repr, this`log, Repr
      ensures Valid() && fresh(Repr - old(Repr))
      ensures log == old(log) + [Record(Recorded(name, dp.attrs, resAttrs, NumberSample(dp.point)))]
    {
      ghost var r := Recorded(name, dp.attrs, resAttrs, NumberSample(dp.point));
      hide ApplyAll, Scan, IndexesList, ValidList, NumsView, HistsView, Run;
      var cfgs := FilterConfigs(configs, keyM, nameM, name, dp.attrs, resAttrs);
      ApplyNumberToAll(cfgs, dp, resAttrs, r);
      log := log + [Record(r)];
      RunExtends(configs, old(log), Record(r));
    }

    method MergeHistogramDataPoints(name: string, from: seq<HistDP>, resAttrs: Attributes)
      requires Valid() && Survives(configs, log + HistOps(name, from, resAttrs))
      modifies this`hists, this`Repr, this`log, Repr
      ensures Valid() && fresh(Repr - old(Repr))
      ensures log == old(log) + HistOps(name, from, resAttrs)
    {
      hide Valid, HistOps, Survives;
      NoOps(name, resAttrs);
      for i := 0 to |from|
        invariant Valid() && fresh(Repr - old(Repr))
        invariant log == old(log) + HistOps(name, from[..i], resAttrs)
      {
        var dp := from[i];
        HistOpsNext(name, from, i, resAttrs);
        if dp.hist.count == 0 { continue; }
        SurvivesNext(configs, old(log), HistOps(name, from[..i], resAttrs),
                     [Record(Recorded(name, dp.attrs, resAttrs, HistSample(dp.hist)))], HistOps(name, from, resAttrs));
        RecordHist(name, dp, resAttrs);
      }
      assert from[..|from|] == from;
    }

    method ApplyHistToAll(cfgs: seq<Config>, dp: HistDP, resAttrs: Attributes, ghost r: Recorded)
      requires Separate() && DistinctKeys(cfgs) && forall c :: c in cfgs ==> ApplyFits(c, View(), r)
      requires dp.attrs == r.attrs && resAttrs == r.resAttrs && r.sample == HistSample(dp.hist)
      modifies this`hists, this`Repr, Repr
      ensures Separate() && fresh(Repr - old(Repr)) && log == old(log)
      ensures View() == ApplyAll(cfgs, old(View()), r)
    {
      hide Apply, Separate, View;
      for j := 0 to |cfgs|
        invariant Separate() && fresh(Repr - old(Repr)) && log == old(log)
        invariant View() == ApplyAll(cfgs[..j], old(View()), r)
      {
        FitsInTurn(cfgs, j, old(View()), r);
        ApplyHist(cfgs[j], dp.attrs, resAttrs, dp.hist, r);
        assert cfgs[..j + 1][..j] == cfgs[..j];
      }
      assert cfgs[..|cfgs|] == cfgs;
    }

    method RecordHist(name: string, dp: HistDP, resAttrs: Attributes)
      requires Valid() && dp.hist.count != 0
      requires Survives(configs, log + [Record(Recorded(name, dp.attrs, resAttrs, HistSample(dp.hist)))])
      modifies this`hists, this`Repr, this`log, Repr
      ensures Valid() && fresh(Repr - old(Repr))
      ensures log == old(log) + [Record(Recorded(name, dp.attrs, resAttrs, HistSample(dp.hist)))]
    {
      ghost var r := Recorded(name, dp.attrs, resAttrs, HistSample(dp.hist));
      hide ApplyAll, Scan, IndexesList, ValidList, NumsView, HistsView, Run;
      var cfgs := FilterConfigs(configs, keyM, nameM, name, dp.attrs, resAttrs);
      KeysDistinct(configs);
      ScanDistinct(configs, r);
      LastStepFits(configs, log, Record(r));
      ApplyHistToAll(cfgs, dp, resAttrs, r);
      log := log + [Record(r)];
      RunExtends(configs, old(log), Record(r));
    }

    ghost method SkipUnnamed(m: Metric, resAttrs: Attributes)
      requires Valid() && m.name !in nameM
      modifies this`log
      ensures Valid() && log == old(log) + MetricOps(m, resAttrs)
    {
      hide Run, NumsView, HistsView, MetricOps, KeyIndex, ValidList, ByName, ValidOp;
      MetricOpsNamed(m, resAttrs);
      assert ByName(configs, m.name) == [];
      UnnamedPointsDoNothing(configs, log, MetricOps(m, resAttrs), m.name);
      log := log + MetricOps(m, resAttrs);
    }

    method AddMetric(m: Metric, resAttrs: Attributes)
      requires Valid() && Survives(configs, log + MetricOps(m, resAttrs))
      modifies this`nums, this`hists, this`Repr, this`log, Repr
      ensures Valid() && fresh(Repr - old(Repr))
      ensures log == old(log) + MetricOps(m, resAttrs)
      ensures exists added :: log == old(log) + added && IsRecording([ResourceMetrics(resAttrs, [[m]])], added)
    {
      hide Valid, IsRecording;
      OneMetricRecorded(m, resAttrs);
      if m.name !in nameM {
        SkipUnnamed(m, resAttrs);
        return;
      }
      match m.data
      case Gauge(ps) => MergeNumberDataPoints(m.name, ps, resAttrs);
      case Total(t, ps) =>
        if t == Cumulative { return; }
        MergeNumberDataPoints(m.name, ps, resAttrs);
      case Distribution(t, hs) =>
        if t == Cumulative { return; }
        MergeHistogramDataPoints(m.name, hs, resAttrs);
      case Unsupported =>
    }

    /** Adds a batch of metrics. The program checks no shape, so what it demands of the batch is that
        the run that the store has seen goes on without a merge out of range. */
    method Add(rms: seq<ResourceMetrics>)
      requires Valid() && Survives(configs, log + MetricsOps(rms))
      modifies this`nums, this`hists, this`Repr, this`log, Repr
      ensures Valid() && fresh(Repr - old(Repr))
      ensures log == old(log) + MetricsOps(rms)
      ensures exists added :: log == old(log) + added && IsRecording(rms, added)
    {
      hide Valid, MetricsOps, ResourceOps, Survives, IsRecording;
      NoOps("", []);
      for i := 0 to |rms|
        invariant Valid() && fresh(Repr - old(Repr))
        invariant log == old(log) + MetricsOps(rms[..i])
      {
        var rm := rms[i];
        MetricsOpsNext(rms, i);
        SurvivesNext(configs, old(log), MetricsOps(rms[..i]), ResourceOps(rm, |rm.scopes|), MetricsOps(rms));
        AddResource(rm);
      }
      assert rms[..|rms|] == rms;
      RecordedExactly(rms);
    }

    method AddResource(rm: ResourceMetrics)
      requires Valid() && Survives(configs, log + ResourceOps(rm, |rm.scopes|))
      modifies this`nums, this`hists, this`Repr, this`log, Repr
      ensures Valid() && fresh(Repr - old(Repr))
      ensures log == old(log) + ResourceOps(rm, |rm.scopes|)
    {
      hide Valid, ScopeOps, Survives;
      for j := 0 to |rm.scopes|
        invariant Valid() && fresh(Repr - old(Repr))
        invariant log == old(log) + ResourceOps(rm, j)
      {
        ResourceOpsGrow(rm, j + 1, |rm.scopes|);
        SurvivesNext(configs, old(log), ResourceOps(rm, j), ScopeOps(rm.scopes[j], rm.resAttrs),
                     ResourceOps(rm, |rm.scopes|));
        AddScope(rm.scopes[j], rm.resAttrs);
      }
    }

    method AddScope(ms: seq<Metric>, resAttrs: Attributes)
      requires Valid() && Survives(configs, log + ScopeOps(ms, resAttrs))
      modifies this`nums, this`hists, this`Repr, this`log, Repr
      ensures Valid() && fresh(Repr - old(Repr))
      ensures log == old(log) + ScopeOps(ms, resAttrs)
    {
      hide Valid, ScopeOps, MetricOps, Survives;
      NoOps("", resAttrs);
      for k := 0 to |ms|
        invariant Valid() && fresh(Repr - old(Repr))
        invariant log == old(log) + ScopeOps(ms[..k], resAttrs)
      {
        ScopeOpsNext(ms, k, resAttrs);
        SurvivesNext(configs, old(log), ScopeOps(ms[..k], resAttrs), MetricOps(ms[k], resAttrs),
                     ScopeOps(ms, resAttrs));
        AddMetric(ms[k], resAttrs);
      }
      assert ms[..|ms|] == ms;
    }

    /** Deletes the number slots; histogram slots stay. */
    method Reset()
      requires Valid()
      modifies this`nums, this`log
      ensures Valid() && log == old(log) + [Op.Reset]
    {
      hide Run, IndexesList, ValidList, HistogramDataPoint.View;
      nums := map[];
      log := log + [Op.Reset];
      RunExtends(configs, old(log), Op.Reset);
      assert NumsView() == map[];
      assert HistsView() == old(HistsView());
    }

    // ---------------------------------------------------------------- queries

    method BuildAnswer(cfg: Config) returns (m: map<string, Float>)
      requires Separate() && Readable(cfg, View())
      ensures m == Answer(sort, cfg, View())
    {
      hide HistAnswer, NumberAnswer, Separate, Readable;
      var numSlots := set s | s in nums && s.key == cfg.key;
      var histSlots := set s | s in hists && s.key == cfg.key;
      assert forall s :: s in numSlots <==> s in View().nums && s.key == cfg.key;
      assert forall s :: s in histSlots <==> s in View().hists && s.key == cfg.key;
      if numSlots == {} && histSlots == {} {
        assert GroupsOf(View().nums, cfg.key) == {} && GroupsOf(View().hists, cfg.key) == {};
        return map["" := Num(0.0)];
      }
      var fromNums := NumberAnswers(cfg, numSlots);
      var fromHists := HistAnswers(cfg, histSlots);
      m := fromNums + fromHists;
      hide Answer;
      SlotsAnswer(sort, cfg, View(), m);
    }

    method NumberAnswers(cfg: Config, slots: set<Slot>) returns (m: map<string, Float>)
      requires Separate()
      requires slots == set s | s in nums && s.key == cfg.key
      ensures forall g :: g in m <==> Slot(cfg.key, g) in nums
      ensures forall g :: g in m ==> m[g] == Num(NumberAnswer(cfg.typ, View().nums[Slot(cfg.key, g)]))
    {
      hide NumberAnswer, Separate;
      m := map[];
      var left := slots;
      while left != {}
        invariant left <= slots
        invariant forall g :: g in m <==> Slot(cfg.key, g) in slots - left
        invariant forall g :: g in m ==> m[g] == Num(NumberAnswer(cfg.typ, View().nums[Slot(cfg.key, g)]))
        decreases |left|
      {
        var s :| s in left;
        m := m[s.group := Num(NumberAnswer(cfg.typ, nums[s].View()))];
        left := left - {s};
      }
    }

    method HistAnswers(cfg: Config, slots: set<Slot>) returns (m: map<string, Float>)
      requires Separate() && Readable(cfg, View())
      requires slots == set s | s in hists && s.key == cfg.key
      ensures forall g :: g in m <==> Slot(cfg.key, g) in hists
      ensures forall g :: g in m ==> m[g] == HistAnswer(sort, cfg, View().hists[Slot(cfg.key, g)])
    {
      hide HistAnswer, Separate, InRange, HistogramDataPoint.View;
      m := map[];
      var left := slots;
      while left != {}
        invariant left <= slots
        invariant forall g :: g in m <==> Slot(cfg.key, g) in slots - left
        invariant forall g :: g in m ==> m[g] == HistAnswer(sort, cfg, View().hists[Slot(cfg.key, g)])
        decreases |left|
      {
        var s :| s in left;
        var v := GetHistAggByType(sort, cfg, hists[s]);
        m := m[s.group := v];
        left := left - {s};
      }
    }

    /** The answer for one config, computed from the slots, is the one recomputed from the log. */
    method AnswerFor(cfg: Config) returns (m: map<string, Float>)
      requires Valid() && cfg in configs && Answerable(cfg, log)
      ensures m == NaiveAnswer(sort, cfg, log) && Answers.IsAnswer(sort, cfg, log, m)
    {
      hide Separate, View, Run, ValidList, KeyIndex, NameIndex, Answer, NaiveAnswer, Readable, Answerable,
        Answers.IsAnswer, ValidOp;
      KeysDistinct(configs);
      Answers.AnswerIs(sort, cfg, log);
      AnswerIsNaive(sort, configs, log, cfg);
      m := BuildAnswer(cfg);
    }

    /** The answer for a configured key, recomputed from all that was added; an error for any other. */
    method Get(key: string) returns (r: Result<map<string, Float>, string>)
      requires Valid() && forall c :: c in configs && c.key == key ==> Answerable(c, log)
      ensures r.Ok? <==> exists c :: c in configs && c.key == key
      ensures forall c :: c in configs && c.key == key ==>
                r == Ok(NaiveAnswer(sort, c, log)) && Answers.IsAnswer(sort, c, log, r.value)
    {
      hide NaiveAnswer, Answers.IsAnswer, Separate, View, Run, ValidList, NameIndex, Answerable;
      if key !in keyM { return Err(key); }
      var m := AnswerFor(keyM[key]);
      r := Ok(m);
    }

    /** The answers for all configured keys; each agrees with Get. */
    method GetAll() returns (m: map<string, map<string, Float>>)
      requires Valid() && forall c :: c in configs ==> Answerable(c, log)
      ensures m.Keys == set c | c in configs :: c.key
      ensures forall c :: c in configs ==>
                m[c.key] == NaiveAnswer(sort, c, log) && Answers.IsAnswer(sort, c, log, m[c.key])
    {
      hide NaiveAnswer, Answers.IsAnswer, Separate, View, Run, ValidList, NameIndex, Answerable;
      m := map[];
      var keys := keyM.Keys;
      while keys != {}
        invariant keys <= keyM.Keys && m.Keys == keyM.Keys - keys
        invariant forall k :: k in m ==>
                    m[k] == NaiveAnswer(sort, keyM[k], log) && Answers.IsAnswer(sort, keyM[k], log, m[k])
        decreases |keys|
      {
        var k :| k in keys;
        var answer := AnswerFor(keyM[k]);
        m := m[k := answer];
        keys := keys - {k};
      }
    }
  }

  /** Creates a store for a valid config list, and fails for any other. */
  method NewStore(sort: Quantile.Sorter, aggs: seq<Config>) returns (r: Result<Store, ConfigError>)
    ensures r.Ok? <==> ValidList(aggs)
    ensures r.Ok? ==> r.value.Valid() && r.value.configs == aggs && r.value.log == []
    ensures r.Ok? ==> fresh(r.value) && fresh(r.value.Repr) && r.value.sort == sort
  {
    var grouped := ValidateAndGroup(aggs);
    if grouped.Err? { return Err(grouped.error); }
    var store := new Store(sort, aggs, grouped.value);
    return Ok(store);
  }
}
