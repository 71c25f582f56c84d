/**
  Incoming metrics, and which of their points are recorded. `MetricsOps` lists the points in the order
  of the program's loops; `RecordedExactly` says which points these are, by their positions alone.
*/
module Recording {
  import opened Aggregation
  import opened Histogram
  import opened Slots

  // ---------------------------------------------------------------- incoming metrics

  datatype Temporality = Unspecified | Delta | Cumulative

  datatype NumberDP = NumberDP(attrs: Attributes, point: NumberPoint)

  datatype HistDP = HistDP(attrs: Attributes, hist: Hist)

  datatype Data =
    | Gauge(numbers: seq<NumberDP>)
    | Total(temporality: Temporality, numbers: seq<NumberDP>)
    | Distribution(temporality: Temporality, hists: seq<HistDP>)
    | Unsupported

  datatype Metric = Metric(name: string, data: Data)

  datatype ResourceMetrics = ResourceMetrics(resAttrs: Attributes, scopes: seq<seq<Metric>>)

  // The points of a batch of metrics that are to be recorded, in order. Cumulative metrics,
  // unsupported metrics and empty histogram points are ignored.

  function NumberOps(name: string, ps: seq<NumberDP>, resAttrs: Attributes): (ops: seq<Op>)
    ensures ValidOps(ops)
  {
    if ps == [] then []
    else
      var p := ps[|ps| - 1];
      NumberOps(name, ps[..|ps| - 1], resAttrs) + [Record(Recorded(name, p.attrs, resAttrs, NumberSample(p.point)))]
  }

  function HistOps(name: string, hs: seq<HistDP>, resAttrs: Attributes): (ops: seq<Op>)
    ensures ValidOps(ops)
  {
    if hs == [] then []
    else
      var h := hs[|hs| - 1];
      HistOps(name, hs[..|hs| - 1], resAttrs)
      + (if h.hist.count == 0 then [] else [Record(Recorded(name, h.attrs, resAttrs, HistSample(h.hist)))])
  }

  function MetricOps(m: Metric, resAttrs: Attributes): (ops: seq<Op>)
    ensures ValidOps(ops)
  {
    match m.data
    case Gauge(ps) => NumberOps(m.name, ps, resAttrs)
    case Total(t, ps) => if t == Cumulative then [] else NumberOps(m.name, ps, resAttrs)
    case Distribution(t, hs) => if t == Cumulative then [] else HistOps(m.name, hs, resAttrs)
    case Unsupported => []
  }

  function ScopeOps(ms: seq<Metric>, resAttrs: Attributes): (ops: seq<Op>)
    ensures ValidOps(ops)
  {
    if ms == [] then [] else ScopeOps(ms[..|ms| - 1], resAttrs) + MetricOps(ms[|ms| - 1], resAttrs)
  }

  function ResourceOps(rm: ResourceMetrics, n: nat): (ops: seq<Op>)
    requires n <= |rm.scopes|
    ensures ValidOps(ops)
  {
    if n == 0 then [] else ResourceOps(rm, n - 1) + ScopeOps(rm.scopes[n - 1], rm.resAttrs)
  }

  function MetricsOps(rms: seq<ResourceMetrics>): (ops: seq<Op>)
    ensures ValidOps(ops)
  {
    if rms == [] then []
    else MetricsOps(rms[..|rms| - 1]) + ResourceOps(rms[|rms| - 1], |rms[|rms| - 1].scopes|)
  }

  lemma {:induction false} HistOpsGrow(name: string, hs: seq<HistDP>, n: nat, resAttrs: Attributes)
    requires n <= |hs|
    ensures HistOps(name, hs[..n], resAttrs) <= HistOps(name, hs, resAttrs)
    decreases |hs|
  {
    if n < |hs| {
      HistOpsGrow(name, hs[..|hs| - 1], n, resAttrs);
      assert hs[..|hs| - 1][..n] == hs[..n];
    } else {
      assert hs[..n] == hs;
    }
  }

  lemma HistOpsNext(name: string, hs: seq<HistDP>, i: nat, resAttrs: Attributes)
    requires i < |hs|
    ensures HistOps(name, hs[..i + 1], resAttrs) <= HistOps(name, hs, resAttrs)
    ensures HistOps(name, hs[..i + 1], resAttrs) == HistOps(name, hs[..i], resAttrs) +
              if hs[i].hist.count == 0 then []
              else [Record(Recorded(name, hs[i].attrs, resAttrs, HistSample(hs[i].hist)))]
  {
    assert hs[..i + 1][..i] == hs[..i] && hs[..i + 1][i] == hs[i];
    HistOpsGrow(name, hs, i + 1, resAttrs);
  }

  lemma {:induction false} ScopeOpsGrow(ms: seq<Metric>, n: nat, resAttrs: Attributes)
    requires n <= |ms|
    ensures ScopeOps(ms[..n], resAttrs) <= ScopeOps(ms, resAttrs)
    decreases |ms|
  {
    if n < |ms| {
      hide MetricOps;
      ScopeOpsGrow(ms[..|ms| - 1], n, resAttrs);
      assert ms[..|ms| - 1][..n] == ms[..n];
    } else {
      assert ms[..n] == ms;
    }
  }

  lemma ScopeOpsNext(ms: seq<Metric>, k: nat, resAttrs: Attributes)
    requires k < |ms|
    ensures ScopeOps(ms[..k + 1], resAttrs) <= ScopeOps(ms, resAttrs)
    ensures ScopeOps(ms[..k + 1], resAttrs) == ScopeOps(ms[..k], resAttrs) + MetricOps(ms[k], resAttrs)
  {
    hide MetricOps;
    assert ms[..k + 1][..k] == ms[..k] && ms[..k + 1][k] == ms[k];
    ScopeOpsGrow(ms, k + 1, resAttrs);
  }

  lemma {:induction false} ResourceOpsGrow(rm: ResourceMetrics, m: nat, n: nat)
    requires m <= n <= |rm.scopes|
    ensures ResourceOps(rm, m) <= ResourceOps(rm, n)
    decreases n
  {
    hide ScopeOps;
    if m < n { ResourceOpsGrow(rm, m, n - 1); }
  }

  lemma {:induction false} MetricsOpsGrow(rms: seq<ResourceMetrics>, n: nat)
    requires n <= |rms|
    ensures MetricsOps(rms[..n]) <= MetricsOps(rms)
    decreases |rms|
  {
    if n < |rms| {
      hide ResourceOps;
      MetricsOpsGrow(rms[..|rms| - 1], n);
      assert rms[..|rms| - 1][..n] == rms[..n];
    } else {
      assert rms[..n] == rms;
    }
  }

  lemma MetricsOpsNext(rms: seq<ResourceMetrics>, i: nat)
    requires i < |rms|
    ensures MetricsOps(rms[..i + 1]) <= MetricsOps(rms)
    ensures MetricsOps(rms[..i + 1]) == MetricsOps(rms[..i]) + ResourceOps(rms[i], |rms[i].scopes|)
  {
    hide ResourceOps;
    assert rms[..i + 1][..i] == rms[..i] && rms[..i + 1][i] == rms[i];
    MetricsOpsGrow(rms, i + 1);
  }

  /** A metric on its own. */
  lemma OneMetric(m: Metric, resAttrs: Attributes)
    ensures MetricsOps([ResourceMetrics(resAttrs, [[m]])]) == MetricOps(m, resAttrs)
  {
    hide MetricOps;
    var rm := ResourceMetrics(resAttrs, [[m]]);
    MetricsOpsNext([rm], 0);
    assert [rm][..0] == [] && [rm][..1] == [rm] && MetricsOps([]) == [];
    assert ResourceOps(rm, 1) == ResourceOps(rm, 0) + ScopeOps([m], resAttrs);
    ScopeOpsNext([m], 0, resAttrs);
    assert [m][..0] == [] && [m][..1] == [m] && ScopeOps([], resAttrs) == [];
  }

  lemma NoOps(name: string, resAttrs: Attributes)
    ensures HistOps(name, [], resAttrs) == [] && ScopeOps([], resAttrs) == [] && MetricsOps([]) == []
  {
  }

  // ---------------------------------------------------------------- by position

  /** The position of a data point in a batch. */
  datatype Place = Place(resource: nat, scope: nat, metric: nat, point: nat)

  predicate Before(a: Place, b: Place) {
    || a.resource < b.resource
    || (a.resource == b.resource && a.scope < b.scope)
    || (a.resource == b.resource && a.scope == b.scope && a.metric < b.metric)
    || (a.resource == b.resource && a.scope == b.scope && a.metric == b.metric && a.point < b.point)
  }

  /** There is a metric at the place. */
  predicate HasMetric(rms: seq<ResourceMetrics>, at: Place) {
    && at.resource < |rms|
    && at.scope < |rms[at.resource].scopes|
    && at.metric < |rms[at.resource].scopes[at.scope]|
  }

  function MetricAt(rms: seq<ResourceMetrics>, at: Place): Metric
    requires HasMetric(rms, at)
  {
    rms[at.resource].scopes[at.scope][at.metric]
  }

  /** There is a point at the place that is to be recorded: a point of a gauge, a point of a sum that
      is not cumulative, or a point with observations of a histogram that is not cumulative. */
  predicate IsRecorded(rms: seq<ResourceMetrics>, at: Place) {
    HasMetric(rms, at) &&
    match MetricAt(rms, at).data
    case Gauge(ps) => at.point < |ps|
    case Total(t, ps) => t != Cumulative && at.point < |ps|
    case Distribution(t, hs) => t != Cumulative && at.point < |hs| && hs[at.point].hist.count != 0
    case Unsupported => false
  }

  /** The point at the place under its metric's name, its own attributes and its resource's. */
  function RecordAt(rms: seq<ResourceMetrics>, at: Place): Op
    requires IsRecorded(rms, at)
  {
    var m, resAttrs := MetricAt(rms, at), rms[at.resource].resAttrs;
    match m.data
    case Gauge(ps) => Record(Recorded(m.name, ps[at.point].attrs, resAttrs, NumberSample(ps[at.point].point)))
    case Total(_, ps) => Record(Recorded(m.name, ps[at.point].attrs, resAttrs, NumberSample(ps[at.point].point)))
    case Distribution(_, hs) => Record(Recorded(m.name, hs[at.point].attrs, resAttrs, HistSample(hs[at.point].hist)))
  }

  /** The operations are those of the places, which are in order and are exactly those before `end` with
      a point that is to be recorded. */
  ghost predicate Lists(rms: seq<ResourceMetrics>, end: Place, places: seq<Place>, ops: seq<Op>) {
    && |places| == |ops|
    && (forall i, j :: 0 <= i < j < |places| ==> Before(places[i], places[j]))
    && (forall i :: 0 <= i < |places| ==>
          IsRecorded(rms, places[i]) && Before(places[i], end) && ops[i] == RecordAt(rms, places[i]))
    && (forall at :: IsRecorded(rms, at) && Before(at, end) ==> at in places)
  }

  /** The operations are, in order and each once, those of the points that are to be recorded. */
  ghost predicate IsRecording(rms: seq<ResourceMetrics>, ops: seq<Op>) {
    exists places :: Lists(rms, Place(|rms|, 0, 0, 0), places, ops)
  }

  lemma NothingListed(rms: seq<ResourceMetrics>)
    ensures Lists(rms, Place(0, 0, 0, 0), [], [])
  {
  }

  /** Past a point that is to be recorded. */
  lemma ListsPoint(rms: seq<ResourceMetrics>, at: Place, places: seq<Place>, ops: seq<Op>)
    requires IsRecorded(rms, at) && Lists(rms, at, places, ops)
    ensures Lists(rms, at.(point := at.point + 1), places + [at], ops + [RecordAt(rms, at)])
  {
    hide IsRecorded, RecordAt;
    var next := at.(point := at.point + 1);
    forall p | IsRecorded(rms, p) && Before(p, next)
      ensures p in places + [at]
    {
      assert p == at || Before(p, at);
    }
  }

  /** Past places without a point that is to be recorded. */
  lemma ListsOn(rms: seq<ResourceMetrics>, end: Place, next: Place, places: seq<Place>, ops: seq<Op>)
    requires Lists(rms, end, places, ops)
    requires forall at :: Before(at, end) ==> Before(at, next)
    requires forall at :: IsRecorded(rms, at) && Before(at, next) ==> Before(at, end)
    ensures Lists(rms, next, places, ops)
  {
    hide IsRecorded, RecordAt, Before;
  }

  lemma {:induction false} ListsNumbers(rms: seq<ResourceMetrics>, at: Place, ps: seq<NumberDP>, n: nat,
                                        places: seq<Place>, ops: seq<Op>) returns (more: seq<Place>)
    requires HasMetric(rms, at) && at.point == 0 && n <= |ps| && Lists(rms, at, places, ops)
    requires var data := MetricAt(rms, at).data;
             data == Gauge(ps) || (data.Total? && data.temporality != Cumulative && data.numbers == ps)
    ensures Lists(rms, at.(point := n), more,
                  ops + NumberOps(MetricAt(rms, at).name, ps[..n], rms[at.resource].resAttrs))
    decreases n
  {
    hide Lists;
    if n == 0 {
      assert ps[..0] == [] && at.(point := 0) == at && ops + [] == ops;
      more := places;
    } else {
      var before := ListsNumbers(rms, at, ps, n - 1, places, ops);
      var here := at.(point := n - 1);
      var listed := ops + NumberOps(MetricAt(rms, at).name, ps[..n - 1], rms[at.resource].resAttrs);
      ListsPoint(rms, here, before, listed);
      assert ps[..n][..n - 1] == ps[..n - 1] && ps[..n][n - 1] == ps[n - 1];
      more := before + [here];
      assert listed + [RecordAt(rms, here)]
          == ops + NumberOps(MetricAt(rms, at).name, ps[..n], rms[at.resource].resAttrs);
    }
  }

  lemma SkipsPoint(rms: seq<ResourceMetrics>, here: Place)
    requires !IsRecorded(rms, here)
    ensures var next := here.(point := here.point + 1);
            && (forall at :: Before(at, here) ==> Before(at, next))
            && (forall at :: IsRecorded(rms, at) && Before(at, next) ==> Before(at, here))
  {
    hide IsRecorded;
    var next := here.(point := here.point + 1);
    forall at | Before(at, next)
      ensures at == here || Before(at, here)
    {
    }
  }

  lemma {:induction false} ListsHists(rms: seq<ResourceMetrics>, at: Place, hs: seq<HistDP>, n: nat,
                                      places: seq<Place>, ops: seq<Op>) returns (more: seq<Place>)
    requires HasMetric(rms, at) && at.point == 0 && n <= |hs| && Lists(rms, at, places, ops)
    requires var data := MetricAt(rms, at).data;
             data.Distribution? && data.temporality != Cumulative && data.hists == hs
    ensures Lists(rms, at.(point := n), more,
                  ops + HistOps(MetricAt(rms, at).name, hs[..n], rms[at.resource].resAttrs))
    decreases n
  {
    hide Lists;
    if n == 0 {
      assert hs[..0] == [] && at.(point := 0) == at && ops + [] == ops;
      more := places;
    } else {
      var before := ListsHists(rms, at, hs, n - 1, places, ops);
      var here := at.(point := n - 1);
      var listed := ops + HistOps(MetricAt(rms, at).name, hs[..n - 1], rms[at.resource].resAttrs);
      HistOpsNext(MetricAt(rms, at).name, hs, n - 1, rms[at.resource].resAttrs);
      if hs[n - 1].hist.count == 0 {
        SkipsPoint(rms, here);
        ListsOn(rms, here, at.(point := n), before, listed);
        more := before;
        assert listed + [] == listed;
      } else {
        ListsPoint(rms, here, before, listed);
        more := before + [here];
      }
      assert listed + (if hs[n - 1].hist.count == 0 then [] else [RecordAt(rms, here)])
          == ops + HistOps(MetricAt(rms, at).name, hs[..n], rms[at.resource].resAttrs);
    }
  }

  /** After the last point of a metric comes the next metric of the scope. */
  lemma SkipsToMetric(rms: seq<ResourceMetrics>, end: Place)
    requires forall p: nat :: p >= end.point ==> !IsRecorded(rms, end.(point := p))
    ensures var next := Place(end.resource, end.scope, end.metric + 1, 0);
            && (forall at :: Before(at, end) ==> Before(at, next))
            && (forall at :: IsRecorded(rms, at) && Before(at, next) ==> Before(at, end))
  {
    hide IsRecorded;
    var next := Place(end.resource, end.scope, end.metric + 1, 0);
    forall at | IsRecorded(rms, at) && Before(at, next)
      ensures Before(at, end)
    {
      assert Before(at, end) || at == end.(point := at.point);
    }
  }

  lemma ListsMetric(rms: seq<ResourceMetrics>, at: Place, places: seq<Place>, ops: seq<Op>)
    returns (more: seq<Place>)
    requires HasMetric(rms, at) && at.point == 0 && Lists(rms, at, places, ops)
    ensures Lists(rms, Place(at.resource, at.scope, at.metric + 1, 0), more,
                  ops + MetricOps(MetricAt(rms, at), rms[at.resource].resAttrs))
  {
    hide Lists, NumberOps, HistOps;
    var m, resAttrs := MetricAt(rms, at), rms[at.resource].resAttrs;
    more := places;
    var n := 0;
    match m.data {
      case Gauge(ps) =>
        more := ListsNumbers(rms, at, ps, |ps|, places, ops);
        assert ps[..|ps|] == ps;
        n := |ps|;
      case Total(t, ps) =>
        if t != Cumulative {
          more := ListsNumbers(rms, at, ps, |ps|, places, ops);
          assert ps[..|ps|] == ps;
          n := |ps|;
        }
      case Distribution(t, hs) =>
        if t != Cumulative {
          more := ListsHists(rms, at, hs, |hs|, places, ops);
          assert hs[..|hs|] == hs;
          n := |hs|;
        }
      case Unsupported =>
    }
    assert at.(point := 0) == at && ops + [] == ops;
    SkipsToMetric(rms, at.(point := n));
    ListsOn(rms, at.(point := n), Place(at.resource, at.scope, at.metric + 1, 0), more,
            ops + MetricOps(m, resAttrs));
  }

  lemma {:induction false} ListsScope(rms: seq<ResourceMetrics>, r: nat, s: nat, k: nat, places: seq<Place>,
                                      ops: seq<Op>) returns (more: seq<Place>)
    requires r < |rms| && s < |rms[r].scopes| && k <= |rms[r].scopes[s]|
    requires Lists(rms, Place(r, s, 0, 0), places, ops)
    ensures Lists(rms, Place(r, s, k, 0), more, ops + ScopeOps(rms[r].scopes[s][..k], rms[r].resAttrs))
    decreases k
  {
    hide Lists, MetricOps;
    var ms := rms[r].scopes[s];
    if k == 0 {
      assert ms[..0] == [] && ops + [] == ops;
      more := places;
    } else {
      var before := ListsScope(rms, r, s, k - 1, places, ops);
      more := ListsMetric(rms, Place(r, s, k - 1, 0), before, ops + ScopeOps(ms[..k - 1], rms[r].resAttrs));
      ScopeOpsNext(ms, k - 1, rms[r].resAttrs);
      assert ops + ScopeOps(ms[..k - 1], rms[r].resAttrs) + MetricOps(ms[k - 1], rms[r].resAttrs)
          == ops + ScopeOps(ms[..k], rms[r].resAttrs);
    }
  }

  /** After the last metric of a scope comes the next scope, after the last scope the next resource. */
  lemma SkipsToScope(rms: seq<ResourceMetrics>, r: nat, s: nat)
    requires r < |rms| && s < |rms[r].scopes|
    ensures var end, next := Place(r, s, |rms[r].scopes[s]|, 0), Place(r, s + 1, 0, 0);
            && (forall at :: Before(at, end) ==> Before(at, next))
            && (forall at :: IsRecorded(rms, at) && Before(at, next) ==> Before(at, end))
  {
  }

  lemma SkipsToResource(rms: seq<ResourceMetrics>, r: nat)
    requires r < |rms|
    ensures var end, next := Place(r, |rms[r].scopes|, 0, 0), Place(r + 1, 0, 0, 0);
            && (forall at :: Before(at, end) ==> Before(at, next))
            && (forall at :: IsRecorded(rms, at) && Before(at, next) ==> Before(at, end))
  {
  }

  lemma {:induction false} ListsResource(rms: seq<ResourceMetrics>, r: nat, s: nat, places: seq<Place>, ops: seq<Op>)
    returns (more: seq<Place>)
    requires r < |rms| && s <= |rms[r].scopes| && Lists(rms, Place(r, 0, 0, 0), places, ops)
    ensures Lists(rms, Place(r, s, 0, 0), more, ops + ResourceOps(rms[r], s))
    decreases s
  {
    hide Lists, ScopeOps;
    if s == 0 {
      assert ops + [] == ops;
      more := places;
    } else {
      var before := ListsResource(rms, r, s - 1, places, ops);
      var ms := rms[r].scopes[s - 1];
      var listed := ops + ResourceOps(rms[r], s - 1);
      more := ListsScope(rms, r, s - 1, |ms|, before, listed);
      assert ms[..|ms|] == ms;
      SkipsToScope(rms, r, s - 1);
      assert listed + ScopeOps(ms, rms[r].resAttrs) == ops + ResourceOps(rms[r], s);
      ListsOn(rms, Place(r, s - 1, |ms|, 0), Place(r, s, 0, 0), more, ops + ResourceOps(rms[r], s));
    }
  }

  lemma {:induction false} ListsResources(rms: seq<ResourceMetrics>, r: nat) returns (places: seq<Place>)
    requires r <= |rms|
    ensures Lists(rms, Place(r, 0, 0, 0), places, MetricsOps(rms[..r]))
    decreases r
  {
    hide Lists, ResourceOps;
    if r == 0 {
      NothingListed(rms);
      places := [];
      assert rms[..0] == [];
    } else {
      var before := ListsResources(rms, r - 1);
      var n := |rms[r - 1].scopes|;
      places := ListsResource(rms, r - 1, n, before, MetricsOps(rms[..r - 1]));
      SkipsToResource(rms, r - 1);
      MetricsOpsNext(rms, r - 1);
      ListsOn(rms, Place(r - 1, n, 0, 0), Place(r, 0, 0, 0), places, MetricsOps(rms[..r]));
    }
  }

  /** The recorded points of a batch are, in order and each once, those of gauges and of sums and
      histograms that are not cumulative, without the histogram points that have no observations, each
      under its metric's name, its own attributes and its resource's attributes. */
  lemma RecordedExactly(rms: seq<ResourceMetrics>)
    ensures IsRecording(rms, MetricsOps(rms))
  {
    hide Lists, MetricsOps;
    var places := ListsResources(rms, |rms|);
    assert rms[..|rms|] == rms;
  }

  lemma OneMetricRecorded(m: Metric, resAttrs: Attributes)
    ensures IsRecording([ResourceMetrics(resAttrs, [[m]])], MetricOps(m, resAttrs))
  {
    hide MetricOps, MetricsOps, IsRecording;
    RecordedExactly([ResourceMetrics(resAttrs, [[m]])]);
    OneMetric(m, resAttrs);
  }
}
