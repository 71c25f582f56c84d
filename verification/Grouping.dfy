/** Adding up the groups of a number sum gives the sum without grouping. */
module Grouping {
  import opened Basics
  import opened Aggregation
  import opened Slots
  import Quantile

  function NumberIn(v: Float): real {
    match v
    case Num(r) => r
    case _ => 0.0
  }

  /** The values of a map added up, in any order. */
  ghost function SumOf(m: map<string, Float>): real {
    if m == map[] then 0.0
    else
      var g :| g in m;
      NumberIn(m[g]) + SumOf(m - {g})
  }

  lemma {:induction false} SumWithout(m: map<string, Float>, g: string)
    requires g in m
    ensures SumOf(m) == NumberIn(m[g]) + SumOf(m - {g})
  {
    var h :| h in m && SumOf(m) == NumberIn(m[h]) + SumOf(m - {h});
    if h != g {
      SumWithout(m - {h}, g);
      SumWithout(m - {g}, h);
      assert (m - {h}) - {g} == (m - {g}) - {h};
    }
  }

  /** Raising one value of a map raises the sum by as much. */
  lemma SumRaised(m: map<string, Float>, g: string, before: real, after: real)
    requires if g in m then m[g] == Num(before) else before == 0.0
    ensures SumOf(m[g := Num(after)]) == SumOf(m) + after - before
  {
    var m' := m[g := Num(after)];
    SumWithout(m', g);
    assert m' - {g} == m - {g};
    if g in m {
      SumWithout(m, g);
    } else {
      assert m - {g} == m;
    }
  }

  /** The number points of a config since the last reset, whatever their group, added up. */
  function MatchingTotal(c: Config, ops: seq<Op>): real {
    if ops == [] then 0.0
    else
      var before := MatchingTotal(c, ops[..|ops| - 1]);
      match ops[|ops| - 1]
      case Reset => 0.0
      case Record(r) =>
        if r.sample.NumberSample? && IsFor(c, r) then before + DoubleOf(r.sample.number) else before
  }

  function GroupTotals(c: Config, ops: seq<Op>): map<string, Float> {
    map g | g in NumberGroups(c, ops) :: Num(TotalOf(NumbersFor(c, g, ops)))
  }

  lemma OneMorePoint(c: Config, init: seq<Op>, r: Recorded)
    requires r.sample.NumberSample? && IsFor(c, r)
    ensures SumOf(GroupTotals(c, init + [Record(r)])) == SumOf(GroupTotals(c, init)) + DoubleOf(r.sample.number)
  {
    var g, p, ops := GroupOf(c, r), r.sample.number, init + [Record(r)];
    assert ops[..|init|] == init;
    var before := NumbersFor(c, g, init);
    NaiveAppends(before, p);
    assert NumbersFor(c, g, ops) == before + [p];
    var m := GroupTotals(c, init);
    assert GroupTotals(c, ops) == m[g := Num(TotalOf(before + [p]))];
    SumRaised(m, g, TotalOf(before), TotalOf(before + [p]));
  }

  lemma {:induction false} GroupsAddUp(c: Config, ops: seq<Op>)
    ensures SumOf(GroupTotals(c, ops)) == MatchingTotal(c, ops)
  {
    if ops == [] {
      assert GroupTotals(c, ops) == map[];
    } else {
      var init, op := ops[..|ops| - 1], ops[|ops| - 1];
      GroupsAddUp(c, init);
      if op == Reset {
        assert GroupTotals(c, ops) == map[];
      } else if op.point.sample.NumberSample? && IsFor(c, op.point) {
        OneMorePoint(c, init, op.point);
        assert ops == init + [op];
      } else {
        assert GroupTotals(c, ops) == GroupTotals(c, init);
      }
    }
  }

  /** The same config without grouping. */
  function Ungrouped(c: Config): Config {
    c.(groupBy := "")
  }

  lemma UngroupedFields(c: Config)
    ensures Ungrouped(c).groupBy == "" && Ungrouped(c).typ == c.typ
  {
  }

  lemma {:induction false} TotalIgnoresGrouping(c: Config, ops: seq<Op>)
    ensures MatchingTotal(Ungrouped(c), ops) == MatchingTotal(c, ops)
  {
    if ops != [] {
      TotalIgnoresGrouping(c, ops[..|ops| - 1]);
    }
  }

  lemma SumIsAnswerable(c: Config, ops: seq<Op>)
    requires c.typ == Sum
    ensures Answerable(c, ops)
  {
  }

  lemma SumAnswer(sort: Quantile.Sorter, c: Config, ops: seq<Op>)
    requires c.typ == Sum && HistGroups(c, ops) == {}
    ensures SumOf(NaiveAnswer(sort, c, ops)) == MatchingTotal(c, ops)
  {
    GroupsAddUp(c, ops);
    if NumberGroups(c, ops) == {} {
      assert GroupTotals(c, ops) == map[];
      SumRaised(map[], "", 0.0, 0.0);
    } else {
      assert NaiveAnswer(sort, c, ops) == GroupTotals(c, ops);
    }
  }

  predicate NoEmptyKey(m: Attributes) {
    forall i :: 0 <= i < |m| ==> m[i].key != ""
  }

  predicate NoEmptyKeys(ops: seq<Op>) {
    forall i :: 0 <= i < |ops| && ops[i].Record? ==> NoEmptyKey(ops[i].point.attrs) && NoEmptyKey(ops[i].point.resAttrs)
  }

  lemma {:induction false} EmptyKeyNotFound(m: Attributes)
    requires NoEmptyKey(m)
    ensures Lookup(m, "").None?
  {
    if m != [] { EmptyKeyNotFound(m[1..]); }
  }

  lemma {:induction false} OneGroup(c: Config, ops: seq<Op>)
    requires c.groupBy == "" && NoEmptyKeys(ops)
    ensures NumberGroups(c, ops) <= {""}
  {
    if ops != [] {
      OneGroup(c, ops[..|ops| - 1]);
      var op := ops[|ops| - 1];
      if op.Record? {
        EmptyKeyNotFound(op.point.attrs);
        EmptyKeyNotFound(op.point.resAttrs);
      }
    }
  }

  lemma {:induction false} HistGroupsSameWhenEmpty(c: Config, ops: seq<Op>)
    ensures HistGroups(Ungrouped(c), ops) == {} <==> HistGroups(c, ops) == {}
  {
    if ops != [] {
      HistGroupsSameWhenEmpty(c, ops[..|ops| - 1]);
      var op := ops[|ops| - 1];
      if op.Record? && op.point.sample.HistSample? && IsFor(c, op.point) {
        assert GroupOf(c, op.point) in HistGroups(c, ops);
        assert GroupOf(Ungrouped(c), op.point) in HistGroups(Ungrouped(c), ops);
      }
    }
  }

  lemma OneGroupAnswer(sort: Quantile.Sorter, c: Config, ops: seq<Op>)
    requires c.typ == Sum && HistGroups(c, ops) == {} && NumberGroups(c, ops) <= {""}
    ensures NaiveAnswer(sort, c, ops) == map["" := Num(SumOf(NaiveAnswer(sort, c, ops)))]
  {
  }

  /** For a sum of numbers, adding up the groups that a store reports gives the one value that a
      store with the same config, not grouped, reports for the same stream. */
  lemma GroupingConservesTotals(sort: Quantile.Sorter, cfgs: seq<Config>, plain: seq<Config>, ops: seq<Op>, c: Config)
    requires DistinctKeys(cfgs) && DistinctKeys(plain)
    requires c in cfgs && Ungrouped(c) in plain && c.typ == Sum
    requires HistGroups(c, ops) == {} && NoEmptyKeys(ops)
    ensures Readable(c, Run(cfgs, ops)) && Readable(Ungrouped(c), Run(plain, ops))
    ensures Answer(sort, Ungrouped(c), Run(plain, ops)) == map["" := Num(SumOf(Answer(sort, c, Run(cfgs, ops))))]
  {
    hide *;
    var u := Ungrouped(c);
    UngroupedFields(c);
    SumIsAnswerable(c, ops);
    SumIsAnswerable(u, ops);
    AnswerIsNaive(sort, cfgs, ops, c);
    AnswerIsNaive(sort, plain, ops, u);
    HistGroupsSameWhenEmpty(c, ops);
    SumAnswer(sort, c, ops);
    SumAnswer(sort, u, ops);
    TotalIgnoresGrouping(c, ops);
    OneGroup(u, ops);
    OneGroupAnswer(sort, u, ops);
  }
}
