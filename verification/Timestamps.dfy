/** Rewriting event times: the translation from the earliest recorded time to a base time. */
module Timestamps {
  import opened Basics
  import opened Events
  import opened Loader

  const MAX_DURATION: int := 0x7FFF_FFFF_FFFF_FFFF
  const MIN_DURATION: int := -0x8000_0000_0000_0000

  /** time.Time.Sub: the difference in nanoseconds, saturated to 64 bits. */
  function Sub(t: int, u: int): int {
    if t - u > MAX_DURATION then MAX_DURATION else if t - u < MIN_DURATION then MIN_DURATION else t - u
  }

  /** The rewritten time, which the latest stack receives with nanoseconds. */
  function RewriteLatest(time: int, minTimestamp: int, base: int): int {
    base + Sub(time, minTimestamp)
  }

  /** The rewritten time for 7.x: whole microseconds since the epoch, converted to uint64. */
  function Rewrite7x(time: int, minTimestamp: int, base: int): uint64 {
    (base + Sub(time, minTimestamp)) / 1000 % U64
  }

  // ---------------------------------------------------------------- the earliest time

  /** The times of all events that have one. */
  function EventTimes(es: seq<Event>): (times: set<int>)
    ensures forall t :: t in times <==> t != ZERO_TIME && exists i :: 0 <= i < |es| && es[i].timestamp == t
  {
    if es == [] then {}
    else
      var last := es[|es| - 1];
      var before := EventTimes(es[..|es| - 1]);
      before + if last.timestamp == ZERO_TIME then {} else {last.timestamp}
  }

  function Times(batches: seq<Batch>): set<int> {
    if batches == [] then {} else Times(batches[..|batches| - 1]) + EventTimes(batches[|batches| - 1].events)
  }

  lemma {:induction false} TimesOfBatch(batches: seq<Batch>, k: nat, t: int)
    requires k < |batches| && t in EventTimes(batches[k].events)
    ensures t in Times(batches)
    decreases |batches|
  {
    if k < |batches| - 1 {
      TimesOfBatch(batches[..|batches| - 1], k, t);
    }
  }

  lemma {:induction false} TimesOfRest(batches: seq<Batch>, t: int)
    requires batches != [] && t in Times(batches[1..])
    ensures t in Times(batches)
    decreases |batches|
  {
    var n := |batches| - 1;
    if n > 0 && t !in EventTimes(batches[n].events) {
      assert batches[1..][..n - 1] == batches[..n][1..];
      TimesOfRest(batches[..n], t);
    }
  }

  /** The zero time when no event has a time, else the lowest time of an event. */
  ghost predicate IsEarliest(min: int, times: set<int>) {
    if times == {} then min == ZERO_TIME
    else min in times && forall t :: t in times ==> min <= t
  }

  lemma TimesOfAdded(batches: seq<Batch>, e: Event)
    requires batches != []
    ensures Times(AddToLast(batches, e)) == Times(batches) + (if e.timestamp == ZERO_TIME then {} else {e.timestamp})
  {
    var n := |batches| - 1;
    var last := batches[n];
    var added := AddToLast(batches, e);
    assert added[..n] == batches[..n] && added[n] == Batch(last.metadata, last.events + [e]);
    assert (last.events + [e])[..|last.events|] == last.events;
  }

  lemma TimesOfNew(batches: seq<Batch>, line: Line)
    ensures Times(batches + [Batch(line, [])]) == Times(batches)
  {
    var all := batches + [Batch(line, [])];
    assert all[..|batches|] == batches && all[|batches|] == Batch(line, []);
  }

  lemma LineKeepsEarliest(parser: Parser, line: Line, st: Loaded, current: bool)
    requires current ==> st.batches != []
    requires IsEarliest(st.minTimestamp, Times(st.batches)) && ZERO_TIME !in Times(st.batches)
    ensures var r := LoadLine(parser, line, st, current);
            r.Ok? ==> IsEarliest(r.value.minTimestamp, Times(r.value.batches)) && ZERO_TIME !in Times(r.value.batches)
  {
    hide Times, IsMeta, IsRum;
    if line != "" && IsMeta(line) {
      TimesOfNew(st.batches, line);
    } else if current {
      TimesOfAdded(st.batches, EventOf(parser, line));
    }
  }

  lemma {:induction false} FileKeepsEarliest(parser: Parser, lines: seq<Line>, st: Loaded)
    requires IsEarliest(st.minTimestamp, Times(st.batches)) && ZERO_TIME !in Times(st.batches)
    ensures var r := LoadLines(parser, lines, st);
            r.Ok? ==> IsEarliest(r.value.minTimestamp, Times(r.value.batches)) && ZERO_TIME !in Times(r.value.batches)
    decreases |lines|
  {
    hide LoadLine, Times, IsEarliest;
    if lines != [] {
      var n := |lines| - 1;
      FileKeepsEarliest(parser, lines[..n], st);
      var before := LoadLines(parser, lines[..n], st);
      if before.Ok? {
        LineKeepsEarliest(parser, lines[n], before.value, HasMeta(lines[..n]));
      }
    }
  }

  /** Loading finds the minimum over the times of all events of all files. */
  lemma {:induction false} LoadFindsEarliest(parser: Parser, files: seq<seq<Line>>)
    ensures var r := LoadFiles(parser, files, NOTHING);
            r.Ok? ==> IsEarliest(r.value.minTimestamp, Times(r.value.batches)) && ZERO_TIME !in Times(r.value.batches)
    decreases |files|
  {
    hide LoadLines;
    if files != [] {
      var n := |files| - 1;
      LoadFindsEarliest(parser, files[..n]);
      var before := LoadFiles(parser, files[..n], NOTHING);
      if before.Ok? {
        FileKeepsEarliest(parser, files[n], before.value);
      }
    }
  }

  // ---------------------------------------------------------------- a translation

  /** For the latest stack: the earliest time maps to the base, none maps to before it, and a
      difference of two times is exact, exactly when neither is further from the earliest than a
      64-bit duration can say or both are at the same distance. */
  lemma LatestIsTranslation(parser: Parser, files: seq<seq<Line>>, base: int, t: int, u: int)
    requires Load(parser, files).Ok?
    requires t in Times(Load(parser, files).value.batches) && u in Times(Load(parser, files).value.batches)
    requires t <= u
    ensures var min := Load(parser, files).value.minTimestamp;
            && RewriteLatest(min, min, base) == base
            && base <= RewriteLatest(t, min, base) <= RewriteLatest(u, min, base)
            && (RewriteLatest(u, min, base) - RewriteLatest(t, min, base) == u - t
                <==> u - min <= 0x7FFF_FFFF_FFFF_FFFF || t == u)
  {
    hide Times, LoadFiles;
    LoadFindsEarliest(parser, files);
  }

  lemma FloorDifference(a: int, b: int)
    requires a <= b
    ensures b - a - 1000 < (b / 1000 - a / 1000) * 1000 < b - a + 1000
    ensures (b - a) % 1000 == 0 ==> (b / 1000 - a / 1000) * 1000 == b - a
  {
  }

  lemma SmallMicros(ns: int)
    requires 0 <= ns <= 2 * MAX_DURATION
    ensures ns / 1000 % U64 == ns / 1000
  {
  }

  /** For 7.x: within the span of a 64-bit duration, differences are within one microsecond, and
      exact when they are whole microseconds, as those of microsecond timestamps are. */
  lemma SevenIsTranslation(parser: Parser, files: seq<seq<Line>>, base: int, t: int, u: int)
    requires Load(parser, files).Ok? && 0 <= base <= 0x7FFF_FFFF_FFFF_FFFF
    requires t in Times(Load(parser, files).value.batches) && u in Times(Load(parser, files).value.batches)
    requires t <= u && u - Load(parser, files).value.minTimestamp <= 0x7FFF_FFFF_FFFF_FFFF
    ensures var min := Load(parser, files).value.minTimestamp;
            var difference := (Rewrite7x(u, min, base) as int - Rewrite7x(t, min, base) as int) * 1000;
            && Rewrite7x(min, min, base) == base / 1000
            && base / 1000 <= Rewrite7x(t, min, base)
            && u - t - 1000 < difference < u - t + 1000
            && ((u - t) % 1000 == 0 ==> difference == u - t)
  {
    hide Times, LoadFiles;
    LoadFindsEarliest(parser, files);
    var min := Load(parser, files).value.minTimestamp;
    SmallMicros(base + (t - min));
    SmallMicros(base + (u - min));
    SmallMicros(base);
    FloorDifference(base + (t - min), base + (u - min));
  }
}
