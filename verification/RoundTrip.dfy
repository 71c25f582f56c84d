/** Loading lines and replaying them without rewriting gives the lines back. */
module RoundTrip {
  import opened Basics
  import opened Events
  import opened Loader
  import opened Replay
  import opened Pacing
  import Output
  import Writer

  // ---------------------------------------------------------------- lines of batches

  function Payloads(es: seq<Event>): seq<Line> {
    if es == [] then [] else Payloads(es[..|es| - 1]) + [es[|es| - 1].payload]
  }

  function LinesOfBatch(b: Batch): seq<Line> {
    [b.metadata] + Payloads(b.events)
  }

  function AllLines(batches: seq<Batch>): seq<Line> {
    if batches == [] then [] else AllLines(batches[..|batches| - 1]) + LinesOfBatch(batches[|batches| - 1])
  }

  function NonEmptyLines(lines: seq<Line>): seq<Line> {
    if lines == [] then []
    else NonEmptyLines(lines[..|lines| - 1]) + (if lines[|lines| - 1] == "" then [] else [lines[|lines| - 1]])
  }

  function FilesLines(files: seq<seq<Line>>): seq<Line> {
    if files == [] then [] else FilesLines(files[..|files| - 1]) + NonEmptyLines(files[|files| - 1])
  }

  lemma LineKept(parser: Parser, line: Line, st: Loaded, current: bool)
    requires current ==> st.batches != []
    ensures var r := LoadLine(parser, line, st, current);
            r.Ok? ==> AllLines(r.value.batches) == AllLines(st.batches) + (if line == "" then [] else [line])
  {
  }

  lemma {:induction false} FileKept(parser: Parser, lines: seq<Line>, st: Loaded)
    ensures var r := LoadLines(parser, lines, st);
            r.Ok? ==> AllLines(r.value.batches) == AllLines(st.batches) + NonEmptyLines(lines)
    decreases |lines|
  {
    hide AllLines, LoadLine;
    if lines == [] {
      assert AllLines(st.batches) + [] == AllLines(st.batches);
    } else {
      var n := |lines| - 1;
      FileKept(parser, lines[..n], st);
      var before := LoadLines(parser, lines[..n], st);
      if before.Ok? {
        LineKept(parser, lines[n], before.value, HasMeta(lines[..n]));
      }
    }
  }

  lemma {:induction false} FilesKept(parser: Parser, files: seq<seq<Line>>)
    ensures var r := LoadFiles(parser, files, NOTHING);
            r.Ok? ==> AllLines(r.value.batches) == FilesLines(files)
    decreases |files|
  {
    hide LoadLines, NonEmptyLines;
    if files != [] {
      var n := |files| - 1;
      FilesKept(parser, files[..n]);
      var before := LoadFiles(parser, files[..n], NOTHING);
      if before.Ok? {
        FileKept(parser, files[n], before.value);
      }
    }
  }

  /** Loading keeps every non-empty line, in order. */
  lemma LoadKeepsLines(parser: Parser, files: seq<seq<Line>>)
    requires Load(parser, files).Ok?
    ensures AllLines(Load(parser, files).value.batches) == FilesLines(files)
  {
    FilesKept(parser, files);
  }

  // ---------------------------------------------------------------- what is written

  function CopiedAll(lines: seq<Line>): (r: seq<Writer.OutLine>)
    ensures |r| == |lines| && forall i :: 0 <= i < |lines| ==> r[i] == Writer.Copied(lines[i])
  {
    seq(|lines|, i requires 0 <= i < |lines| => Writer.Copied(lines[i]))
  }

  lemma CopiedInjective(a: seq<Line>, b: seq<Line>)
    ensures CopiedAll(a) == CopiedAll(b) <==> a == b
  {
    if CopiedAll(a) == CopiedAll(b) {
      assert |a| == |b|;
      forall i | 0 <= i < |a|
        ensures a[i] == b[i]
      {
        assert CopiedAll(a)[i] == CopiedAll(b)[i];
      }
    }
  }

  lemma {:induction false} PayloadsAre(es: seq<Event>)
    ensures |Payloads(es)| == |es| && forall i :: 0 <= i < |es| ==> Payloads(es)[i] == es[i].payload
  {
    if es != [] { PayloadsAre(es[..|es| - 1]); }
  }

  /** With all flags off the bodies are the lines of the chunks, byte by byte. */
  lemma {:induction false} FlagsOffCopies(fl: Writer.Flags, parser: Parser, c: Writer.Context, chunks: seq<Batch>)
    requires !Writer.RewriteAny(fl)
    ensures Output.LinesOf(BodiesOf(fl, parser, c, chunks)) == CopiedAll(AllLines(chunks))
  {
    hide Payloads;
    if chunks != [] {
      var n := |chunks| - 1;
      var b := chunks[n];
      FlagsOffCopies(fl, parser, c, chunks[..n]);
      assert BodiesOf(fl, parser, c, chunks)[..n] == BodiesOf(fl, parser, c, chunks[..n]);
      PayloadsAre(b.events);
      assert Writer.BatchLines(fl, parser, b, c) == CopiedAll(LinesOfBatch(b));
      assert CopiedAll(AllLines(chunks)) == CopiedAll(AllLines(chunks[..n])) + CopiedAll(LinesOfBatch(b));
    }
  }

  function WithEvents(batches: seq<Batch>): seq<Batch> {
    if batches == [] then []
    else (if batches[0].events == [] then [] else [batches[0]]) + WithEvents(batches[1..])
  }

  predicate AllHaveEvents(batches: seq<Batch>) {
    forall i :: 0 <= i < |batches| ==> batches[i].events != []
  }

  lemma {:induction false} WithEventsAll(batches: seq<Batch>)
    requires AllHaveEvents(batches)
    ensures WithEvents(batches) == batches
  {
    if batches != [] {
      WithEventsAll(batches[1..]);
    }
  }

  lemma NothingListed()
    ensures Chunks([]) == [] && WithEvents([]) == [] && AllLines([]) == []
  {
  }

  lemma {:induction false} BatchUnlimited(o: Oracle, clock: nat, sent: nat, b: Batch, burst: int)
    requires burst <= 0 && b.events != [] && SendBatchSpec(burst, o, clock, sent, b).ok
    ensures Chunks(SendBatchSpec(burst, o, clock, sent, b).trace) == [b]
  {
    hide *;
    var first := SendChunkSpec(burst, o, clock, sent, b);
    BatchUnfolds(burst, o, clock, sent, b);
    ChunkOfTrace(burst, o, clock, sent, b);
    var left := Batch(b.metadata, b.events[first.sent - sent..]);
    assert left == Batch(b.metadata, []);
    EmptyBatch(burst, o, first.clock, first.sent, b.metadata);
    var rest := SendBatchSpec(burst, o, first.clock, first.sent, left);
    AfterIs(first.trace, rest);
    ChunksConcat(first.trace, rest.trace);
    NothingListed();
    assert b.events[..|b.events|] == b.events;
    assert [b] + [] == [b] && Batch(b.metadata, b.events) == b;
  }

  lemma WithEventsUnfolds(batches: seq<Batch>)
    requires batches != []
    ensures WithEvents(batches) == (if batches[0].events == [] then [] else [batches[0]]) + WithEvents(batches[1..])
  {
  }

  /** Without a burst limit every batch with events is one request. */
  lemma {:induction false} PassUnlimited(burst: int, o: Oracle, clock: nat, sent: nat, batches: seq<Batch>)
    requires burst <= 0 && SendBatchesSpec(burst, o, clock, sent, batches).ok
    ensures Chunks(SendBatchesSpec(burst, o, clock, sent, batches).trace) == WithEvents(batches)
    decreases |batches|
  {
    hide *;
    NothingListed();
    if batches == [] {
      EmptyPass(burst, o, clock, sent);
    } else {
      var first := SendBatchSpec(burst, o, clock, sent, batches[0]);
      PassUnfolds(burst, o, clock, sent, batches);
      var rest := SendBatchesSpec(burst, o, first.clock, first.sent, batches[1..]);
      AfterIs(first.trace, rest);
      PassUnlimited(burst, o, first.clock, first.sent, batches[1..]);
      ChunksConcat(first.trace, rest.trace);
      WithEventsUnfolds(batches);
      if batches[0].events == [] {
        EmptyBatch(burst, o, clock, sent, batches[0].metadata);
      } else {
        BatchUnlimited(o, clock, sent, batches[0], burst);
      }
    }
  }

  lemma {:induction false} LinesOfPrepended(b: Batch, bs: seq<Batch>)
    ensures AllLines([b] + bs) == LinesOfBatch(b) + AllLines(bs)
  {
    var all := [b] + bs;
    hide LinesOfBatch;
    if bs == [] {
      NothingListed();
      assert all[..0] == [] && all[0] == b;
    } else {
      var n := |bs| - 1;
      LinesOfPrepended(b, bs[..n]);
      assert all[..|all| - 1] == [b] + bs[..n];
    }
  }

  /** Leaving out batches without events loses exactly their metadata lines. */
  lemma {:induction false} LinesLost(batches: seq<Batch>)
    ensures |AllLines(WithEvents(batches))| <= |AllLines(batches)|
    ensures |AllLines(WithEvents(batches))| == |AllLines(batches)| ==> AllHaveEvents(batches)
  {
    hide AllLines;
    if batches != [] {
      var b, rest := batches[0], batches[1..];
      LinesLost(rest);
      LinesOfPrepended(b, rest);
      LinesOfPrepended(b, WithEvents(rest));
      assert batches == [b] + rest;
      assert [] + WithEvents(rest) == WithEvents(rest);
    } else {
      NothingListed();
    }
  }

  /** Load then replay is a round trip: with no rewriting and no burst limit the requests of a
      successful pass hold the non-empty input lines verbatim, exactly when every loaded batch has
      events. The metadata of a batch without events is not sent. */
  lemma ReplayWritesInput(fl: Writer.Flags, parser: Parser, files: seq<seq<Line>>, c: Writer.Context, burst: int,
                          o: Oracle, clock: nat, sent: nat)
    requires Load(parser, files).Ok? && burst <= 0 && !Writer.RewriteAny(fl)
    requires SendBatchesSpec(burst, o, clock, sent, Load(parser, files).value.batches).ok
    ensures var batches := Load(parser, files).value.batches;
            Output.LinesOf(Bodies(fl, parser, c, SendBatchesSpec(burst, o, clock, sent, batches).trace))
            == CopiedAll(FilesLines(files))
            <==> AllHaveEvents(batches)
  {
    hide SendBatchesSpec, AllLines, Load, AllHaveEvents, CopiedAll, Output.LinesOf, BodiesOf;
    var batches := Load(parser, files).value.batches;
    LoadKeepsLines(parser, files);
    PassUnlimited(burst, o, clock, sent, batches);
    FlagsOffCopies(fl, parser, c, WithEvents(batches));
    CopiedInjective(AllLines(WithEvents(batches)), FilesLines(files));
    LinesLost(batches);
    if AllHaveEvents(batches) { WithEventsAll(batches); }
  }

  // ---------------------------------------------------------------- with a burst limit

  function FuseFirst(b: Batch, fused: seq<Batch>): (r: seq<Batch>)
    ensures r != [] && r[0].metadata == b.metadata
  {
    if fused != [] && fused[0].metadata == b.metadata
    then [Batch(b.metadata, b.events + fused[0].events)] + fused[1..]
    else [b] + fused
  }

  /** Fuses neighbours that have the same metadata. */
  function Fuse(bs: seq<Batch>): (r: seq<Batch>)
    ensures bs == [] <==> r == []
    ensures bs != [] ==> r[0].metadata == bs[0].metadata
  {
    if bs == [] then [] else FuseFirst(bs[0], Fuse(bs[1..]))
  }

  lemma FuseCons(b: Batch, bs: seq<Batch>)
    ensures Fuse([b] + bs) == FuseFirst(b, Fuse(bs))
  {
  }

  /** Cutting a batch in two does not change what fusing gives. */
  lemma FuseCut(metadata: Line, a: seq<Event>, b: seq<Event>, fused: seq<Batch>)
    ensures FuseFirst(Batch(metadata, a), FuseFirst(Batch(metadata, b), fused))
         == FuseFirst(Batch(metadata, a + b), fused)
  {
    if fused != [] && fused[0].metadata == metadata {
      assert a + (b + fused[0].events) == (a + b) + fused[0].events;
    }
  }

  /** The chunks of a batch fuse to the batch. */
  lemma {:induction false} BatchFuses(burst: int, o: Oracle, clock: nat, sent: nat, b: Batch, more: seq<Batch>)
    requires b.events != [] && SendBatchSpec(burst, o, clock, sent, b).ok
    ensures Fuse(Chunks(SendBatchSpec(burst, o, clock, sent, b).trace) + more) == FuseFirst(b, Fuse(more))
    decreases |b.events|
  {
    hide *;
    var first := SendChunkSpec(burst, o, clock, sent, b);
    BatchUnfolds(burst, o, clock, sent, b);
    ChunkOfTrace(burst, o, clock, sent, b);
    var n := first.sent - sent;
    var chunk, left := Batch(b.metadata, b.events[..n]), Batch(b.metadata, b.events[n..]);
    var rest := SendBatchSpec(burst, o, first.clock, first.sent, left);
    AfterIs(first.trace, rest);
    ChunksConcat(first.trace, rest.trace);
    assert b.events[..n] + b.events[n..] == b.events;
    if left.events == [] {
      assert left == Batch(b.metadata, []) && chunk == b;
      EmptyBatch(burst, o, first.clock, first.sent, b.metadata);
      NothingListed();
      assert [chunk] + [] + more == [chunk] + more;
      FuseCons(chunk, more);
    } else {
      BatchFuses(burst, o, first.clock, first.sent, left, more);
      FuseCons(chunk, Chunks(rest.trace) + more);
      assert [chunk] + (Chunks(rest.trace) + more) == [chunk] + Chunks(rest.trace) + more;
      FuseCut(b.metadata, chunk.events, left.events, Fuse(more));
      assert Batch(b.metadata, chunk.events + left.events) == b;
    }
  }

  /** The chunks of a successful pass fuse to what the batches themselves fuse to, whatever the
      burst limit. */
  lemma {:induction false} PassFuses(burst: int, o: Oracle, clock: nat, sent: nat, batches: seq<Batch>)
    requires SendBatchesSpec(burst, o, clock, sent, batches).ok
    ensures Fuse(Chunks(SendBatchesSpec(burst, o, clock, sent, batches).trace)) == Fuse(WithEvents(batches))
    decreases |batches|
  {
    hide *;
    NothingListed();
    if batches == [] {
      EmptyPass(burst, o, clock, sent);
    } else {
      var first := SendBatchSpec(burst, o, clock, sent, batches[0]);
      PassUnfolds(burst, o, clock, sent, batches);
      var rest := SendBatchesSpec(burst, o, first.clock, first.sent, batches[1..]);
      AfterIs(first.trace, rest);
      PassFuses(burst, o, first.clock, first.sent, batches[1..]);
      ChunksConcat(first.trace, rest.trace);
      WithEventsUnfolds(batches);
      if batches[0].events == [] {
        EmptyBatch(burst, o, clock, sent, batches[0].metadata);
        assert [] + Chunks(rest.trace) == Chunks(rest.trace);
        assert [] + WithEvents(batches[1..]) == WithEvents(batches[1..]);
      } else {
        BatchFuses(burst, o, clock, sent, batches[0], Chunks(rest.trace));
        FuseCons(batches[0], WithEvents(batches[1..]));
      }
    }
  }

  predicate NeighboursDiffer(batches: seq<Batch>) {
    forall i :: 0 <= i < |batches| - 1 ==> batches[i].metadata != batches[i + 1].metadata
  }

  lemma {:induction false} NothingToFuse(batches: seq<Batch>)
    requires NeighboursDiffer(batches)
    ensures Fuse(batches) == batches
  {
    if batches != [] {
      NothingToFuse(batches[1..]);
      assert |batches| > 1 ==> batches[0].metadata != batches[1].metadata;
    }
  }

  lemma {:induction false} FusedForm(bs: seq<Batch>)
    ensures NeighboursDiffer(Fuse(bs))
    ensures AllHaveEvents(bs) ==> AllHaveEvents(Fuse(bs))
  {
    if bs != [] {
      FusedForm(bs[1..]);
    }
  }

  lemma {:induction false} WithEventsHave(batches: seq<Batch>)
    ensures AllHaveEvents(WithEvents(batches))
  {
    if batches != [] {
      WithEventsHave(batches[1..]);
    }
  }

  // Reading the output back.

  lemma NoLines(parser: Parser)
    ensures LoadLines(parser, [], NOTHING) == Ok(NOTHING)
  {
  }

  lemma LoadUnfolds(parser: Parser, lines: seq<Line>, line: Line)
    ensures LoadLines(parser, lines + [line], NOTHING) ==
              match LoadLines(parser, lines, NOTHING)
              case Err(e) => Err(e)
              case Ok(before) => LoadLine(parser, line, before, HasMeta(lines))
  {
  }

  lemma CleanEventFacts(parser: Parser, e: Event)
    requires CleanEvent(parser, e)
    ensures e.payload != "" && !IsRum(e.payload) && !IsMeta(e.payload) && e == EventOf(parser, e.payload)
  {
  }

  lemma AddedToLast(before: seq<Batch>, metadata: Line, es: seq<Event>, e: Event)
    ensures AddToLast(before + [Batch(metadata, es)], e) == before + [Batch(metadata, es + [e])]
  {
  }

  lemma MetaIsNotRum(line: Line)
    requires IsMeta(line)
    ensures line != "" && !IsRum(line)
  {
    assert line[3] == META_HEADER[3] != RUM_META_HEADER[3];
  }

  lemma {:induction false} ReloadEvents(parser: Parser, lines: seq<Line>, before: seq<Batch>, metadata: Line,
                                        es: seq<Event>)
    requires LoadLines(parser, lines, NOTHING).Ok? && LoadLines(parser, lines, NOTHING).value.batches == before
    requires IsMeta(metadata) && CleanEvents(parser, es)
    ensures var all := lines + LinesOfBatch(Batch(metadata, es));
            && HasMeta(all)
            && LoadLines(parser, all, NOTHING).Ok?
            && LoadLines(parser, all, NOTHING).value.batches == before + [Batch(metadata, es)]
    decreases |es|
  {
    hide IsMeta, IsRum, LoadLines, CleanEvent, EventOf;
    var all := lines + LinesOfBatch(Batch(metadata, es));
    assert all[|lines|] == metadata;
    if es == [] {
      assert all == lines + [metadata];
      LoadUnfolds(parser, lines, metadata);
      MetaIsNotRum(metadata);
    } else {
      var n := |es| - 1;
      var e := es[n];
      var init := lines + LinesOfBatch(Batch(metadata, es[..n]));
      ReloadEvents(parser, lines, before, metadata, es[..n]);
      assert all == init + [e.payload];
      LoadUnfolds(parser, init, e.payload);
      CleanEventFacts(parser, e);
      AddedToLast(before, metadata, es[..n], e);
      assert es[..n] + [e] == es;
    }
  }

  /** Loading the lines of clean batches gives these batches. */
  lemma {:induction false} ReloadBatches(parser: Parser, batches: seq<Batch>)
    requires Clean(parser, batches)
    ensures LoadLines(parser, AllLines(batches), NOTHING).Ok?
    ensures LoadLines(parser, AllLines(batches), NOTHING).value.batches == batches
    decreases |batches|
  {
    hide IsMeta, CleanEvents, LinesOfBatch, LoadLines;
    if batches == [] {
      NoLines(parser);
    } else {
      var n := |batches| - 1;
      var b := batches[n];
      ReloadBatches(parser, batches[..n]);
      ReloadEvents(parser, AllLines(batches[..n]), batches[..n], b.metadata, b.events);
      assert batches[..n] + [b] == batches;
    }
  }

  predicate CleanTrace(parser: Parser, t: Trace) {
    forall i :: 0 <= i < |t| && t[i].Acked? ==> IsMeta(t[i].metadata) && CleanEvents(parser, t[i].events)
  }

  /** The chunks of clean batches are clean. */
  lemma {:induction false} ChunksClean(parser: Parser, t: Trace)
    requires CleanTrace(parser, t)
    ensures Clean(parser, Chunks(t))
  {
    hide IsMeta, CleanEvents;
    if t != [] {
      ChunksClean(parser, t[1..]);
    }
  }

  lemma CleanChunk(parser: Parser, burst: int, o: Oracle, clock: nat, sent: nat, b: Batch)
    requires b.events != [] && IsMeta(b.metadata) && CleanEvents(parser, b.events)
    ensures CleanTrace(parser, SendChunkSpec(burst, o, clock, sent, b).trace)
  {
  }

  lemma CleanAfter(parser: Parser, a: Trace, b: Trace)
    requires CleanTrace(parser, a) && CleanTrace(parser, b)
    ensures CleanTrace(parser, a + b)
  {
  }

  lemma {:induction false} CleanBatch(parser: Parser, burst: int, o: Oracle, clock: nat, sent: nat, b: Batch)
    requires IsMeta(b.metadata) && CleanEvents(parser, b.events)
    ensures CleanTrace(parser, SendBatchSpec(burst, o, clock, sent, b).trace)
    decreases |b.events|
  {
    hide IsMeta, CleanEvent, SendChunkSpec;
    if b.events != [] {
      var first := SendChunkSpec(burst, o, clock, sent, b);
      CleanChunk(parser, burst, o, clock, sent, b);
      if first.ok {
        var left := Batch(b.metadata, b.events[first.sent - sent..]);
        CleanBatch(parser, burst, o, first.clock, first.sent, left);
        CleanAfter(parser, first.trace, SendBatchSpec(burst, o, first.clock, first.sent, left).trace);
      }
    }
  }

  lemma {:induction false} CleanPass(parser: Parser, burst: int, o: Oracle, clock: nat, sent: nat, batches: seq<Batch>)
    requires Clean(parser, batches)
    ensures CleanTrace(parser, SendBatchesSpec(burst, o, clock, sent, batches).trace)
    decreases |batches|
  {
    hide IsMeta, CleanEvents, SendBatchSpec;
    if batches != [] {
      var first := SendBatchSpec(burst, o, clock, sent, batches[0]);
      CleanBatch(parser, burst, o, clock, sent, batches[0]);
      if first.ok {
        CleanPass(parser, burst, o, first.clock, first.sent, batches[1..]);
        CleanAfter(parser, first.trace, SendBatchesSpec(burst, o, first.clock, first.sent, batches[1..]).trace);
      }
    }
  }

  lemma OneFile(parser: Parser, lines: seq<Line>)
    ensures LoadFiles(parser, [lines], NOTHING) == LoadLines(parser, lines, NOTHING)
  {
  }

  /** With any burst limit and no rewriting: loading the lines of a successful pass again gives one
      batch per request. Fusing these gives back the loaded batches exactly when every one of them has
      events and none has the metadata of the one before it. */
  lemma ReplayReloads(fl: Writer.Flags, parser: Parser, files: seq<seq<Line>>, c: Writer.Context, burst: int,
                      o: Oracle, clock: nat, sent: nat)
    requires Load(parser, files).Ok? && !Writer.RewriteAny(fl)
    requires SendBatchesSpec(burst, o, clock, sent, Load(parser, files).value.batches).ok
    ensures var batches := Load(parser, files).value.batches;
            var t := SendBatchesSpec(burst, o, clock, sent, batches).trace;
            var lines := AllLines(Chunks(t));
            && Output.LinesOf(Bodies(fl, parser, c, t)) == CopiedAll(lines)
            && (Chunks(t) != [] ==> Load(parser, [lines]).Ok? && Load(parser, [lines]).value.batches == Chunks(t))
            && (Fuse(Chunks(t)) == batches <==> AllHaveEvents(batches) && NeighboursDiffer(batches))
  {
    hide SendBatchesSpec, LoadFiles, LoadLines, AllLines, Fuse, Clean, WithEvents, Chunks, AllHaveEvents,
      NeighboursDiffer, Output.LinesOf, BodiesOf, CopiedAll;
    var batches := Load(parser, files).value.batches;
    var t := SendBatchesSpec(burst, o, clock, sent, batches).trace;
    FlagsOffCopies(fl, parser, c, Chunks(t));
    LoadedIsClean(parser, files);
    CleanPass(parser, burst, o, clock, sent, batches);
    ChunksClean(parser, t);
    ReloadBatches(parser, Chunks(t));
    OneFile(parser, AllLines(Chunks(t)));
    PassFuses(burst, o, clock, sent, batches);
    FusedForm(WithEvents(batches));
    WithEventsHave(batches);
    if AllHaveEvents(batches) && NeighboursDiffer(batches) {
      WithEventsAll(batches);
      NothingToFuse(batches);
    }
  }
}
