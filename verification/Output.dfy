/**
  What the accepted requests of a pass hold: the loading, the sending and the rewriting together.

  The theorems are about the bodies that `Handler.SendBatches` has sent, which were written under
  the flags of the handler with one context for the whole pass.
*/
module Output {
  import opened Basics
  import opened Events
  import opened Loader
  import opened Replay
  import opened Pacing
  import opened Writer
  import Json
  import Randomize
  import Rewriting
  import Timestamps

  /** All event lines of the bodies, without the metadata line that each body starts with. */
  function EventLinesOf(bodies: seq<Body>): seq<OutLine> {
    if bodies == [] then []
    else (if bodies[0] == [] then [] else bodies[0][1..]) + EventLinesOf(bodies[1..])
  }

  /** All lines of the bodies. */
  function LinesOf(bodies: seq<Body>): seq<OutLine> {
    if bodies == [] then [] else LinesOf(bodies[..|bodies| - 1]) + bodies[|bodies| - 1]
  }

  function EventsOf(tagged: seq<Tagged>): (es: seq<Event>)
    ensures |es| == |tagged| && forall i :: 0 <= i < |tagged| ==> es[i] == tagged[i].event
  {
    seq(|tagged|, i requires 0 <= i < |tagged| => tagged[i].event)
  }

  // ---------------------------------------------------------------- delivered lines

  /** The chunks of a trace hold the events delivered, each under its own metadata. */
  lemma {:induction false} ChunksDeliver(t: Trace)
    ensures Flat(Chunks(t)) == Delivered(t)
  {
    if t != [] {
      ChunksDeliver(t[1..]);
      if t[0].Acked? {
        var b := Batch(t[0].metadata, t[0].events);
        assert Chunks(t) == [b] + Chunks(t[1..]);
        FlatUnfolds(Chunks(t));
        assert Chunks(t)[1..] == Chunks(t[1..]);
      } else {
        assert Chunks(t) == Chunks(t[1..]);
      }
    }
  }

  /** The event lines of the bodies are those of the events in the chunks, in order. */
  lemma {:induction false} EventLinesOfChunks(fl: Flags, parser: Parser, c: Context, chunks: seq<Batch>)
    ensures EventLinesOf(BodiesOf(fl, parser, c, chunks)) == EventLines(fl, parser, EventsOf(Flat(chunks)), c)
  {
    hide MetadataLine, EventLine;
    var bodies := BodiesOf(fl, parser, c, chunks);
    if chunks != [] {
      var b, rest := chunks[0], chunks[1..];
      EventLinesOfChunks(fl, parser, c, rest);
      FlatUnfolds(chunks);
      assert bodies[0] == BatchLines(fl, parser, b, c) && bodies[1..] == BodiesOf(fl, parser, c, rest);
      assert bodies[0][1..] == EventLines(fl, parser, b.events, c);
      assert EventsOf(Flat(chunks)) == b.events + EventsOf(Flat(rest));
    }
  }

  /** What a pass has delivered, as lines. */
  function DeliveredLines(fl: Flags, parser: Parser, c: Context, out: Outcome): seq<OutLine> {
    EventLinesOf(Bodies(fl, parser, c, out.trace))
  }

  lemma DeliveredLinesAre(fl: Flags, parser: Parser, c: Context, burst: int, o: Oracle, clock: nat, sent: nat,
                          batches: seq<Batch>)
    ensures var out := SendBatchesSpec(burst, o, clock, sent, batches);
            var lines, flat := DeliveredLines(fl, parser, c, out), Flat(batches);
            && |lines| == |Delivered(out.trace)| <= |flat|
            && (out.ok <==> |lines| == |flat|)
            && forall i :: 0 <= i < |lines| ==> lines[i] == EventLine(fl, parser, flat[i].event, c)
  {
    hide SendBatchesSpec, Delivered, Flat, Chunks, EventLine, BodiesOf, EventLinesOf;
    var out := SendBatchesSpec(burst, o, clock, sent, batches);
    PassDelivery(burst, o, clock, sent, batches);
    ChunksDeliver(out.trace);
    EventLinesOfChunks(fl, parser, c, Chunks(out.trace));
  }

  /** A loaded event has the object type and the time of its line. */
  predicate IsOfLine(parser: Parser, e: Event) {
    e == EventOf(parser, e.payload)
  }

  lemma {:induction false} FlatOfClean(parser: Parser, batches: seq<Batch>)
    requires Clean(parser, batches)
    ensures forall i :: 0 <= i < |Flat(batches)| ==> IsOfLine(parser, Flat(batches)[i].event)
  {
    if batches != [] {
      FlatOfClean(parser, batches[1..]);
      FlatUnfolds(batches);
      var first := batches[0];
      forall i | 0 <= i < |first.events|
        ensures IsOfLine(parser, first.events[i])
      {
        assert CleanEvent(parser, first.events[i]);
      }
    }
  }

  lemma LineOf(parser: Parser, e: Event)
    requires IsOfLine(parser, e)
    ensures e.objectType == parser(e.payload).objectType && e.timestamp == TimeOf(parser(e.payload).timestamp)
  {
  }

  lemma LoadedAreClean(parser: Parser, files: seq<seq<Line>>)
    requires Load(parser, files).Ok?
    ensures Clean(parser, Load(parser, files).value.batches)
  {
    hide LoadFiles, Clean;
    LoadedIsClean(parser, files);
  }

  /** Load, then one pass under any flags: the accepted requests hold, in order and each under the
      rewritten metadata of its own batch, the rewritten forms of a prefix of the loaded events, and
      of all of them exactly when the pass succeeds. */
  lemma PassWritesLoaded(fl: Flags, parser: Parser, files: seq<seq<Line>>, c: Context, burst: int, o: Oracle,
                         clock: nat, sent: nat)
    requires Load(parser, files).Ok?
    ensures var batches := Load(parser, files).value.batches;
            var out := SendBatchesSpec(burst, o, clock, sent, batches);
            var bodies, chunks := Bodies(fl, parser, c, out.trace), Chunks(out.trace);
            var lines, flat := EventLinesOf(bodies), Flat(batches);
            && |lines| <= |flat| && (out.ok <==> |lines| == |flat|)
            && (forall i :: 0 <= i < |lines| ==>
                  TreeIn(parser, lines[i]) == NewPayload(fl, JsonOf(parser, flat[i].event), c))
            && Flat(chunks) == flat[..|lines|] && |bodies| == |chunks|
            && (forall k :: 0 <= k < |bodies| ==>
                  && |bodies[k]| == 1 + |chunks[k].events|
                  && TreeIn(parser, bodies[k][0]) == NewMetadata(fl, TreeOf(parser, chunks[k].metadata), c.bits))
  {
    hide SendBatchesSpec, Delivered, Flat, Chunks, EventLine, EventLinesOf, TreeIn, NewPayload, NewMetadata, Load,
      Clean, MetadataLine, TreeOf, IsOfLine;
    var batches := Load(parser, files).value.batches;
    var out := SendBatchesSpec(burst, o, clock, sent, batches);
    var lines, flat := DeliveredLines(fl, parser, c, out), Flat(batches);
    LoadedAreClean(parser, files);
    FlatOfClean(parser, batches);
    DeliveredLinesAre(fl, parser, c, burst, o, clock, sent, batches);
    PassDelivery(burst, o, clock, sent, batches);
    ChunksDeliver(out.trace);
    forall i | 0 <= i < |lines|
      ensures TreeIn(parser, lines[i]) == NewPayload(fl, JsonOf(parser, flat[i].event), c)
    {
      LineOf(parser, flat[i].event);
      EventLineTree(fl, parser, flat[i].event, c);
    }
    var bodies, chunks := Bodies(fl, parser, c, out.trace), Chunks(out.trace);
    forall k | 0 <= k < |bodies|
      ensures |bodies[k]| == 1 + |chunks[k].events|
      ensures TreeIn(parser, bodies[k][0]) == NewMetadata(fl, TreeOf(parser, chunks[k].metadata), c.bits)
    {
      MetadataLineTree(fl, parser, chunks[k].metadata, c.bits);
    }
  }

  // ---------------------------------------------------------------- the trace graph

  /** The value under the object type in a written line. */
  function BodyIn(parser: Parser, l: OutLine): Json.Value {
    var fields := FieldsOf(TreeIn(parser, l));
    if fields == [] then Json.Other("") else fields[0].value
  }

  /** Field `p` of a loaded event is a string ID. */
  predicate IsStringId(parser: Parser, e: Event, p: nat) {
    var body := parser(e.payload).body;
    body.Object? && p < |body.fields| && body.fields[p].value.String?
    && body.fields[p].key in {"id", "parent_id", "trace_id", "transaction_id"}
  }

  function IdAt(parser: Parser, e: Event, p: nat): Randomize.Bytes
    requires IsStringId(parser, e, p)
  {
    parser(e.payload).body.fields[p].value.text
  }

  /** If field `p` of `e` and field `q` of `d` are string IDs, then in the lines `l` and `m` written for
      these events they are the same exactly when they were, up to the case of hexadecimal IDs. */
  predicate IdsAlike(parser: Parser, e: Event, p: nat, l: OutLine, d: Event, q: nat, m: OutLine) {
    IsStringId(parser, e, p) && IsStringId(parser, d, q) ==>
      var s, t := IdAt(parser, e, p), IdAt(parser, d, q);
      var v, w := FieldsOf(BodyIn(parser, l)), FieldsOf(BodyIn(parser, m));
      && p < |v| && v[p].key == parser(e.payload).body.fields[p].key
      && q < |w| && w[q].key == parser(d.payload).body.fields[q].key
      && (v[p].value == w[q].value <==>
            s == t || (Randomize.IsHex(s) && Randomize.IsHex(t) && Randomize.Lower(s) == Randomize.Lower(t)))
  }

  lemma DeliveredLinesUnfold(fl: Flags, parser: Parser, c: Context, out: Outcome)
    ensures DeliveredLines(fl, parser, c, out) == EventLinesOf(Bodies(fl, parser, c, out.trace))
  {
  }

  lemma BodyOfTree(fl: Flags, parser: Parser, c: Context, l: OutLine, e: Event)
    requires EventFlags(fl) && TreeIn(parser, l) == NewPayload(fl, JsonOf(parser, e), c)
    ensures BodyIn(parser, l) == NewBody(fl, JsonOf(parser, e), c)
  {
    hide TreeIn;
  }

  lemma LinesHaveIdsAlike(fl: Flags, parser: Parser, c: Context, e: Event, p: nat, l: OutLine, d: Event, q: nat,
                          m: OutLine)
    requires fl.ids
    requires TreeIn(parser, l) == NewPayload(fl, JsonOf(parser, e), c)
    requires TreeIn(parser, m) == NewPayload(fl, JsonOf(parser, d), c)
    ensures IdsAlike(parser, e, p, l, d, q, m)
  {
    hide Randomize.IsHex, Randomize.Lower, NewField, TreeIn, BodyIn;
    if IsStringId(parser, e, p) && IsStringId(parser, d, q) {
      BodyOfTree(fl, parser, c, l, e);
      BodyOfTree(fl, parser, c, m, d);
      Rewriting.TraceGraphKept(fl, c, JsonOf(parser, e), p, JsonOf(parser, d), q);
    }
  }

  /** Over everything that a pass delivers, whatever failed and whatever the batches: any two string
      IDs of any two delivered events are the same in the written lines exactly when they were the
      same in the loaded ones, up to the case of hexadecimal IDs. */
  lemma DeliveredIdsKept(fl: Flags, parser: Parser, files: seq<seq<Line>>, c: Context, burst: int, o: Oracle,
                         clock: nat, sent: nat)
    requires Load(parser, files).Ok? && fl.ids
    ensures var batches := Load(parser, files).value.batches;
            var lines := DeliveredLines(fl, parser, c, SendBatchesSpec(burst, o, clock, sent, batches));
            var flat := Flat(batches);
            && |lines| <= |flat|
            && forall i: nat, p: nat, j: nat, q: nat :: i < |lines| && j < |lines| ==>
                 IdsAlike(parser, flat[i].event, p, lines[i], flat[j].event, q, lines[j])
  {
    hide *;
    var out := SendBatchesSpec(burst, o, clock, sent, Load(parser, files).value.batches);
    var lines, flat := DeliveredLines(fl, parser, c, out), Flat(Load(parser, files).value.batches);
    PassWritesLoaded(fl, parser, files, c, burst, o, clock, sent);
    DeliveredLinesUnfold(fl, parser, c, out);
    forall i: nat, p: nat, j: nat, q: nat | i < |lines| && j < |lines|
      ensures IdsAlike(parser, flat[i].event, p, lines[i], flat[j].event, q, lines[j])
    {
      LinesHaveIdsAlike(fl, parser, c, flat[i].event, p, lines[i], flat[j].event, q, lines[j]);
    }
  }

  // ---------------------------------------------------------------- times

  /** Field `p` of an event is its timestamp, and that gives the time `t`. */
  ghost predicate IsTime(parser: Parser, e: Event, p: nat, t: int) {
    var body := parser(e.payload).body;
    && body.Object? && p < |body.fields| && body.fields[p].key == "timestamp"
    && IsTimeOf(parser(e.payload).timestamp, t) && t != ZERO_TIME
  }

  /** The written time of a delivered event. */
  function TimeIn(parser: Parser, l: OutLine, p: nat): Json.Value {
    var fields := FieldsOf(BodyIn(parser, l));
    if p < |fields| then fields[p].value else Json.Other("")
  }

  lemma {:induction false} FlatTimes(batches: seq<Batch>, i: nat)
    requires i < |Flat(batches)| && Flat(batches)[i].event.timestamp != ZERO_TIME
    ensures Flat(batches)[i].event.timestamp in Timestamps.Times(batches)
  {
    var t := Flat(batches)[i].event.timestamp;
    FlatUnfolds(batches);
    var b, n := batches[0], |batches[0].events|;
    if i < n {
      assert b.events[i].timestamp == t;
      Timestamps.TimesOfBatch(batches, 0, t);
    } else {
      FlatTimes(batches[1..], i - n);
      Timestamps.TimesOfRest(batches, t);
    }
  }

  lemma TimeOfPayload(fl: Flags, parser: Parser, c: Context, l: OutLine, e: Event, p: nat)
    requires fl.timestamps && IsTime(parser, e, p, e.timestamp)
    requires TreeIn(parser, l) == NewPayload(fl, JsonOf(parser, e), c)
    ensures TimeIn(parser, l, p) == NewTime(fl, e.timestamp, c)
  {
    hide TreeIn, NewTime, IsTimeOf;
    BodyOfTree(fl, parser, c, l, e);
  }

  lemma IsTimeIs(parser: Parser, e: Event, p: nat, t: int)
    requires IsOfLine(parser, e) && IsTime(parser, e, p, t)
    ensures e.timestamp == t != ZERO_TIME
  {
    hide IsTimeOf, TimeOf;
    TimeOfField(parser(e.payload).timestamp, t);
  }

  /** Written times for the latest stack: neither is before the base time, and they are as far apart
      as the loaded times exactly when the later of these is within a 64-bit duration of the earliest
      of all, or the two are the same. */
  predicate MovedAlike(v: Json.Value, w: Json.Value, t: int, u: int, c: Context) {
    && v.Instant? && w.Instant? && c.base <= v.ns <= w.ns
    && (w.ns - v.ns == u - t <==> u - c.minTimestamp <= 0x7FFF_FFFF_FFFF_FFFF || t == u)
  }

  /** Written times for 7.x: within a microsecond as far apart as the loaded times, and exactly as far
      when these are whole microseconds apart. */
  predicate MovedWithinMicros(v: Json.Value, w: Json.Value, t: int, u: int, c: Context) {
    && v.Micros? && w.Micros? && c.base / 1000 <= v.us
    && var difference := (w.us as int - v.us as int) * 1000;
       && u - t - 1000 < difference < u - t + 1000
       && ((u - t) % 1000 == 0 ==> difference == u - t)
  }

  /** If field `p` of `e` and field `q` of `d` are their timestamps and `e` is not later, then the times
      in the lines `l` and `m` written for these events are moved alike. For 7.x this takes a base time
      and a span that fit a 64-bit duration. */
  ghost predicate TimesAlike(fl: Flags, parser: Parser, c: Context, e: Event, p: nat, l: OutLine, d: Event, q: nat,
                             m: OutLine) {
    forall t, u :: IsTime(parser, e, p, t) && IsTime(parser, d, q, u) && t <= u ==>
      var v, w := TimeIn(parser, l, p), TimeIn(parser, m, q);
      if fl.version != Generic7x then MovedAlike(v, w, t, u, c)
      else u - c.minTimestamp <= 0x7FFF_FFFF_FFFF_FFFF && 0 <= c.base <= 0x7FFF_FFFF_FFFF_FFFF ==>
             MovedWithinMicros(v, w, t, u, c)
  }

  lemma LinesHaveTimesAlike(fl: Flags, parser: Parser, files: seq<seq<Line>>, c: Context, i: nat, p: nat, l: OutLine,
                            j: nat, q: nat, m: OutLine)
    requires Load(parser, files).Ok? && fl.timestamps && c.minTimestamp == Load(parser, files).value.minTimestamp
    requires var flat := Flat(Load(parser, files).value.batches);
             && i < |flat| && TreeIn(parser, l) == NewPayload(fl, JsonOf(parser, flat[i].event), c)
             && j < |flat| && TreeIn(parser, m) == NewPayload(fl, JsonOf(parser, flat[j].event), c)
    ensures var flat := Flat(Load(parser, files).value.batches);
            TimesAlike(fl, parser, c, flat[i].event, p, l, flat[j].event, q, m)
  {
    hide Load, Flat, IsTime, TimeIn, TreeIn, Timestamps.Times, NewPayload, Clean, IsOfLine;
    var batches := Load(parser, files).value.batches;
    var e, d := Flat(batches)[i].event, Flat(batches)[j].event;
    LoadedAreClean(parser, files);
    FlatOfClean(parser, batches);
    forall t, u | IsTime(parser, e, p, t) && IsTime(parser, d, q, u) && t <= u
      ensures var v, w := TimeIn(parser, l, p), TimeIn(parser, m, q);
              if fl.version != Generic7x then MovedAlike(v, w, t, u, c)
              else u - c.minTimestamp <= 0x7FFF_FFFF_FFFF_FFFF && 0 <= c.base <= 0x7FFF_FFFF_FFFF_FFFF ==>
                     MovedWithinMicros(v, w, t, u, c)
    {
      IsTimeIs(parser, e, p, t);
      IsTimeIs(parser, d, q, u);
      FlatTimes(batches, i);
      FlatTimes(batches, j);
      TimeOfPayload(fl, parser, c, l, e, p);
      TimeOfPayload(fl, parser, c, m, d, q);
      if fl.version != Generic7x {
        Timestamps.LatestIsTranslation(parser, files, c.base, t, u);
      } else if u - c.minTimestamp <= 0x7FFF_FFFF_FFFF_FFFF && 0 <= c.base <= 0x7FFF_FFFF_FFFF_FFFF {
        Timestamps.SevenIsTranslation(parser, files, c.base, t, u);
      }
    }
  }

  /** Everything a pass delivers is moved to the time of the pass as a whole, if the context holds
      the earliest time that loading found. */
  lemma DeliveredTimesMoved(fl: Flags, parser: Parser, files: seq<seq<Line>>, c: Context, burst: int, o: Oracle,
                            clock: nat, sent: nat)
    requires Load(parser, files).Ok? && fl.timestamps && c.minTimestamp == Load(parser, files).value.minTimestamp
    ensures var batches := Load(parser, files).value.batches;
            var lines := DeliveredLines(fl, parser, c, SendBatchesSpec(burst, o, clock, sent, batches));
            var flat := Flat(batches);
            && |lines| <= |flat|
            && forall i: nat, p: nat, j: nat, q: nat :: i < |lines| && j < |lines| ==>
                 TimesAlike(fl, parser, c, flat[i].event, p, lines[i], flat[j].event, q, lines[j])
  {
    hide *;
    var out := SendBatchesSpec(burst, o, clock, sent, Load(parser, files).value.batches);
    var lines, flat := DeliveredLines(fl, parser, c, out), Flat(Load(parser, files).value.batches);
    PassWritesLoaded(fl, parser, files, c, burst, o, clock, sent);
    DeliveredLinesUnfold(fl, parser, c, out);
    forall i: nat, p: nat, j: nat, q: nat | i < |lines| && j < |lines|
      ensures TimesAlike(fl, parser, c, flat[i].event, p, lines[i], flat[j].event, q, lines[j])
    {
      LinesHaveTimesAlike(fl, parser, files, c, i, p, lines[i], j, q, lines[j]);
    }
  }

  // ---------------------------------------------------------------- from the files to the requests

  /** The lines are written for the loaded events in order: the rewritten trees, IDs that are the same
      exactly when they were, and times moved to the time of the pass. */
  ghost predicate IsReplay(fl: Flags, parser: Parser, c: Context, lines: seq<OutLine>, flat: seq<Tagged>) {
    && |lines| <= |flat|
    && (forall i :: 0 <= i < |lines| ==> TreeIn(parser, lines[i]) == NewPayload(fl, JsonOf(parser, flat[i].event), c))
    && (fl.ids ==>
          forall i: nat, p: nat, j: nat, q: nat :: i < |lines| && j < |lines| ==>
            IdsAlike(parser, flat[i].event, p, lines[i], flat[j].event, q, lines[j]))
    && (fl.timestamps ==>
          forall i: nat, p: nat, j: nat, q: nat :: i < |lines| && j < |lines| ==>
            TimesAlike(fl, parser, c, flat[i].event, p, lines[i], flat[j].event, q, lines[j]))
  }

  lemma PassIsReplay(fl: Flags, parser: Parser, files: seq<seq<Line>>, c: Context, burst: int, o: Oracle, clock: nat,
                     sent: nat)
    requires Load(parser, files).Ok? && c.minTimestamp == Load(parser, files).value.minTimestamp
    ensures var batches := Load(parser, files).value.batches;
            var out := SendBatchesSpec(burst, o, clock, sent, batches);
            var lines := EventLinesOf(Bodies(fl, parser, c, out.trace));
            && IsReplay(fl, parser, c, lines, Flat(batches))
            && (out.ok <==> |lines| == |Flat(batches)|)
  {
    hide SendBatchesSpec, Chunks, Flat, EventLinesOf, TreeIn, NewPayload, NewMetadata, Load, TreeOf, IdsAlike,
      TimesAlike, BodiesOf;
    PassWritesLoaded(fl, parser, files, c, burst, o, clock, sent);
    if fl.ids { DeliveredIdsKept(fl, parser, files, c, burst, o, clock, sent); }
    if fl.timestamps { DeliveredTimesMoved(fl, parser, files, c, burst, o, clock, sent); }
  }

  /** Every pass of a loop is such a replay, each with the context it starts with. */
  lemma {:induction false} PassesAreReplays(fl: Flags, parser: Parser, files: seq<seq<Line>>, c: Context, burst: int,
                                            o: Oracle, clock: nat, sent: nat, forever: bool, rounds: nat, k: nat)
    requires Load(parser, files).Ok? && c.minTimestamp == Load(parser, files).value.minTimestamp
    requires k < |Passes(burst, o, clock, sent, Load(parser, files).value.batches, forever, rounds)|
    ensures var batches := Load(parser, files).value.batches;
            var pass := Passes(burst, o, clock, sent, batches, forever, rounds)[k];
            var lines := EventLinesOf(Bodies(fl, parser, c, pass.trace));
            && IsReplay(fl, parser, c, lines, Flat(batches))
            && (pass.ok <==> |lines| == |Flat(batches)|)
    decreases rounds
  {
    hide *;
    var batches := Load(parser, files).value.batches;
    NoRounds(burst, o, clock, sent, batches, forever);
    if rounds > 0 {
      LoopUnfolds(burst, o, clock, sent, batches, forever, rounds);
      var pass := SendBatchesSpec(burst, o, clock, sent, batches);
      PassIsReplay(fl, parser, files, c, burst, o, clock, sent);
      if k > 0 {
        PassesAreReplays(fl, parser, files, c, burst, o, pass.clock,
                         if pass.ok then Reduced(burst, pass.sent) else pass.sent, forever, rounds - 1, k - 1);
      }
    }
  }

  /** Loads the files into a handler and makes one pass. The context of the pass holds the earliest time
      that was loaded and the time and the random bits drawn at its start. */
  method LoadAndSend(parser: Parser, files: seq<seq<Line>>, flags: Flags, burst: int, runForever: bool, world: World)
    returns (ok: Result<bool, LoadError>)
    requires Load(parser, files).Ok? ==> AllWritable(flags, parser, Load(parser, files).value.batches)
    modifies world
    ensures match Load(parser, files)
            case Err(e) => ok == Err(e) && world.bodies == old(world.bodies)
            case Ok(loaded) =>
              var c := Context(loaded.minTimestamp, world.time(old(world.read)), world.random(old(world.drawn)));
              && ok.Ok? && old(world.bodies) <= world.bodies
              && var lines, flat := EventLinesOf(world.bodies[|old(world.bodies)|..]), Flat(loaded.batches);
                 && IsReplay(flags, parser, c, lines, flat)
                 && (ok.value <==> |lines| == |flat|)
  {
    hide *;
    var loaded := New(parser, files);
    if loaded.Err? { return Err(loaded.error); }
    var handler := new Handler(parser, loaded.value, flags, burst, runForever, world);
    ghost var c := Context(loaded.value.minTimestamp, world.time(world.read), world.random(world.drawn));
    ghost var out := SendBatchesSpec(burst, world.oracle, world.clock, 0, loaded.value.batches);
    ghost var before := world.bodies;
    PassIsReplay(flags, parser, files, c, burst, world.oracle, world.clock, 0);
    var _, sent := handler.SendBatches();
    assert world.bodies[|before|..] == Bodies(flags, parser, c, out.trace);
    ok := Ok(sent);
  }
}
