/**
  Replaying batches: sendBatch, sendBatches, SendBatches and SendBatchesInLoop.

  The limiter, closing the writer and the transport are an oracle that says for each call, in the
  order of the calls, whether it succeeds. What a sender does is a trace of observations. The
  methods, which update the counter of events sent in place and write every chunk through an event
  writer, are proved to do what the functions below say; the properties of those functions are in
  Pacing.dfy, and what the accepted requests hold is in Output.dfy.
*/
module Replay {
  import opened Events
  import Loader
  import Writer

  type Oracle = nat -> bool

  /** What an outsider sees a sender do. */
  datatype Observation =
    | Granted(tokens: nat)                           // the limiter granted tokens
    | WaitFailed
    | WriteFailed
    | SendFailed
    | Acked(metadata: Line, events: seq<Event>)      // one request was accepted

  type Trace = seq<Observation>

  /** The counter and the number of oracle answers used so far, what was seen, and success. */
  datatype Outcome = Outcome(sent: nat, clock: nat, trace: Trace, ok: bool)

  // ---------------------------------------------------------------- specification

  /** The events of one request: up to the end of the burst that is being filled. */
  function ChunkSize(burst: int, sent: nat, n: nat): (size: nat)
    requires n > 0
    ensures 0 < size <= n
  {
    if burst <= 0 then n
    else
      var capacity := burst - sent % burst;
      if n > capacity then capacity else n
  }

  predicate MustWait(burst: int, sent: nat) {
    burst > 0 && sent % burst == 0
  }

  /** An outcome that other observations came before. */
  function After(before: Trace, out: Outcome): Outcome {
    out.(trace := before + out.trace)
  }

  lemma AfterAfter(a: Trace, b: Trace, out: Outcome)
    ensures After(a, After(b, out)) == After(a + b, out)
  {
  }

  /** One request: wait if a burst starts here, write, send. */
  function SendChunkSpec(burst: int, o: Oracle, clock: nat, sent: nat, b: Batch): (out: Outcome)
    requires b.events != []
    ensures out.ok ==> out.sent == sent + ChunkSize(burst, sent, |b.events|)
    ensures !out.ok ==> out.sent == sent
  {
    var waits := MustWait(burst, sent);
    if waits && !o(clock) then Outcome(sent, clock + 1, [WaitFailed], false)
    else
      var granted := if waits then [Granted(burst)] else [];
      var next := if waits then clock + 1 else clock;
      var n := ChunkSize(burst, sent, |b.events|);
      if !o(next) then Outcome(sent, next + 1, granted + [WriteFailed], false)
      else if !o(next + 1) then Outcome(sent, next + 2, granted + [SendFailed], false)
      else Outcome(sent + n, next + 2, granted + [Acked(b.metadata, b.events[..n])], true)
  }

  /** One batch, chunk by chunk. */
  function SendBatchSpec(burst: int, o: Oracle, clock: nat, sent: nat, b: Batch): (out: Outcome)
    decreases |b.events|
  {
    if b.events == [] then Outcome(sent, clock, [], true)
    else
      var first := SendChunkSpec(burst, o, clock, sent, b);
      if !first.ok then first
      else
        var left := Batch(b.metadata, b.events[first.sent - sent..]);
        After(first.trace, SendBatchSpec(burst, o, first.clock, first.sent, left))
  }

  /** One pass over the batches; the first failure ends it. */
  function SendBatchesSpec(burst: int, o: Oracle, clock: nat, sent: nat, batches: seq<Batch>): (out: Outcome)
    decreases |batches|
  {
    if batches == [] then Outcome(sent, clock, [], true)
    else
      var first := SendBatchSpec(burst, o, clock, sent, batches[0]);
      if !first.ok then first
      else After(first.trace, SendBatchesSpec(burst, o, first.clock, first.sent, batches[1..]))
  }

  function Reduced(burst: int, sent: nat): nat {
    if burst > 0 then sent % burst else sent
  }

  /** Passes until the context is done, after `rounds` of them, or until a pass fails and the
      handler does not run forever. */
  function LoopSpec(burst: int, o: Oracle, clock: nat, sent: nat, batches: seq<Batch>, forever: bool,
                    rounds: nat): (out: Outcome)
    decreases rounds
  {
    if rounds == 0 then Outcome(sent, clock, [], true)
    else
      var pass := SendBatchesSpec(burst, o, clock, sent, batches);
      if !pass.ok && !forever then pass
      else
        var next := if pass.ok then Reduced(burst, pass.sent) else pass.sent;
        After(pass.trace, LoopSpec(burst, o, pass.clock, next, batches, forever, rounds - 1))
  }

  /** The passes that the loop makes. */
  function Passes(burst: int, o: Oracle, clock: nat, sent: nat, batches: seq<Batch>, forever: bool,
                  rounds: nat): seq<Outcome>
    decreases rounds
  {
    if rounds == 0 then []
    else
      var pass := SendBatchesSpec(burst, o, clock, sent, batches);
      if !pass.ok && !forever then [pass]
      else
        var next := if pass.ok then Reduced(burst, pass.sent) else pass.sent;
        [pass] + Passes(burst, o, pass.clock, next, batches, forever, rounds - 1)
  }

  // ---------------------------------------------------------------- what is sent

  /** The requests accepted in a trace, as batches. */
  function Chunks(t: Trace): seq<Batch> {
    if t == [] then []
    else (if t[0].Acked? then [Batch(t[0].metadata, t[0].events)] else []) + Chunks(t[1..])
  }

  lemma NoChunks()
    ensures Chunks([]) == []
  {
  }

  lemma ChunksOfFirst(t: Trace)
    requires t != []
    ensures Chunks(t) == (if t[0].Acked? then [Batch(t[0].metadata, t[0].events)] else []) + Chunks(t[1..])
  {
  }

  lemma {:induction false} ChunksConcat(a: Trace, b: Trace)
    ensures Chunks(a + b) == Chunks(a) + Chunks(b)
  {
    hide Chunks;
    if a == [] {
      NoChunks();
      assert a + b == b;
    } else {
      ChunksConcat(a[1..], b);
      ChunksOfFirst(a);
      ChunksOfFirst(a + b);
      assert (a + b)[1..] == a[1..] + b && (a + b)[0] == a[0];
    }
  }

  lemma ChunkOfTrace(burst: int, o: Oracle, clock: nat, sent: nat, b: Batch)
    requires b.events != []
    ensures var out := SendChunkSpec(burst, o, clock, sent, b);
            && 0 <= out.sent - sent <= |b.events|
            && Chunks(out.trace) == (if out.ok then [Batch(b.metadata, b.events[..out.sent - sent])] else [])
            && (out.ok ==> out.sent > sent && (burst <= 0 ==> out.sent - sent == |b.events|))
  {
    hide Chunks;
    var t := SendChunkSpec(burst, o, clock, sent, b).trace;
    NoChunks();
    ChunksOfFirst(t);
    if |t| == 2 {
      ChunksOfFirst(t[1..]);
      assert t[1..][1..] == [];
    } else {
      assert t[1..] == [];
    }
  }

  type Body = seq<Writer.OutLine>

  /** The request bodies of chunks: for each of them its metadata line, then its event lines. */
  function BodiesOf(fl: Writer.Flags, parser: Parser, c: Writer.Context, chunks: seq<Batch>): (bodies: seq<Body>)
    ensures |bodies| == |chunks|
    ensures forall k :: 0 <= k < |chunks| ==> bodies[k] == Writer.BatchLines(fl, parser, chunks[k], c)
  {
    seq(|chunks|, k requires 0 <= k < |chunks| => Writer.BatchLines(fl, parser, chunks[k], c))
  }

  /** The bodies of the requests accepted in a trace. */
  function Bodies(fl: Writer.Flags, parser: Parser, c: Writer.Context, t: Trace): seq<Body> {
    BodiesOf(fl, parser, c, Chunks(t))
  }

  lemma BodiesConcat(fl: Writer.Flags, parser: Parser, c: Writer.Context, a: Trace, b: Trace)
    ensures Bodies(fl, parser, c, a + b) == Bodies(fl, parser, c, a) + Bodies(fl, parser, c, b)
  {
    ChunksConcat(a, b);
  }

  lemma NoBodies(fl: Writer.Flags, parser: Parser, c: Writer.Context)
    ensures Bodies(fl, parser, c, []) == []
  {
  }

  /** The bodies of passes, each written with a context of its own. */
  function LoopBodies(fl: Writer.Flags, parser: Parser, contexts: nat -> Writer.Context,
                      passes: seq<Outcome>): seq<Body> {
    if passes == [] then []
    else
      var n := |passes| - 1;
      LoopBodies(fl, parser, contexts, passes[..n]) + Bodies(fl, parser, contexts(n), passes[n].trace)
  }

  lemma LoopBodiesExtend(fl: Writer.Flags, parser: Parser, contexts: nat -> Writer.Context, passes: seq<Outcome>,
                         pass: Outcome)
    ensures LoopBodies(fl, parser, contexts, passes + [pass])
         == LoopBodies(fl, parser, contexts, passes) + Bodies(fl, parser, contexts(|passes|), pass.trace)
  {
    hide Bodies;
    assert (passes + [pass])[..|passes|] == passes;
  }

  // ---------------------------------------------------------------- the imperative form

  /** The limiter, the transport, the random source and the clock, with the record of what happened:
      the observations, and the bodies of the requests that were accepted. */
  class World {
    const oracle: Oracle
    const random: nat -> bv64
    const time: nat -> int
    var clock: nat
    var drawn: nat          // random words drawn so far
    var read: nat           // times read so far
    var trace: Trace
    var bodies: seq<Body>

    constructor (oracle: Oracle, random: nat -> bv64, time: nat -> int)
      ensures this.oracle == oracle && this.random == random && this.time == time
      ensures clock == 0 && drawn == 0 && read == 0 && trace == [] && bodies == []
    {
      this.oracle, this.random, this.time := oracle, random, time;
      clock, drawn, read, trace, bodies := 0, 0, 0, [], [];
    }

    method Uint64() returns (bits: bv64)
      modifies this`drawn
      ensures bits == random(old(drawn)) && drawn == old(drawn) + 1
    {
      bits := random(drawn);
      drawn := drawn + 1;
    }

    method Now() returns (t: int)
      modifies this`read
      ensures t == time(old(read)) && read == old(read) + 1
    {
      t := time(read);
      read := read + 1;
    }

    method WaitN(tokens: nat) returns (ok: bool)
      modifies this`clock, this`trace
      ensures ok == oracle(old(clock)) && clock == old(clock) + 1
      ensures trace == old(trace) + [if ok then Granted(tokens) else WaitFailed]
    {
      ok := oracle(clock);
      clock := clock + 1;
      trace := trace + [if ok then Granted(tokens) else WaitFailed];
    }

    /** Closing the writer, which may fail. */
    method Close() returns (ok: bool)
      modifies this`clock, this`trace
      ensures ok == oracle(old(clock)) && clock == old(clock) + 1
      ensures trace == old(trace) + if ok then [] else [WriteFailed]
    {
      ok := oracle(clock);
      clock := clock + 1;
      trace := trace + if ok then [] else [WriteFailed];
    }

    /** Sends a body that holds the given chunk. */
    method SendEvents(body: Body, chunk: Batch) returns (ok: bool)
      modifies this`clock, this`trace, this`bodies
      ensures ok == oracle(old(clock)) && clock == old(clock) + 1
      ensures trace == old(trace) + [if ok then Acked(chunk.metadata, chunk.events) else SendFailed]
      ensures bodies == old(bodies) + if ok then [body] else []
    {
      ok := oracle(clock);
      clock := clock + 1;
      trace := trace + [if ok then Acked(chunk.metadata, chunk.events) else SendFailed];
      bodies := bodies + if ok then [body] else [];
    }
  }

  /** The counter that a sender keeps across batches and passes. */
  class SenderState {
    const burst: int
    var sent: nat

    constructor (burst: int)
      ensures this.burst == burst && sent == 0
    {
      this.burst, sent := burst, 0;
    }
  }

  predicate AllWritable(fl: Writer.Flags, parser: Parser, batches: seq<Batch>) {
    forall i :: 0 <= i < |batches| ==> Writer.Writable(fl, parser, batches[i].events)
  }

  /** Why the loop ended. */
  datatype LoopError = ContextDone | PassFailed

  lemma NoRounds(burst: int, o: Oracle, clock: nat, sent: nat, batches: seq<Batch>, forever: bool)
    ensures LoopSpec(burst, o, clock, sent, batches, forever, 0) == Outcome(sent, clock, [], true)
    ensures Passes(burst, o, clock, sent, batches, forever, 0) == []
  {
  }

  lemma LoopUnfolds(burst: int, o: Oracle, clock: nat, sent: nat, batches: seq<Batch>, forever: bool, rounds: nat)
    requires rounds > 0
    ensures var pass := SendBatchesSpec(burst, o, clock, sent, batches);
            var next := if pass.ok then Reduced(burst, pass.sent) else pass.sent;
            if pass.ok || forever then
              && LoopSpec(burst, o, clock, sent, batches, forever, rounds)
              == After(pass.trace, LoopSpec(burst, o, pass.clock, next, batches, forever, rounds - 1))
              && Passes(burst, o, clock, sent, batches, forever, rounds)
              == [pass] + Passes(burst, o, pass.clock, next, batches, forever, rounds - 1)
            else
              && LoopSpec(burst, o, clock, sent, batches, forever, rounds) == pass
              && Passes(burst, o, clock, sent, batches, forever, rounds) == [pass]
  {
  }

  lemma NoLoopBodies(fl: Writer.Flags, parser: Parser, contexts: nat -> Writer.Context)
    ensures LoopBodies(fl, parser, contexts, []) == []
  {
  }

  lemma BodiesOfChunk(fl: Writer.Flags, parser: Parser, c: Writer.Context, burst: int, o: Oracle, clock: nat,
                      sent: nat, b: Batch)
    requires b.events != []
    ensures var out := SendChunkSpec(burst, o, clock, sent, b);
            Bodies(fl, parser, c, out.trace) ==
              if out.ok then [Writer.BatchLines(fl, parser, Batch(b.metadata, b.events[..out.sent - sent]), c)]
              else []
  {
    hide Chunks, Writer.BatchLines;
    ChunkOfTrace(burst, o, clock, sent, b);
  }

  lemma NothingBefore(out: Outcome)
    ensures After([], out) == out
  {
  }

  lemma AfterIs(before: Trace, out: Outcome)
    ensures After(before, out) == Outcome(out.sent, out.clock, before + out.trace, out.ok)
  {
  }

  class Handler {
    const batches: seq<Batch>
    const minTimestamp: int
    const parser: Parser
    const flags: Writer.Flags
    const burst: int          // of the limiter; 0 when there is no limit
    const runForever: bool
    const world: World

    constructor (parser: Parser, loaded: Loader.Loaded, flags: Writer.Flags, burst: int, runForever: bool,
                 world: World)
      ensures batches == loaded.batches && minTimestamp == loaded.minTimestamp && this.parser == parser
      ensures this.flags == flags && this.burst == burst && this.runForever == runForever && this.world == world
    {
      batches, minTimestamp, this.parser := loaded.batches, loaded.minTimestamp, parser;
      this.flags, this.burst, this.runForever, this.world := flags, burst, runForever, world;
    }

    /** The state of sender and world after a call is the given outcome of the state before, and the
        bodies of the requests accepted meanwhile were written with the given context. */
    twostate predicate Did(s: SenderState, out: Outcome, ok: bool, c: Writer.Context)
      reads s, world
    {
      && s.sent == out.sent && world.clock == out.clock && ok == out.ok
      && world.trace == old(world.trace) + out.trace
      && world.bodies == old(world.bodies) + Bodies(flags, parser, c, out.trace)
    }

    /** Writes a chunk with a new event writer. */
    method WriteChunk(chunk: Batch, c: Writer.Context) returns (body: Body)
      requires Writer.Writable(flags, parser, chunk.events)
      ensures body == Writer.BatchLines(flags, parser, chunk, c)
    {
      hide Writer.BatchLines, Writer.Writable;
      var writer := new Writer.EventWriter();
      writer.WriteAPMEvents(flags, parser, chunk, c);
      body := writer.lines;
    }

    /** One turn of the chunk loop. */
    method SendChunk(s: SenderState, b: Batch, events: seq<Event>, c: Writer.Context) returns (n: nat, ok: bool)
      requires events != [] && Writer.Writable(flags, parser, events)
      modifies s, world`clock, world`trace, world`bodies
      ensures Did(s, old(SendChunkSpec(s.burst, world.oracle, world.clock, s.sent, Batch(b.metadata, events))), ok, c)
      ensures ok ==> s.sent == old(s.sent) + n && n <= |events|
    {
      hide Bodies, Chunks, Writer.BatchLines, Writer.ValidEvent, Writer.JsonOf;
      ghost var out := SendChunkSpec(s.burst, world.oracle, world.clock, s.sent, Batch(b.metadata, events));
      BodiesOfChunk(flags, parser, c, s.burst, world.oracle, world.clock, s.sent, Batch(b.metadata, events));
      n := |events|;
      if s.burst > 0 {
        var mod := s.sent % s.burst;
        if mod == 0 {
          var waited := world.WaitN(s.burst);
          if !waited { return n, false; }
        }
        var capacity := s.burst - mod;
        if n > capacity { n := capacity; }
      }
      var chunk := Batch(b.metadata, events[..n]);
      var body := WriteChunk(chunk, c);
      var written := world.Close();
      if !written { return n, false; }
      ok := world.SendEvents(body, chunk);
      if !ok { return; }
      s.sent := s.sent + n;
    }

    method SendBatch(s: SenderState, b: Batch, c: Writer.Context) returns (ok: bool)
      requires Writer.Writable(flags, parser, b.events)
      modifies s, world`clock, world`trace, world`bodies
      ensures Did(s, old(SendBatchSpec(s.burst, world.oracle, world.clock, s.sent, b)), ok, c)
    {
      hide SendChunkSpec, After, Bodies, Writer.ValidEvent, Writer.JsonOf;
      var events := b.events;
      ghost var out := SendBatchSpec(s.burst, world.oracle, world.clock, s.sent, b);
      ghost var done: Trace := [];
      NothingBefore(out);
      NoBodies(flags, parser, c);
      while |events| > 0
        invariant Writer.Writable(flags, parser, events)
        invariant world.trace == old(world.trace) + done
        invariant world.bodies == old(world.bodies) + Bodies(flags, parser, c, done)
        invariant out == After(done, SendBatchSpec(s.burst, world.oracle, world.clock, s.sent,
                                                   Batch(b.metadata, events)))
        decreases |events|
      {
        ghost var first := SendChunkSpec(s.burst, world.oracle, world.clock, s.sent, Batch(b.metadata, events));
        ghost var before := done;
        AfterIs(done, first);
        BodiesConcat(flags, parser, c, done, first.trace);
        var n, accepted := SendChunk(s, b, events, c);
        assert world.bodies == old(world.bodies) + Bodies(flags, parser, c, done + first.trace);
        if !accepted { return false; }
        events := events[n..];
        done := done + first.trace;
        AfterAfter(before, first.trace,
                   SendBatchSpec(s.burst, world.oracle, world.clock, s.sent, Batch(b.metadata, events)));
      }
      AfterIs(done, Outcome(s.sent, world.clock, [], true));
      assert done + [] == done;
      return true;
    }

    /** One pass, with one draw of random bits and one base time for all its batches. */
    method SendBatchesFrom(s: SenderState) returns (sent: nat, ok: bool)
      requires AllWritable(flags, parser, batches)
      modifies s, world
      ensures Did(s, old(SendBatchesSpec(s.burst, world.oracle, world.clock, s.sent, batches)), ok,
                  Writer.Context(minTimestamp, world.time(old(world.read)), world.random(old(world.drawn))))
      ensures world.drawn == old(world.drawn) + 1 && world.read == old(world.read) + 1
      ensures sent == s.sent
    {
      hide SendBatchSpec, After, Bodies, Writer.Writable;
      var randomBits := world.Uint64();
      var baseTimestamp := world.Now();
      var c := Writer.Context(minTimestamp, baseTimestamp, randomBits);
      ghost var out := SendBatchesSpec(s.burst, world.oracle, world.clock, s.sent, batches);
      ghost var done: Trace := [];
      NothingBefore(out);
      NoBodies(flags, parser, c);
      var i := 0;
      while i < |batches|
        invariant 0 <= i <= |batches|
        invariant world.drawn == old(world.drawn) + 1 && world.read == old(world.read) + 1
        invariant world.trace == old(world.trace) + done
        invariant world.bodies == old(world.bodies) + Bodies(flags, parser, c, done)
        invariant out == After(done, SendBatchesSpec(s.burst, world.oracle, world.clock, s.sent, batches[i..]))
      {
        ghost var first := SendBatchSpec(s.burst, world.oracle, world.clock, s.sent, batches[i]);
        ghost var before := done;
        assert batches[i..][1..] == batches[i + 1..];
        AfterIs(done, first);
        BodiesConcat(flags, parser, c, done, first.trace);
        var sentBatch := SendBatch(s, batches[i], c);
        assert world.bodies == old(world.bodies) + Bodies(flags, parser, c, done + first.trace);
        if !sentBatch { return s.sent, false; }
        i := i + 1;
        done := done + first.trace;
        AfterAfter(before, first.trace, SendBatchesSpec(s.burst, world.oracle, world.clock, s.sent, batches[i..]));
      }
      AfterIs(done, Outcome(s.sent, world.clock, [], true));
      assert done + [] == done;
      return s.sent, true;
    }

    /** One pass with a counter of its own; returns how many events were accepted. */
    method SendBatches() returns (sent: nat, ok: bool)
      requires AllWritable(flags, parser, batches)
      modifies world
      ensures var out := old(SendBatchesSpec(burst, world.oracle, world.clock, 0, batches));
              && sent == out.sent && ok == out.ok && world.clock == out.clock
              && world.trace == old(world.trace) + out.trace
              && world.bodies == old(world.bodies)
                   + Bodies(flags, parser,
                            Writer.Context(minTimestamp, world.time(old(world.read)), world.random(old(world.drawn))),
                            out.trace)
    {
      hide SendBatchesSpec, Bodies, AllWritable;
      var s := new SenderState(burst);
      sent, ok := SendBatchesFrom(s);
    }

    /** `rounds` is the number of passes begun before the context is done. */
    method SendBatchesInLoop(rounds: nat) returns (error: LoopError)
      requires AllWritable(flags, parser, batches)
      modifies world
      ensures var out := old(LoopSpec(burst, world.oracle, world.clock, 0, batches, runForever, rounds));
              && world.clock == out.clock && error == (if out.ok then ContextDone else PassFailed)
              && world.trace == old(world.trace) + out.trace
      ensures world.bodies == old(world.bodies)
           + LoopBodies(flags, parser,
                        (i: nat) => Writer.Context(minTimestamp, world.time(old(world.read) + i),
                                                   world.random(old(world.drawn) + i)),
                        old(Passes(burst, world.oracle, world.clock, 0, batches, runForever, rounds)))
    {
      hide SendBatchesSpec, LoopSpec, Passes, After, Bodies, LoopBodies, AllWritable;
      var s := new SenderState(burst);
      ghost var contexts: nat -> Writer.Context :=
        (i: nat) => Writer.Context(minTimestamp, world.time(old(world.read) + i), world.random(old(world.drawn) + i));
      ghost var out := LoopSpec(burst, world.oracle, world.clock, s.sent, batches, runForever, rounds);
      ghost var passes := Passes(burst, world.oracle, world.clock, s.sent, batches, runForever, rounds);
      ghost var done: Trace := [];
      ghost var made: seq<Outcome> := [];
      NothingBefore(out);
      NoLoopBodies(flags, parser, contexts);
      assert [] + passes == passes;
      var left := rounds;
      while left > 0
        invariant fresh(s) && s.burst == burst
        invariant world.drawn == old(world.drawn) + |made| && world.read == old(world.read) + |made|
        invariant world.trace == old(world.trace) + done
        invariant world.bodies == old(world.bodies) + LoopBodies(flags, parser, contexts, made)
        invariant out == After(done, LoopSpec(burst, world.oracle, world.clock, s.sent, batches, runForever, left))
        invariant passes == made + Passes(burst, world.oracle, world.clock, s.sent, batches, runForever, left)
      {
        ghost var pass := SendBatchesSpec(burst, world.oracle, world.clock, s.sent, batches);
        ghost var before := done;
        AfterIs(done, pass);
        LoopUnfolds(burst, world.oracle, world.clock, s.sent, batches, runForever, left);
        LoopBodiesExtend(flags, parser, contexts, made, pass);
        var _, passed := SendBatchesFrom(s);
        made := made + [pass];
        assert world.bodies == old(world.bodies) + LoopBodies(flags, parser, contexts, made);
        if !passed && !runForever { return PassFailed; }
        left := left - 1;
        done := done + pass.trace;
        if passed && s.burst > 0 {
          s.sent := s.sent % s.burst;
        }
        AfterAfter(before, pass.trace, LoopSpec(burst, world.oracle, world.clock, s.sent, batches, runForever, left));
      }
      NoRounds(burst, world.oracle, world.clock, s.sent, batches, runForever);
      AfterIs(done, Outcome(s.sent, world.clock, [], true));
      assert done + [] == done && made + [] == made;
      return ContextDone;
    }
  }
}
