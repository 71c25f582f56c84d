/** What the traces of senders have in common: delivery, pacing by bursts, counting, and the
    reduction of the counter. */
module Pacing {
  import opened Basics
  import opened Events
  import opened Replay

  // ---------------------------------------------------------------- delivery

  /** An event with the metadata it is sent under. */
  datatype Tagged = Tagged(metadata: Line, event: Event)

  function Tag(metadata: Line, events: seq<Event>): (r: seq<Tagged>)
    ensures |r| == |events|
  {
    seq(|events|, i requires 0 <= i < |events| => Tagged(metadata, events[i]))
  }

  /** All events of the batches, each under its own batch's metadata. */
  function Flat(batches: seq<Batch>): seq<Tagged> {
    if batches == [] then [] else Tag(batches[0].metadata, batches[0].events) + Flat(batches[1..])
  }

  /** The events accepted in a trace, in order. */
  function Delivered(t: Trace): seq<Tagged> {
    if t == [] then []
    else (if t[0].Acked? then Tag(t[0].metadata, t[0].events) else []) + Delivered(t[1..])
  }

  lemma {:induction false} DeliveredConcat(a: Trace, b: Trace)
    ensures Delivered(a + b) == Delivered(a) + Delivered(b)
  {
    if a == [] {
      assert a + b == b;
    } else {
      DeliveredConcat(a[1..], b);
      assert (a + b)[1..] == a[1..] + b && (a + b)[0] == a[0];
    }
  }

  lemma ChunkDelivery(burst: int, o: Oracle, clock: nat, sent: nat, b: Batch)
    requires b.events != []
    ensures var out := SendChunkSpec(burst, o, clock, sent, b);
            var n := out.sent - sent;
            && 0 <= n <= |b.events|
            && (out.ok ==> 0 < n)
            && (!out.ok ==> n == 0)
            && Delivered(out.trace) == Tag(b.metadata, b.events[..n])
  {
  }

  /** A batch is its first chunk followed by the rest of the batch. */
  lemma BatchUnfolds(burst: int, o: Oracle, clock: nat, sent: nat, b: Batch)
    requires b.events != []
    ensures var first := SendChunkSpec(burst, o, clock, sent, b);
            SendBatchSpec(burst, o, clock, sent, b) ==
              if first.ok then
                After(first.trace,
                      SendBatchSpec(burst, o, first.clock, first.sent,
                                    Batch(b.metadata, b.events[first.sent - sent..])))
              else first
  {
  }

  lemma EmptyBatch(burst: int, o: Oracle, clock: nat, sent: nat, metadata: Line)
    ensures SendBatchSpec(burst, o, clock, sent, Batch(metadata, [])) == Outcome(sent, clock, [], true)
  {
  }

  lemma EmptyTrace(metadata: Line)
    ensures Delivered([]) == [] && Waits([]) == 0 && Requests([]) == 0
    ensures Tag(metadata, []) == []
  {
  }

  lemma EmptyPass(burst: int, o: Oracle, clock: nat, sent: nat)
    ensures SendBatchesSpec(burst, o, clock, sent, []) == Outcome(sent, clock, [], true)
    ensures Flat([]) == []
  {
  }

  lemma PassUnfolds(burst: int, o: Oracle, clock: nat, sent: nat, batches: seq<Batch>)
    requires batches != []
    ensures var first := SendBatchSpec(burst, o, clock, sent, batches[0]);
            SendBatchesSpec(burst, o, clock, sent, batches) ==
              if first.ok then After(first.trace, SendBatchesSpec(burst, o, first.clock, first.sent, batches[1..]))
              else first
  {
  }

  lemma DeliveriesJoin(a: Trace, b: Trace, metadata: Line, es: seq<Event>, m: nat, n: nat)
    requires m + n <= |es|
    requires Delivered(a) == Tag(metadata, es[..m]) && Delivered(b) == Tag(metadata, es[m..][..n])
    ensures Delivered(a + b) == Tag(metadata, es[..m + n])
  {
    DeliveredConcat(a, b);
    hide Delivered;
    assert Tag(metadata, es[..m + n]) == Tag(metadata, es[..m]) + Tag(metadata, es[m..][..n]);
  }

  /** A batch delivers a prefix of its events, all of them exactly when it succeeds, and the counter
      grows by the number delivered. */
  lemma {:induction false} BatchDelivery(burst: int, o: Oracle, clock: nat, sent: nat, b: Batch)
    ensures var out := SendBatchSpec(burst, o, clock, sent, b);
            var n := out.sent - sent;
            && 0 <= n <= |b.events|
            && Delivered(out.trace) == Tag(b.metadata, b.events[..n])
            && (out.ok <==> n == |b.events|)
    decreases |b.events|
  {
    hide *;
    if b.events == [] {
      EmptyBatch(burst, o, clock, sent, b.metadata);
      EmptyTrace(b.metadata);
    } else {
      var first := SendChunkSpec(burst, o, clock, sent, b);
      ChunkDelivery(burst, o, clock, sent, b);
      BatchUnfolds(burst, o, clock, sent, b);
      if first.ok {
        var m := first.sent - sent;
        var left := Batch(b.metadata, b.events[m..]);
        BatchDelivery(burst, o, first.clock, first.sent, left);
        var rest := SendBatchSpec(burst, o, first.clock, first.sent, left);
        AfterIs(first.trace, rest);
        DeliveriesJoin(first.trace, rest.trace, b.metadata, b.events, m, rest.sent - first.sent);
      }
    }
  }

  lemma TagPrefix(metadata: Line, events: seq<Event>, n: nat)
    requires n <= |events|
    ensures Tag(metadata, events[..n]) <= Tag(metadata, events)
  {
  }

  lemma PrefixAfter<T>(a: seq<T>, b: seq<T>, c: seq<T>)
    requires b <= c
    ensures a + b <= a + c
    ensures a + b == a + c <==> b == c
  {
  }

  lemma ShorterPrefix<T>(a: seq<T>, b: seq<T>, c: seq<T>)
    requires a <= b && |a| < |b|
    ensures a <= b + c && a != b + c
  {
  }

  lemma FlatUnfolds(batches: seq<Batch>)
    requires batches != []
    ensures Flat(batches) == Tag(batches[0].metadata, batches[0].events) + Flat(batches[1..])
  {
  }

  lemma WholeBatch(b: Batch, n: nat)
    requires n == |b.events|
    ensures Tag(b.metadata, b.events[..n]) == Tag(b.metadata, b.events)
  {
  }

  /** Delivery is exact: a pass delivers a prefix of the flattened events whose length is the
      increase of the counter, and succeeds exactly when that is all of them. */
  lemma {:induction false} PassDelivery(burst: int, o: Oracle, clock: nat, sent: nat, batches: seq<Batch>)
    ensures var out := SendBatchesSpec(burst, o, clock, sent, batches);
            && Delivered(out.trace) <= Flat(batches)
            && out.sent == sent + |Delivered(out.trace)|
            && (out.ok <==> Delivered(out.trace) == Flat(batches))
    decreases |batches|
  {
    hide *;
    if batches == [] {
      EmptyPass(burst, o, clock, sent);
      EmptyTrace("");
    } else {
      var b := batches[0];
      var first := SendBatchSpec(burst, o, clock, sent, b);
      BatchDelivery(burst, o, clock, sent, b);
      PassUnfolds(burst, o, clock, sent, batches);
      FlatUnfolds(batches);
      var tagged, flat := Tag(b.metadata, b.events), Flat(batches[1..]);
      if first.ok {
        WholeBatch(b, first.sent - sent);
        PassDelivery(burst, o, first.clock, first.sent, batches[1..]);
        var rest := SendBatchesSpec(burst, o, first.clock, first.sent, batches[1..]);
        AfterIs(first.trace, rest);
        DeliveredConcat(first.trace, rest.trace);
        PrefixAfter(tagged, Delivered(rest.trace), flat);
      } else {
        TagPrefix(b.metadata, b.events, first.sent - sent);
        ShorterPrefix(Delivered(first.trace), tagged, flat);
      }
    }
  }

  /** Prefixes of the flattened events of the given lengths, one after the other. */
  function Prefixes(flat: seq<Tagged>, lengths: seq<nat>): seq<Tagged>
    requires forall i :: 0 <= i < |lengths| ==> lengths[i] <= |flat|
  {
    if lengths == [] then [] else flat[..lengths[0]] + Prefixes(flat, lengths[1..])
  }

  /** How many events each pass had accepted. */
  function Accepted(passes: seq<Outcome>): (lengths: seq<nat>)
    ensures |lengths| == |passes|
    ensures forall i :: 0 <= i < |passes| ==> lengths[i] == |Delivered(passes[i].trace)|
  {
    seq(|passes|, i requires 0 <= i < |passes| => |Delivered(passes[i].trace)|)
  }

  /** Each of the passes delivered a prefix of the events, all of them exactly if it succeeded. */
  predicate EachFromTheStart(flat: seq<Tagged>, passes: seq<Outcome>) {
    forall i :: 0 <= i < |passes| ==>
      && |Delivered(passes[i].trace)| <= |flat|
      && (passes[i].ok <==> |Delivered(passes[i].trace)| == |flat|)
  }

  lemma NonePassed(flat: seq<Tagged>)
    ensures EachFromTheStart(flat, []) && Accepted([]) == [] && Prefixes(flat, []) == []
  {
  }

  lemma FirstPassed(flat: seq<Tagged>, pass: Outcome, rest: seq<Outcome>)
    requires Delivered(pass.trace) <= flat && (pass.ok <==> Delivered(pass.trace) == flat)
    requires EachFromTheStart(flat, rest)
    ensures EachFromTheStart(flat, [pass] + rest)
    ensures Prefixes(flat, Accepted([pass] + rest)) == Delivered(pass.trace) + Prefixes(flat, Accepted(rest))
  {
    hide Delivered;
    var n := |Delivered(pass.trace)|;
    assert Accepted([pass] + rest) == [n] + Accepted(rest);
    assert Delivered(pass.trace) == flat[..n];
  }

  /** Every pass of the loop starts again with the first event of the first batch, also after a
      failed pass: what the loop delivers is one prefix of the flattened events per pass. The loop
      makes all its passes if it runs forever, and otherwise stops after the first that fails. */
  lemma {:induction false} LoopDelivery(burst: int, o: Oracle, clock: nat, sent: nat, batches: seq<Batch>,
                                        forever: bool, rounds: nat)
    ensures var out := LoopSpec(burst, o, clock, sent, batches, forever, rounds);
            var passes := Passes(burst, o, clock, sent, batches, forever, rounds);
            && EachFromTheStart(Flat(batches), passes)
            && Delivered(out.trace) == Prefixes(Flat(batches), Accepted(passes))
            && (forall i :: 0 <= i < |passes| - 1 ==> forever || passes[i].ok)
            && (out.ok <==> forever || passes == [] || passes[|passes| - 1].ok)
            && (if out.ok then |passes| == rounds else |passes| <= rounds)
    decreases rounds
  {
    hide *;
    if rounds == 0 {
      NoRounds(burst, o, clock, sent, batches, forever);
      EmptyTrace("");
      NonePassed(Flat(batches));
    } else {
      var pass := SendBatchesSpec(burst, o, clock, sent, batches);
      PassDelivery(burst, o, clock, sent, batches);
      LoopUnfolds(burst, o, clock, sent, batches, forever, rounds);
      var flat := Flat(batches);
      NonePassed(flat);
      FirstPassed(flat, pass, []);
      if pass.ok || forever {
        var next := if pass.ok then Reduced(burst, pass.sent) else pass.sent;
        LoopDelivery(burst, o, pass.clock, next, batches, forever, rounds - 1);
        var after := LoopSpec(burst, o, pass.clock, next, batches, forever, rounds - 1);
        FirstPassed(flat, pass, Passes(burst, o, pass.clock, next, batches, forever, rounds - 1));
        AfterIs(pass.trace, after);
        DeliveredConcat(pass.trace, after.trace);
      } else {
        assert [pass] + [] == [pass];
      }
    }
  }

  // ---------------------------------------------------------------- the discipline of bursts

  /** Where a sender is in its current burst: events accepted in it, and whether the last thing
      that happened was a grant for a new one. */
  datatype Phase = Phase(filled: nat, granted: bool)

  /** The phase after one observation, or None if the observation breaks the discipline: tokens are
      asked for only between bursts and always for a whole one, the first request of a burst comes
      right after its own grant, and no request goes beyond the burst. */
  function Next(burst: nat, ph: Phase, x: Observation): Option<Phase>
    requires burst > 0
  {
    match x
    case Granted(t) => if ph.filled == 0 && t == burst then Some(Phase(0, true)) else None
    case WaitFailed => if ph.filled == 0 then Some(Phase(0, false)) else None
    case WriteFailed => if ph.filled > 0 || ph.granted then Some(Phase(ph.filled, false)) else None
    case SendFailed => if ph.filled > 0 || ph.granted then Some(Phase(ph.filled, false)) else None
    case Acked(_, es) =>
      if (ph.filled > 0 || ph.granted) && |es| > 0 && ph.filled + |es| <= burst
      then Some(Phase((ph.filled + |es|) % burst, false)) else None
  }

  function PhaseAfter(burst: nat, ph: Phase, t: Trace): Option<Phase>
    requires burst > 0
    decreases |t|
  {
    if t == [] then Some(ph)
    else
      match Next(burst, ph, t[0])
      case None => None
      case Some(next) => PhaseAfter(burst, next, t[1..])
  }

  lemma {:induction false} PhaseConcat(burst: nat, ph: Phase, a: Trace, b: Trace)
    requires burst > 0 && PhaseAfter(burst, ph, a).Some?
    ensures PhaseAfter(burst, ph, a + b) == PhaseAfter(burst, PhaseAfter(burst, ph, a).value, b)
    decreases |a|
  {
    if a == [] {
      assert a + b == b;
    } else {
      PhaseConcat(burst, Next(burst, ph, a[0]).value, a[1..], b);
      assert (a + b)[1..] == a[1..] + b && (a + b)[0] == a[0];
    }
  }

  function PhaseOf(burst: nat, sent: nat): Phase
    requires burst > 0
  {
    Phase(sent % burst, false)
  }

  lemma MulGap(i: int, j: int, b: int)
    requires b > 0 && i <= j
    ensures i * b <= j * b
  {
  }

  lemma DivUnique(x: int, b: int, k: int, r: int)
    requires b > 0 && x == k * b + r && 0 <= r < b
    ensures x / b == k && x % b == r
  {
    var q, m := x / b, x % b;
    assert x == q * b + m;
    if q < k { MulGap(q + 1, k, b); }
    if k < q { MulGap(k + 1, q, b); }
  }

  lemma ModAdd(sent: nat, n: nat, burst: nat)
    requires burst > 0 && sent % burst + n <= burst
    ensures (sent + n) % burst == (sent % burst + n) % burst
  {
    var k, r := sent / burst, sent % burst;
    assert sent == k * burst + r;
    if r + n < burst {
      DivUnique(sent + n, burst, k, r + n);
      DivUnique(r + n, burst, 0, r + n);
    } else {
      assert (k + 1) * burst == k * burst + burst;
      DivUnique(sent + n, burst, k + 1, 0);
      DivUnique(r + n, burst, 1, 0);
    }
  }

  lemma OneStep(burst: nat, ph: Phase, x: Observation)
    requires burst > 0
    ensures PhaseAfter(burst, ph, [x]) == Next(burst, ph, x)
  {
  }

  lemma ChunkPhase(burst: nat, o: Oracle, clock: nat, sent: nat, b: Batch)
    requires burst > 0 && b.events != []
    ensures var out := SendChunkSpec(burst, o, clock, sent, b);
            PhaseAfter(burst, PhaseOf(burst, sent), out.trace) == Some(PhaseOf(burst, out.sent))
  {
    var out := SendChunkSpec(burst, o, clock, sent, b);
    var t, ph := out.trace, PhaseOf(burst, sent);
    var last := t[|t| - 1];
    if out.ok {
      ModAdd(sent, out.sent - sent, burst);
    }
    OneStep(burst, ph, t[0]);
    if |t| == 2 {
      assert t == [t[0]] + [last];
      PhaseConcat(burst, ph, [t[0]], [last]);
      OneStep(burst, Phase(0, true), last);
    } else {
      assert t == [t[0]];
    }
  }

  lemma NoStep(burst: nat, ph: Phase)
    requires burst > 0
    ensures PhaseAfter(burst, ph, []) == Some(ph)
  {
  }

  lemma {:induction false} BatchPhase(burst: nat, o: Oracle, clock: nat, sent: nat, b: Batch)
    requires burst > 0
    ensures var out := SendBatchSpec(burst, o, clock, sent, b);
            PhaseAfter(burst, PhaseOf(burst, sent), out.trace) == Some(PhaseOf(burst, out.sent))
    decreases |b.events|
  {
    hide *;
    if b.events == [] {
      EmptyBatch(burst, o, clock, sent, b.metadata);
      NoStep(burst, PhaseOf(burst, sent));
    } else {
      var first := SendChunkSpec(burst, o, clock, sent, b);
      ChunkPhase(burst, o, clock, sent, b);
      BatchUnfolds(burst, o, clock, sent, b);
      if first.ok {
        var left := Batch(b.metadata, b.events[first.sent - sent..]);
        AfterIs(first.trace, SendBatchSpec(burst, o, first.clock, first.sent, left));
        BatchPhase(burst, o, first.clock, first.sent, left);
        PhaseConcat(burst, PhaseOf(burst, sent), first.trace,
                    SendBatchSpec(burst, o, first.clock, first.sent, left).trace);
      }
    }
  }

  lemma {:induction false} PassPhase(burst: nat, o: Oracle, clock: nat, sent: nat, batches: seq<Batch>)
    requires burst > 0
    ensures var out := SendBatchesSpec(burst, o, clock, sent, batches);
            PhaseAfter(burst, PhaseOf(burst, sent), out.trace) == Some(PhaseOf(burst, out.sent))
    decreases |batches|
  {
    hide *;
    if batches == [] {
      EmptyPass(burst, o, clock, sent);
      NoStep(burst, PhaseOf(burst, sent));
    } else {
      var first := SendBatchSpec(burst, o, clock, sent, batches[0]);
      BatchPhase(burst, o, clock, sent, batches[0]);
      PassUnfolds(burst, o, clock, sent, batches);
      if first.ok {
        AfterIs(first.trace, SendBatchesSpec(burst, o, first.clock, first.sent, batches[1..]));
        PassPhase(burst, o, first.clock, first.sent, batches[1..]);
        PhaseConcat(burst, PhaseOf(burst, sent), first.trace,
                    SendBatchesSpec(burst, o, first.clock, first.sent, batches[1..]).trace);
      }
    }
  }

  lemma ModTwice(sent: nat, burst: nat)
    requires burst > 0
    ensures (sent % burst) % burst == sent % burst
  {
  }

  lemma ReducedPhase(burst: nat, sent: nat)
    requires burst > 0
    ensures PhaseOf(burst, Reduced(burst, sent)) == PhaseOf(burst, sent)
  {
  }

  /** However the calls of a sender fail and whether or not it retries forever, its whole trace
      keeps the discipline of bursts. */
  lemma {:induction false} LoopPhase(burst: nat, o: Oracle, clock: nat, sent: nat, batches: seq<Batch>,
                                     forever: bool, rounds: nat)
    requires burst > 0
    ensures var out := LoopSpec(burst, o, clock, sent, batches, forever, rounds);
            PhaseAfter(burst, PhaseOf(burst, sent), out.trace) == Some(PhaseOf(burst, out.sent))
    decreases rounds
  {
    hide *;
    if rounds == 0 {
      NoRounds(burst, o, clock, sent, batches, forever);
      NoStep(burst, PhaseOf(burst, sent));
    } else {
      var pass := SendBatchesSpec(burst, o, clock, sent, batches);
      PassPhase(burst, o, clock, sent, batches);
      LoopUnfolds(burst, o, clock, sent, batches, forever, rounds);
      if pass.ok || forever {
        var next := if pass.ok then Reduced(burst, pass.sent) else pass.sent;
        ReducedPhase(burst, pass.sent);
        AfterIs(pass.trace, LoopSpec(burst, o, pass.clock, next, batches, forever, rounds - 1));
        LoopPhase(burst, o, pass.clock, next, batches, forever, rounds - 1);
        PhaseConcat(burst, PhaseOf(burst, sent), pass.trace,
                    LoopSpec(burst, o, pass.clock, next, batches, forever, rounds - 1).trace);
      }
    }
  }

  // ---------------------------------------------------------------- tokens cover accepted events

  function Tokens(t: Trace): nat {
    if t == [] then 0
    else Tokens(t[..|t| - 1]) + (if t[|t| - 1].Granted? then t[|t| - 1].tokens else 0)
  }

  function AckedCount(t: Trace): nat {
    if t == [] then 0
    else AckedCount(t[..|t| - 1]) + (if t[|t| - 1].Acked? then |t[|t| - 1].events| else 0)
  }

  /** Tokens of the current burst that no accepted event has used yet. */
  function Unused(burst: nat, ph: Phase): nat
    requires burst > 0 && ph.filled < burst
  {
    if ph.filled > 0 then burst - ph.filled else if ph.granted then burst else 0
  }

  lemma {:induction false} PhaseOfPrefix(burst: nat, ph: Phase, t: Trace, k: nat)
    requires burst > 0 && k <= |t| && PhaseAfter(burst, ph, t).Some?
    ensures PhaseAfter(burst, ph, t[..k]).Some?
    decreases |t|
  {
    if k > 0 {
      PhaseOfPrefix(burst, Next(burst, ph, t[0]).value, t[1..], k - 1);
      assert t[..k][1..] == t[1..][..k - 1];
    } else {
      assert t[..k] == [];
    }
  }

  /** A disciplined trace has been granted a token for every accepted event, and for what is left
      of its current burst. */
  lemma {:induction false} DisciplinedIsCovered(burst: nat, t: Trace)
    requires burst > 0 && PhaseAfter(burst, Phase(0, false), t).Some?
    ensures PhaseAfter(burst, Phase(0, false), t).value.filled < burst
    ensures AckedCount(t) + Unused(burst, PhaseAfter(burst, Phase(0, false), t).value) <= Tokens(t)
  {
    if t != [] {
      var ph := Phase(0, false);
      var init, x := t[..|t| - 1], t[|t| - 1];
      PhaseOfPrefix(burst, ph, t, |t| - 1);
      DisciplinedIsCovered(burst, init);
      assert t == init + [x] && [x][1..] == [];
      PhaseConcat(burst, ph, init, [x]);
      var p := PhaseAfter(burst, ph, init).value;
      assert PhaseAfter(burst, ph, t) == Next(burst, p, x);
      if x.Acked? && p.filled + |x.events| == burst {
        DivUnique(burst, burst, 1, 0);
      } else if x.Acked? {
        DivUnique(p.filled + |x.events|, burst, 0, p.filled + |x.events|);
      }
    }
  }

  /** At every moment of its life a sender has had at most as many events accepted as it was
      granted tokens. */
  lemma AckedWithinTokens(burst: nat, o: Oracle, batches: seq<Batch>, forever: bool, rounds: nat, k: nat)
    requires burst > 0
    requires k <= |LoopSpec(burst, o, 0, 0, batches, forever, rounds).trace|
    ensures var t := LoopSpec(burst, o, 0, 0, batches, forever, rounds).trace;
            AckedCount(t[..k]) <= Tokens(t[..k])
  {
    var t := LoopSpec(burst, o, 0, 0, batches, forever, rounds).trace;
    LoopPhase(burst, o, 0, 0, batches, forever, rounds);
    DivUnique(0, burst, 0, 0);
    PhaseOfPrefix(burst, Phase(0, false), t, k);
    DisciplinedIsCovered(burst, t[..k]);
  }

  // ---------------------------------------------------------------- closed-form pacing

  function CeilDiv(a: int, b: int): int
    requires b > 0
  {
    (a + b - 1) / b
  }

  function Waits(t: Trace): nat {
    if t == [] then 0 else (if t[0].Granted? then 1 else 0) + Waits(t[1..])
  }

  function Requests(t: Trace): nat {
    if t == [] then 0 else (if t[0].Acked? then 1 else 0) + Requests(t[1..])
  }

  lemma {:induction false} CountsConcat(a: Trace, b: Trace)
    ensures Waits(a + b) == Waits(a) + Waits(b)
    ensures Requests(a + b) == Requests(a) + Requests(b)
  {
    if a == [] {
      assert a + b == b;
    } else {
      CountsConcat(a[1..], b);
      assert (a + b)[1..] == a[1..] + b && (a + b)[0] == a[0];
    }
  }

  lemma CeilOf(b: int, k: int, r: int)
    requires b > 0 && 0 <= r < b
    ensures CeilDiv(k * b + r, b) == if r == 0 then k else k + 1
  {
    if r == 0 {
      DivUnique(k * b + b - 1, b, k, b - 1);
    } else {
      assert (k + 1) * b == k * b + b;
      DivUnique(k * b + r + b - 1, b, k + 1, r - 1);
    }
  }

  /** Within one burst the number of bursts begun grows by one exactly at its start. */
  lemma CeilStep(sent: nat, n: nat, b: nat)
    requires b > 0 && 0 < n && sent % b + n <= b
    ensures CeilDiv(sent + n, b) - CeilDiv(sent, b) == if sent % b == 0 then 1 else 0
  {
    var k, r := sent / b, sent % b;
    assert sent == k * b + r;
    CeilOf(b, k, r);
    if r + n < b {
      CeilOf(b, k, r + n);
    } else {
      assert (k + 1) * b == k * b + b;
      CeilOf(b, k + 1, 0);
    }
  }

  /** Grants that no accepted request followed: those that a failing write or request wasted. */
  function Wasted(t: Trace): nat {
    if t == [] then 0
    else (if t[0].Granted? && !(|t| > 1 && t[1].Acked?) then 1 else 0) + Wasted(t[1..])
  }

  predicate EndsInGrant(t: Trace) {
    t != [] && t[|t| - 1].Granted?
  }

  lemma {:induction false} WastedConcat(a: Trace, b: Trace)
    requires !EndsInGrant(a)
    ensures Wasted(a + b) == Wasted(a) + Wasted(b)
    ensures EndsInGrant(a + b) == EndsInGrant(b)
  {
    if a == [] {
      assert a + b == b;
    } else {
      assert (a + b)[1..] == a[1..] + b && (a + b)[0] == a[0];
      if |a| > 1 {
        assert (a + b)[1] == a[1] && a[1..][|a| - 2] == a[|a| - 1];
      }
      WastedConcat(a[1..], b);
    }
  }

  lemma NothingWasted()
    ensures Wasted([]) == 0 && !EndsInGrant([])
  {
  }

  /** The last observation of a request, after its grant if it starts a burst. */
  lemma CountsOfChunk(granted: Trace, x: Observation)
    requires !x.Granted? && (granted == [] || (|granted| == 1 && granted[0].Granted?))
    ensures Waits(granted + [x]) == |granted| && Requests(granted + [x]) == (if x.Acked? then 1 else 0)
    ensures Wasted(granted + [x]) == (if x.Acked? then 0 else |granted|) && !EndsInGrant(granted + [x])
  {
    assert Waits([x]) == 0 && Requests([x]) == (if x.Acked? then 1 else 0) && Wasted([x]) == 0;
    if granted == [] {
      assert granted + [x] == [x];
    } else {
      assert (granted + [x])[1..] == [x];
    }
  }

  lemma ChunkCounts(burst: nat, o: Oracle, clock: nat, sent: nat, b: Batch)
    requires burst > 0 && b.events != []
    ensures var out := SendChunkSpec(burst, o, clock, sent, b);
            var n := out.sent - sent;
            && 0 <= n && !EndsInGrant(out.trace)
            && Requests(out.trace) == (if out.ok then 1 else 0)
            && Waits(out.trace) == (if out.ok && sent % burst == 0 then 1 else 0) + Wasted(out.trace)
            && Wasted(out.trace) <= (if out.ok then 0 else 1)
            && (!out.ok ==> n == 0)
            && (out.ok ==>
                  && 0 < n <= |b.events| && sent % burst + n <= burst
                  && (n == |b.events| || sent % burst + n == burst))
  {
    var t := SendChunkSpec(burst, o, clock, sent, b).trace;
    var m := |t| - 1;
    assert t == t[..m] + [t[m]];
    CountsOfChunk(t[..m], t[m]);
  }

  lemma {:induction false} BatchWaits(burst: nat, o: Oracle, clock: nat, sent: nat, b: Batch)
    requires burst > 0
    ensures var out := SendBatchSpec(burst, o, clock, sent, b);
            && Waits(out.trace) == CeilDiv(out.sent, burst) - CeilDiv(sent, burst) + Wasted(out.trace)
            && Wasted(out.trace) <= (if out.ok then 0 else 1) && !EndsInGrant(out.trace)
    decreases |b.events|
  {
    hide *;
    if b.events == [] {
      EmptyBatch(burst, o, clock, sent, b.metadata);
      EmptyTrace("");
      NothingWasted();
    } else {
      var first := SendChunkSpec(burst, o, clock, sent, b);
      ChunkCounts(burst, o, clock, sent, b);
      BatchUnfolds(burst, o, clock, sent, b);
      if first.ok {
        var left := Batch(b.metadata, b.events[first.sent - sent..]);
        var rest := SendBatchSpec(burst, o, first.clock, first.sent, left);
        AfterIs(first.trace, rest);
        CeilStep(sent, first.sent - sent, burst);
        BatchWaits(burst, o, first.clock, first.sent, left);
        CountsConcat(first.trace, rest.trace);
        WastedConcat(first.trace, rest.trace);
      }
    }
  }

  /** Closed-form pacing: however a pass ends, from counter s0 to counter s1 it is granted tokens
      ceil(s1 / b) - ceil(s0 / b) times, whatever the batch boundaries, and once more exactly if it
      failed right after a grant. A successful pass ends with s1 = s0 + the number of its events. */
  lemma {:induction false} PassWaits(burst: nat, o: Oracle, clock: nat, sent: nat, batches: seq<Batch>)
    requires burst > 0
    ensures var out := SendBatchesSpec(burst, o, clock, sent, batches);
            && Waits(out.trace) == CeilDiv(out.sent, burst) - CeilDiv(sent, burst) + Wasted(out.trace)
            && Wasted(out.trace) <= (if out.ok then 0 else 1) && !EndsInGrant(out.trace)
            && (out.ok ==> out.sent == sent + |Flat(batches)|)
    decreases |batches|
  {
    hide *;
    PassDelivery(burst, o, clock, sent, batches);
    if batches == [] {
      EmptyPass(burst, o, clock, sent);
      EmptyTrace("");
      NothingWasted();
    } else {
      var first := SendBatchSpec(burst, o, clock, sent, batches[0]);
      BatchWaits(burst, o, clock, sent, batches[0]);
      PassUnfolds(burst, o, clock, sent, batches);
      if first.ok {
        var rest := SendBatchesSpec(burst, o, first.clock, first.sent, batches[1..]);
        AfterIs(first.trace, rest);
        PassWaits(burst, o, first.clock, first.sent, batches[1..]);
        CountsConcat(first.trace, rest.trace);
        WastedConcat(first.trace, rest.trace);
      }
    }
  }

  lemma BurstFilled(sent: nat, n: nat, burst: nat)
    requires burst > 0 && sent % burst + n == burst
    ensures (sent + n) % burst == 0
  {
    ModAdd(sent, n, burst);
    DivUnique(burst, burst, 1, 0);
  }

  lemma OneBurst(b: nat, n: nat)
    requires 0 < n <= b
    ensures CeilDiv(n, b) == 1
  {
  }

  lemma MoreBursts(b: nat, n: nat)
    requires b > 0
    ensures CeilDiv(b + n, b) == 1 + CeilDiv(n, b)
  {
    var k, r := n / b, n % b;
    assert n == k * b + r && (k + 1) * b == k * b + b;
    CeilOf(b, k, r);
    CeilOf(b, k + 1, r);
  }

  /** However a batch ends, if it had n > 0 events accepted and started r events into a burst, it took
      ceil((r + n) / b) requests. */
  lemma {:induction false} BatchRequests(burst: nat, o: Oracle, clock: nat, sent: nat, b: Batch)
    requires burst > 0
    ensures var out := SendBatchSpec(burst, o, clock, sent, b);
            var n := out.sent - sent;
            && 0 <= n
            && Requests(out.trace) == if n == 0 then 0 else CeilDiv(sent % burst + n, burst)
    decreases |b.events|
  {
    hide *;
    if b.events == [] {
      EmptyBatch(burst, o, clock, sent, b.metadata);
      EmptyTrace("");
    } else {
      var first := SendChunkSpec(burst, o, clock, sent, b);
      var m := first.sent - sent;
      ChunkCounts(burst, o, clock, sent, b);
      BatchUnfolds(burst, o, clock, sent, b);
      if first.ok {
        var left := Batch(b.metadata, b.events[m..]);
        var rest := SendBatchSpec(burst, o, first.clock, first.sent, left);
        AfterIs(first.trace, rest);
        CountsConcat(first.trace, rest.trace);
        BatchRequests(burst, o, first.clock, first.sent, left);
        OneBurst(burst, sent % burst + m);
        if left.events == [] {
          EmptyBatch(burst, o, first.clock, first.sent, b.metadata);
        } else {
          BurstFilled(sent, m, burst);
          MoreBursts(burst, rest.sent - first.sent);
        }
      }
    }
  }

  // ---------------------------------------------------------------- reducing the counter

  /** The loop without the reduction of the counter after each successful pass. */
  function UnreducedLoop(burst: int, o: Oracle, clock: nat, sent: nat, batches: seq<Batch>, forever: bool,
                         rounds: nat): (out: Outcome)
    decreases rounds
  {
    if rounds == 0 then Outcome(sent, clock, [], true)
    else
      var pass := SendBatchesSpec(burst, o, clock, sent, batches);
      if !pass.ok && !forever then pass
      else After(pass.trace, UnreducedLoop(burst, o, pass.clock, pass.sent, batches, forever, rounds - 1))
  }

  /** Outcomes that differ by what the counters differed by before. */
  predicate Alike(sent: nat, out: Outcome, sent': nat, out': Outcome) {
    && out.clock == out'.clock && out.trace == out'.trace && out.ok == out'.ok
    && out.sent - sent == out'.sent - sent'
  }

  lemma SameResidue(sent: nat, sent': nat, n: nat, burst: nat)
    requires burst > 0 && sent % burst == sent' % burst
    ensures (sent + n) % burst == (sent' + n) % burst
  {
    var k, k', r := sent / burst, sent' / burst, sent % burst;
    var q, m := (sent + n) / burst, (sent + n) % burst;
    assert sent == k * burst + r && sent' == k' * burst + r;
    assert (q + k' - k) * burst == q * burst + k' * burst - k * burst;
    DivUnique(sent' + n, burst, q + k' - k, m);
  }

  lemma ChunkAlike(burst: nat, o: Oracle, clock: nat, sent: nat, sent': nat, b: Batch)
    requires burst > 0 && sent % burst == sent' % burst && b.events != []
    ensures Alike(sent, SendChunkSpec(burst, o, clock, sent, b), sent', SendChunkSpec(burst, o, clock, sent', b))
  {
  }

  lemma {:induction false} BatchAlike(burst: nat, o: Oracle, clock: nat, sent: nat, sent': nat, b: Batch)
    requires burst > 0 && sent % burst == sent' % burst
    ensures Alike(sent, SendBatchSpec(burst, o, clock, sent, b), sent', SendBatchSpec(burst, o, clock, sent', b))
    decreases |b.events|
  {
    hide SendChunkSpec, SendBatchSpec, After;
    if b.events == [] {
      EmptyBatch(burst, o, clock, sent, b.metadata);
      EmptyBatch(burst, o, clock, sent', b.metadata);
    } else {
      var first, first' := SendChunkSpec(burst, o, clock, sent, b), SendChunkSpec(burst, o, clock, sent', b);
      ChunkAlike(burst, o, clock, sent, sent', b);
      BatchUnfolds(burst, o, clock, sent, b);
      BatchUnfolds(burst, o, clock, sent', b);
      if first.ok {
        var left := Batch(b.metadata, b.events[first.sent - sent..]);
        SameResidue(sent, sent', first.sent - sent, burst);
        BatchAlike(burst, o, first.clock, first.sent, first'.sent, left);
        AfterIs(first.trace, SendBatchSpec(burst, o, first.clock, first.sent, left));
        AfterIs(first.trace, SendBatchSpec(burst, o, first.clock, first'.sent, left));
      }
    }
  }

  lemma {:induction false} PassAlike(burst: nat, o: Oracle, clock: nat, sent: nat, sent': nat, batches: seq<Batch>)
    requires burst > 0 && sent % burst == sent' % burst
    ensures Alike(sent, SendBatchesSpec(burst, o, clock, sent, batches),
                  sent', SendBatchesSpec(burst, o, clock, sent', batches))
    decreases |batches|
  {
    hide SendBatchSpec, SendBatchesSpec, Delivered, Tag, After;
    if batches == [] {
      EmptyPass(burst, o, clock, sent);
      EmptyPass(burst, o, clock, sent');
    } else {
      var first := SendBatchSpec(burst, o, clock, sent, batches[0]);
      var first' := SendBatchSpec(burst, o, clock, sent', batches[0]);
      BatchAlike(burst, o, clock, sent, sent', batches[0]);
      BatchDelivery(burst, o, clock, sent, batches[0]);
      PassUnfolds(burst, o, clock, sent, batches);
      PassUnfolds(burst, o, clock, sent', batches);
      if first.ok {
        SameResidue(sent, sent', first.sent - sent, burst);
        PassAlike(burst, o, first.clock, first.sent, first'.sent, batches[1..]);
        AfterIs(first.trace, SendBatchesSpec(burst, o, first.clock, first.sent, batches[1..]));
        AfterIs(first.trace, SendBatchesSpec(burst, o, first.clock, first'.sent, batches[1..]));
      }
    }
  }

  /** Reducing the counter changes nothing that can be seen: the loop waits, fails and sends exactly
      like one whose counter is never reduced, and the counters agree modulo the burst. */
  lemma {:induction false} ReductionIsInvisible(burst: nat, o: Oracle, clock: nat, sent: nat, sent': nat,
                                                batches: seq<Batch>, forever: bool, rounds: nat)
    requires burst > 0 && sent % burst == sent' % burst
    ensures var out := LoopSpec(burst, o, clock, sent, batches, forever, rounds);
            var out' := UnreducedLoop(burst, o, clock, sent', batches, forever, rounds);
            && out.trace == out'.trace && out.clock == out'.clock && out.ok == out'.ok
            && out.sent % burst == out'.sent % burst
    decreases rounds
  {
    hide SendBatchesSpec, LoopSpec, Delivered, Flat;
    if rounds == 0 {
      NoRounds(burst, o, clock, sent, batches, forever);
    } else {
      var pass := SendBatchesSpec(burst, o, clock, sent, batches);
      var pass' := SendBatchesSpec(burst, o, clock, sent', batches);
      PassAlike(burst, o, clock, sent, sent', batches);
      PassDelivery(burst, o, clock, sent, batches);
      LoopUnfolds(burst, o, clock, sent, batches, forever, rounds);
      SameResidue(sent, sent', pass.sent - sent, burst);
      if pass.ok || forever {
        var next := if pass.ok then Reduced(burst, pass.sent) else pass.sent;
        ModTwice(pass.sent, burst);
        ReductionIsInvisible(burst, o, pass.clock, next, pass'.sent, batches, forever, rounds - 1);
      }
    }
  }

  lemma NoUnreducedRounds(burst: int, o: Oracle, clock: nat, sent: nat, batches: seq<Batch>, forever: bool)
    ensures UnreducedLoop(burst, o, clock, sent, batches, forever, 0) == Outcome(sent, clock, [], true)
  {
  }

  lemma UnreducedUnfolds(burst: int, o: Oracle, clock: nat, sent: nat, batches: seq<Batch>, forever: bool,
                         rounds: nat)
    requires rounds > 0
    ensures var pass := SendBatchesSpec(burst, o, clock, sent, batches);
            UnreducedLoop(burst, o, clock, sent, batches, forever, rounds) ==
              if pass.ok || forever then
                After(pass.trace, UnreducedLoop(burst, o, pass.clock, pass.sent, batches, forever, rounds - 1))
              else pass
  {
  }

  lemma {:induction false} UnreducedWaits(burst: nat, o: Oracle, clock: nat, sent: nat, batches: seq<Batch>,
                                          forever: bool, rounds: nat)
    requires burst > 0
    ensures var out := UnreducedLoop(burst, o, clock, sent, batches, forever, rounds);
            && Waits(out.trace) == CeilDiv(out.sent, burst) - CeilDiv(sent, burst) + Wasted(out.trace)
            && out.sent == sent + |Delivered(out.trace)|
    decreases rounds
  {
    hide *;
    if rounds == 0 {
      NoUnreducedRounds(burst, o, clock, sent, batches, forever);
      EmptyTrace("");
      NothingWasted();
    } else {
      var pass := SendBatchesSpec(burst, o, clock, sent, batches);
      PassWaits(burst, o, clock, sent, batches);
      PassDelivery(burst, o, clock, sent, batches);
      UnreducedUnfolds(burst, o, clock, sent, batches, forever, rounds);
      if pass.ok || forever {
        var rest := UnreducedLoop(burst, o, pass.clock, pass.sent, batches, forever, rounds - 1);
        AfterIs(pass.trace, rest);
        UnreducedWaits(burst, o, pass.clock, pass.sent, batches, forever, rounds - 1);
        CountsConcat(pass.trace, rest.trace);
        WastedConcat(pass.trace, rest.trace);
        DeliveredConcat(pass.trace, rest.trace);
      }
    }
  }

  /** The pacing of a whole run, however its passes fail: with N events accepted in all, a sender that
      starts at counter s0 is granted tokens ceil((s0 + N) / b) - ceil(s0 / b) times, and once more for
      every grant that was wasted. */
  lemma LoopWaits(burst: nat, o: Oracle, clock: nat, sent: nat, batches: seq<Batch>, forever: bool, rounds: nat)
    requires burst > 0
    ensures var t := LoopSpec(burst, o, clock, sent, batches, forever, rounds).trace;
            Waits(t) == CeilDiv(sent + |Delivered(t)|, burst) - CeilDiv(sent, burst) + Wasted(t)
  {
    hide *;
    ReductionIsInvisible(burst, o, clock, sent, sent, batches, forever, rounds);
    UnreducedWaits(burst, o, clock, sent, batches, forever, rounds);
  }

  // ---------------------------------------------------------------- how far the counter gets

  function Sum(ns: seq<nat>): nat {
    if ns == [] then 0 else ns[0] + Sum(ns[1..])
  }

  lemma {:induction false} SumConcat(a: seq<nat>, b: seq<nat>)
    ensures Sum(a + b) == Sum(a) + Sum(b)
  {
    if a == [] {
      assert a + b == b;
    } else {
      assert (a + b)[1..] == a[1..] + b;
      SumConcat(a[1..], b);
    }
  }

  /** The number of passes up to and including the last successful one. */
  function LastSuccess(passes: seq<Outcome>): (k: nat)
    ensures k <= |passes| && (k > 0 ==> passes[k - 1].ok)
    ensures forall i :: k <= i < |passes| ==> !passes[i].ok
  {
    if passes == [] then 0
    else if passes[|passes| - 1].ok then |passes|
    else LastSuccess(passes[..|passes| - 1])
  }

  /** The counter after passes, recomputed from how many events each had accepted: what is left of a
      burst after the last successful pass, and all events accepted since. */
  function CounterAfter(burst: nat, sent: nat, passes: seq<Outcome>): nat
    requires burst > 0
  {
    var k := LastSuccess(passes);
    (if k == 0 then sent else (sent + Sum(Accepted(passes[..k]))) % burst) + Sum(Accepted(passes[k..]))
  }

  lemma NothingCounted(burst: nat, sent: nat)
    requires burst > 0
    ensures CounterAfter(burst, sent, []) == sent
  {
  }

  lemma NothingAccepted()
    ensures Sum(Accepted([])) == 0
  {
  }

  lemma AcceptedUnfolds(pass: Outcome, rest: seq<Outcome>)
    ensures Sum(Accepted([pass] + rest)) == |Delivered(pass.trace)| + Sum(Accepted(rest))
  {
    hide Delivered;
    assert Accepted([pass] + rest) == [|Delivered(pass.trace)|] + Accepted(rest);
  }

  lemma {:induction false} SuccessUnfolds(pass: Outcome, rest: seq<Outcome>)
    ensures LastSuccess([pass] + rest) ==
              if LastSuccess(rest) > 0 then LastSuccess(rest) + 1 else if pass.ok then 1 else 0
    decreases |rest|
  {
    var all := [pass] + rest;
    if rest == [] {
      assert all == [pass];
    } else {
      SuccessUnfolds(pass, rest[..|rest| - 1]);
      assert all[..|all| - 1] == [pass] + rest[..|rest| - 1];
    }
  }

  /** One more pass at the front, from whose end the others start. */
  lemma CounterUnfolds(burst: nat, sent: nat, pass: Outcome, rest: seq<Outcome>, next: nat)
    requires burst > 0
    requires next == if pass.ok then (sent + |Delivered(pass.trace)|) % burst else sent + |Delivered(pass.trace)|
    ensures CounterAfter(burst, sent, [pass] + rest) == CounterAfter(burst, next, rest)
  {
    hide Delivered, Sum, Accepted, LastSuccess;
    var all, n, k := [pass] + rest, |Delivered(pass.trace)|, LastSuccess(rest);
    SuccessUnfolds(pass, rest);
    if k > 0 {
      AcceptedUnfolds(pass, rest[..k]);
      assert all[..k + 1] == [pass] + rest[..k] && all[k + 1..] == rest[k..];
      if pass.ok { ModTwice(sent + n, burst); }
      SameResidue(sent + n, next, Sum(Accepted(rest[..k])), burst);
    } else {
      assert rest[0..] == rest;
      if pass.ok {
        AcceptedUnfolds(pass, []);
        NothingAccepted();
        assert all[..1] == [pass] + [] && all[1..] == rest;
      } else {
        AcceptedUnfolds(pass, rest);
        assert all[0..] == all;
      }
    }
  }

  lemma ReducedIs(burst: nat, sent: nat)
    requires burst > 0
    ensures Reduced(burst, sent) == sent % burst
  {
  }

  /** The counter after any run, whatever fails in it: the residue of the last successful pass plus
      the events accepted by the failed passes since. Only a success reduces it. */
  lemma {:induction false} CounterLaw(burst: nat, o: Oracle, clock: nat, sent: nat, batches: seq<Batch>,
                                      forever: bool, rounds: nat)
    requires burst > 0
    ensures LoopSpec(burst, o, clock, sent, batches, forever, rounds).sent
         == CounterAfter(burst, sent, Passes(burst, o, clock, sent, batches, forever, rounds))
    decreases rounds
  {
    hide *;
    NothingCounted(burst, sent);
    if rounds == 0 {
      NoRounds(burst, o, clock, sent, batches, forever);
    } else {
      var pass := SendBatchesSpec(burst, o, clock, sent, batches);
      PassDelivery(burst, o, clock, sent, batches);
      LoopUnfolds(burst, o, clock, sent, batches, forever, rounds);
      if pass.ok || forever {
        var next := if pass.ok then Reduced(burst, pass.sent) else pass.sent;
        ReducedIs(burst, pass.sent);
        AfterIs(pass.trace, LoopSpec(burst, o, pass.clock, next, batches, forever, rounds - 1));
        CounterLaw(burst, o, pass.clock, next, batches, forever, rounds - 1);
        CounterUnfolds(burst, sent, pass, Passes(burst, o, pass.clock, next, batches, forever, rounds - 1), next);
      } else {
        CounterUnfolds(burst, sent, pass, [], pass.sent);
        NothingCounted(burst, pass.sent);
        assert [pass] + [] == [pass];
      }
    }
  }

  lemma OneTimeMore(k: nat, n: nat)
    ensures (k + 1) * n == k * n + n
  {
  }

  lemma {:induction false} AcceptedAtMost(passes: seq<Outcome>, n: nat)
    requires forall i :: 0 <= i < |passes| ==> |Delivered(passes[i].trace)| <= n
    ensures Sum(Accepted(passes)) <= |passes| * n
  {
    hide Delivered, Sum, Accepted;
    if passes == [] {
      NothingAccepted();
    } else {
      AcceptedAtMost(passes[1..], n);
      AcceptedUnfolds(passes[0], passes[1..]);
      assert passes == [passes[0]] + passes[1..];
      OneTimeMore(|passes| - 1, n);
    }
  }

  /** The safeguard works exactly as long as the failed passes since the last successful one had too
      few events accepted to fill the burst that it left open. In particular it works when no pass
      fails, or every failed pass has nothing accepted. */
  lemma CounterStaysSmallExactly(burst: nat, o: Oracle, batches: seq<Batch>, forever: bool, rounds: nat)
    requires burst > 0
    ensures var passes := Passes(burst, o, 0, 0, batches, forever, rounds);
            var k := LastSuccess(passes);
            var out := LoopSpec(burst, o, 0, 0, batches, forever, rounds);
            && (out.sent < burst
                <==> Sum(Accepted(passes[..k])) % burst + Sum(Accepted(passes[k..])) < burst)
            && out.sent < burst + (|passes| - k) * |Flat(batches)|
            && SendBatchesSpec(burst, o, out.clock, out.sent, batches).sent <= out.sent + |Flat(batches)|
  {
    hide LoopSpec, Passes, SendBatchesSpec, Delivered, Flat, Sum, Accepted, LastSuccess;
    var passes := Passes(burst, o, 0, 0, batches, forever, rounds);
    var k := LastSuccess(passes);
    var out := LoopSpec(burst, o, 0, 0, batches, forever, rounds);
    CounterLaw(burst, o, 0, 0, batches, forever, rounds);
    LoopDelivery(burst, o, 0, 0, batches, forever, rounds);
    PassDelivery(burst, o, out.clock, out.sent, batches);
    if k == 0 {
      assert passes[..k] == [];
      NothingAccepted();
      DivUnique(0, burst, 0, 0);
    }
    AcceptedAtMost(passes[k..], |Flat(batches)|);
  }

  /** An environment in which the transport refuses every second request. */
  const EVERY_SIXTH_FAILS: Oracle := i => i % 6 != 5

  lemma EverySixth(clock: nat)
    requires clock % 6 == 0
    ensures var o := EVERY_SIXTH_FAILS;
            o(clock) && o(clock + 1) && o(clock + 2) && o(clock + 3) && o(clock + 4) && !o(clock + 5)
  {
  }

  lemma OneChunk(o: Oracle, clock: nat, sent: nat, b: Batch)
    requires o(clock) && o(clock + 1) && o(clock + 2) && |b.events| == 2
    ensures var out := SendChunkSpec(1, o, clock, sent, b);
            out.ok && out.sent == sent + 1 && out.clock == clock + 3
  {
  }

  lemma RefusedChunk(o: Oracle, clock: nat, sent: nat, b: Batch)
    requires o(clock) && o(clock + 1) && !o(clock + 2) && b.events != []
    ensures SendChunkSpec(1, o, clock, sent, b) == Outcome(sent, clock + 3, [Granted(1), SendFailed], false)
  {
  }

  /** With a burst of one event and a batch of two, the first event is accepted and the request with
      the second is refused. */
  lemma OneThenRefused(batches: seq<Batch>, clock: nat, sent: nat)
    requires |batches| == 1 && |batches[0].events| == 2 && clock % 6 == 0
    ensures var pass := SendBatchesSpec(1, EVERY_SIXTH_FAILS, clock, sent, batches);
            !pass.ok && pass.sent == sent + 1 && pass.clock == clock + 6
  {
    hide *;
    var b, o := batches[0], EVERY_SIXTH_FAILS;
    EverySixth(clock);
    var left := Batch(b.metadata, b.events[1..]);
    OneChunk(o, clock, sent, b);
    BatchUnfolds(1, o, clock, sent, b);
    var first := SendChunkSpec(1, o, clock, sent, b);
    BatchUnfolds(1, o, clock + 3, sent + 1, left);
    RefusedChunk(o, clock + 3, sent + 1, left);
    AfterIs(first.trace, SendBatchSpec(1, o, clock + 3, sent + 1, left));
    PassUnfolds(1, o, clock, sent, batches);
  }

  /** A handler that runs forever against such a transport counts without bound although the burst
      is 1, since no pass succeeds. */
  lemma {:induction false} RefusedPassesCount(batches: seq<Batch>, clock: nat, sent: nat, rounds: nat)
    requires |batches| == 1 && |batches[0].events| == 2 && clock % 6 == 0
    ensures LoopSpec(1, EVERY_SIXTH_FAILS, clock, sent, batches, true, rounds).sent == sent + rounds
    decreases rounds
  {
    hide *;
    var o := EVERY_SIXTH_FAILS;
    if rounds == 0 {
      NoRounds(1, o, clock, sent, batches, true);
    } else {
      OneThenRefused(batches, clock, sent);
      LoopUnfolds(1, o, clock, sent, batches, true, rounds);
      AfterIs(SendBatchesSpec(1, o, clock, sent, batches).trace,
              LoopSpec(1, o, clock + 6, sent + 1, batches, true, rounds - 1));
      RefusedPassesCount(batches, clock + 6, sent + 1, rounds - 1);
    }
  }

  // ---------------------------------------------------------------- where a pass starts again

  /** Counting on from the events of the passes before, each pass starts where a loop over `n` events
      that goes on where it left off would start it: at the first event. */
  predicate StartWhereLeft(lengths: seq<nat>, n: nat)
    requires n > 0
  {
    forall i :: 0 <= i < |lengths| ==> Sum(lengths[..i]) % n == 0
  }

  /** All passes but the last stopped before the first or after the last of `n` events. */
  predicate WholeButLast(lengths: seq<nat>, n: nat) {
    forall i :: 0 <= i < |lengths| - 1 ==> lengths[i] == 0 || lengths[i] == n
  }

  lemma StartExtends(init: seq<nat>, last: nat, n: nat)
    requires n > 0
    ensures StartWhereLeft(init + [last], n) <==> StartWhereLeft(init, n) && Sum(init) % n == 0
  {
    hide Sum;
    var lengths := init + [last];
    assert forall i :: 0 <= i <= |init| ==> lengths[..i] == init[..i];
    assert init[..|init|] == init;
    assert StartWhereLeft(lengths, n) ==> Sum(lengths[..|init|]) % n == 0;
  }

  lemma WholeExtends(init: seq<nat>, last: nat, n: nat)
    ensures WholeButLast(init + [last], n) <==>
              WholeButLast(init, n) && (init == [] || init[|init| - 1] == 0 || init[|init| - 1] == n)
  {
    var lengths := init + [last];
    assert forall i :: 0 <= i < |init| ==> lengths[i] == init[i];
    assert init != [] && WholeButLast(lengths, n) ==> lengths[|init| - 1] == 0 || lengths[|init| - 1] == n;
  }

  lemma MultiplePlus(a: nat, x: nat, n: nat)
    requires n > 0 && a % n == 0 && x <= n
    ensures (a + x) % n == 0 <==> x == 0 || x == n
  {
    var k := a / n;
    assert a == k * n + 0;
    if x == n {
      assert (k + 1) * n == k * n + n;
      DivUnique(a + x, n, k + 1, 0);
    } else {
      DivUnique(a + x, n, k, x);
    }
  }

  lemma NoLengths(n: nat)
    requires n > 0
    ensures StartWhereLeft([], n) && WholeButLast([], n)
  {
  }

  lemma NothingSummed(n: nat)
    requires n > 0
    ensures Sum([]) % n == 0
  {
  }

  lemma SumOfOne(x: nat)
    ensures Sum([x]) == x
  {
    assert [x][1..] == [];
  }

  lemma {:induction false} StartWhereLeftExactly(lengths: seq<nat>, n: nat)
    requires n > 0 && forall i :: 0 <= i < |lengths| ==> lengths[i] <= n
    ensures StartWhereLeft(lengths, n) <==> WholeButLast(lengths, n)
  {
    hide StartWhereLeft, WholeButLast, Sum;
    if lengths == [] {
      NoLengths(n);
    } else {
      var m := |lengths| - 1;
      var init := lengths[..m];
      assert lengths == init + [lengths[m]];
      StartWhereLeftExactly(init, n);
      StartExtends(init, lengths[m], n);
      WholeExtends(init, lengths[m], n);
      if m == 0 {
        NothingSummed(n);
      } else {
        var before := init[..m - 1];
        assert init == before + [init[m - 1]];
        StartExtends(before, init[m - 1], n);
        SumConcat(before, [init[m - 1]]);
        SumOfOne(init[m - 1]);
        if Sum(before) % n == 0 { MultiplePlus(Sum(before), init[m - 1], n); }
      }
    }
  }

  /** The events over and over again. */
  predicate OverAndOver(flat: seq<Tagged>, d: seq<Tagged>)
    requires flat != []
  {
    forall k :: 0 <= k < |d| ==> d[k] == flat[k % |flat|]
  }

  lemma RoundAgain(flat: seq<Tagged>, d: seq<Tagged>)
    requires flat != [] && OverAndOver(flat, d)
    ensures OverAndOver(flat, flat + d)
  {
    var n := |flat|;
    forall k | 0 <= k < n + |d|
      ensures (flat + d)[k] == flat[k % n]
    {
      if k < n {
        DivUnique(k, n, 0, k);
      } else {
        var q, r := (k - n) / n, (k - n) % n;
        assert k - n == q * n + r && (q + 1) * n == q * n + n;
        DivUnique(k, n, q + 1, r);
      }
    }
  }

  lemma NoPrefix(flat: seq<Tagged>)
    requires flat != []
    ensures Prefixes(flat, []) == [] && OverAndOver(flat, [])
  {
  }

  lemma FirstPrefix(flat: seq<Tagged>, lengths: seq<nat>)
    requires lengths != [] && forall i :: 0 <= i < |lengths| ==> lengths[i] <= |flat|
    ensures Prefixes(flat, lengths) == flat[..lengths[0]] + Prefixes(flat, lengths[1..])
  {
  }

  lemma PrefixIsRound(flat: seq<Tagged>, l: nat)
    requires flat != [] && l <= |flat|
    ensures OverAndOver(flat, flat[..l])
  {
    forall k | 0 <= k < l
      ensures flat[..l][k] == flat[k % |flat|]
    {
      DivUnique(k, |flat|, 0, k);
    }
  }

  lemma {:induction false} WholePassesRound(flat: seq<Tagged>, lengths: seq<nat>)
    requires flat != [] && forall i :: 0 <= i < |lengths| ==> lengths[i] <= |flat|
    requires WholeButLast(lengths, |flat|)
    ensures OverAndOver(flat, Prefixes(flat, lengths))
  {
    hide Prefixes, OverAndOver;
    if lengths == [] {
      NoPrefix(flat);
    } else {
      var l, rest := lengths[0], lengths[1..];
      FirstPrefix(flat, lengths);
      assert forall i :: 0 <= i < |rest| ==> rest[i] == lengths[i + 1];
      WholePassesRound(flat, rest);
      if rest == [] {
        NoPrefix(flat);
        PrefixIsRound(flat, l);
        assert flat[..l] + [] == flat[..l];
      } else if l == 0 {
        assert flat[..0] + Prefixes(flat, rest) == Prefixes(flat, rest);
      } else {
        assert flat[..l] == flat;
        RoundAgain(flat, Prefixes(flat, rest));
      }
    }
  }

  /** The loop restarts where it left off exactly as long as no pass but its last stopped partway. Then
      what it has delivered is the events over and over again, none twice in a round. */
  lemma RestartsWhereLeftExactly(burst: int, o: Oracle, clock: nat, sent: nat, batches: seq<Batch>, forever: bool,
                                 rounds: nat)
    requires Flat(batches) != []
    ensures var flat, passes := Flat(batches), Passes(burst, o, clock, sent, batches, forever, rounds);
            && (StartWhereLeft(Accepted(passes), |flat|) <==> WholeButLast(Accepted(passes), |flat|))
            && (WholeButLast(Accepted(passes), |flat|) ==>
                  OverAndOver(flat, Delivered(LoopSpec(burst, o, clock, sent, batches, forever, rounds).trace)))
  {
    hide StartWhereLeft, WholeButLast, OverAndOver, Prefixes, LoopSpec, Passes, Delivered, Flat, Sum;
    var flat, passes := Flat(batches), Passes(burst, o, clock, sent, batches, forever, rounds);
    LoopDelivery(burst, o, clock, sent, batches, forever, rounds);
    StartWhereLeftExactly(Accepted(passes), |flat|);
    if WholeButLast(Accepted(passes), |flat|) {
      WholePassesRound(flat, Accepted(passes));
    }
  }

  lemma FlatOfOne(batches: seq<Batch>)
    requires |batches| == 1 && |batches[0].events| == 2
    ensures |Flat(batches)| == 2 && Flat(batches)[0] == Tagged(batches[0].metadata, batches[0].events[0])
  {
    FlatUnfolds(batches);
    assert Flat(batches[1..]) == [];
  }

  /** Against a transport that refuses every second request every pass stops partway: the first event
      is delivered once for every pass, and the second never. */
  lemma {:induction false} RefusedPassesRepeat(batches: seq<Batch>, clock: nat, sent: nat, rounds: nat)
    requires |batches| == 1 && |batches[0].events| == 2 && clock % 6 == 0
    ensures |Flat(batches)| == 2
    ensures Delivered(LoopSpec(1, EVERY_SIXTH_FAILS, clock, sent, batches, true, rounds).trace)
         == seq(rounds, _ => Tagged(batches[0].metadata, batches[0].events[0]))
    decreases rounds
  {
    hide *;
    var o := EVERY_SIXTH_FAILS;
    FlatOfOne(batches);
    if rounds == 0 {
      NoRounds(1, o, clock, sent, batches, true);
      EmptyTrace("");
    } else {
      var pass := SendBatchesSpec(1, o, clock, sent, batches);
      var rest := LoopSpec(1, o, clock + 6, sent + 1, batches, true, rounds - 1);
      OneThenRefused(batches, clock, sent);
      PassDelivery(1, o, clock, sent, batches);
      LoopUnfolds(1, o, clock, sent, batches, true, rounds);
      AfterIs(pass.trace, rest);
      DeliveredConcat(pass.trace, rest.trace);
      RefusedPassesRepeat(batches, clock + 6, sent + 1, rounds - 1);
      assert Delivered(pass.trace) == [Flat(batches)[0]];
    }
  }
}
