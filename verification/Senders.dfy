/** Several senders that share one limiter, in any interleaving of their steps. */
module Senders {
  import opened Events
  import opened Replay
  import opened Pacing

  /** One observation of one of the senders. */
  datatype Step = Step(sender: nat, seen: Observation)

  /** What one sender did in an interleaving. */
  function Of(merged: seq<Step>, sender: nat): Trace {
    if merged == [] then []
    else
      var last := merged[|merged| - 1];
      Of(merged[..|merged| - 1], sender) + (if last.sender == sender then [last.seen] else [])
  }

  /** The observations of an interleaving without the names of the senders. */
  function Seen(merged: seq<Step>): Trace {
    if merged == [] then [] else Seen(merged[..|merged| - 1]) + [merged[|merged| - 1].seen]
  }

  /** A sender: a handler with its batches and its part of the environment. */
  datatype Sender = Sender(o: Oracle, batches: seq<Batch>, forever: bool, rounds: nat)

  function TraceOf(burst: nat, s: Sender): Trace {
    LoopSpec(burst, s.o, 0, 0, s.batches, s.forever, s.rounds).trace
  }

  /** Each sender has done the first part of its own trace. */
  predicate IsInterleaving(burst: nat, senders: seq<Sender>, merged: seq<Step>) {
    && (forall i :: 0 <= i < |merged| ==> merged[i].sender < |senders|)
    && (forall s :: 0 <= s < |senders| ==> Of(merged, s) <= TraceOf(burst, senders[s]))
  }

  function TokensUpTo(merged: seq<Step>, n: nat): nat {
    if n == 0 then 0 else TokensUpTo(merged, n - 1) + Tokens(Of(merged, n - 1))
  }

  function AckedUpTo(merged: seq<Step>, n: nat): nat {
    if n == 0 then 0 else AckedUpTo(merged, n - 1) + AckedCount(Of(merged, n - 1))
  }

  lemma CountsOfLast(t: Trace, x: Observation)
    ensures Tokens(t + [x]) == Tokens(t) + (if x.Granted? then x.tokens else 0)
    ensures AckedCount(t + [x]) == AckedCount(t) + (if x.Acked? then |x.events| else 0)
  {
  }

  lemma StepOf(merged: seq<Step>, s: nat)
    requires merged != []
    ensures var init, x := merged[..|merged| - 1], merged[|merged| - 1];
            && Tokens(Of(merged, s)) == Tokens(Of(init, s))
                 + (if x.sender == s && x.seen.Granted? then x.seen.tokens else 0)
            && AckedCount(Of(merged, s)) == AckedCount(Of(init, s))
                 + (if x.sender == s && x.seen.Acked? then |x.seen.events| else 0)
  {
    hide Tokens, AckedCount;
    var init, x := merged[..|merged| - 1], merged[|merged| - 1];
    if x.sender == s {
      CountsOfLast(Of(init, s), x.seen);
    } else {
      assert Of(merged, s) == Of(init, s);
    }
  }

  /** One more step adds its counts to the sums over the senders, once its sender is included. */
  lemma {:induction false} StepAddsOnce(merged: seq<Step>, n: nat)
    requires merged != []
    ensures var init, x := merged[..|merged| - 1], merged[|merged| - 1];
            && TokensUpTo(merged, n) == TokensUpTo(init, n)
                 + (if x.sender < n && x.seen.Granted? then x.seen.tokens else 0)
            && AckedUpTo(merged, n) == AckedUpTo(init, n)
                 + (if x.sender < n && x.seen.Acked? then |x.seen.events| else 0)
  {
    hide Of, Tokens, AckedCount;
    if n > 0 {
      StepAddsOnce(merged, n - 1);
      StepOf(merged, n - 1);
    }
  }

  lemma {:induction false} NothingUpTo(n: nat)
    ensures TokensUpTo([], n) == 0 && AckedUpTo([], n) == 0
  {
    if n > 0 { NothingUpTo(n - 1); }
  }

  /** Counting an interleaving sender by sender counts all of it. */
  lemma {:induction false} SendersAddUp(merged: seq<Step>, n: nat)
    requires forall i :: 0 <= i < |merged| ==> merged[i].sender < n
    ensures Tokens(Seen(merged)) == TokensUpTo(merged, n)
    ensures AckedCount(Seen(merged)) == AckedUpTo(merged, n)
  {
    if merged == [] {
      NothingUpTo(n);
    } else {
      var init, x := merged[..|merged| - 1], merged[|merged| - 1];
      SendersAddUp(init, n);
      StepAddsOnce(merged, n);
      CountsOfLast(Seen(init), x.seen);
    }
  }

  lemma {:induction false} EachIsCovered(burst: nat, senders: seq<Sender>, merged: seq<Step>, n: nat)
    requires burst > 0 && n <= |senders| && IsInterleaving(burst, senders, merged)
    ensures AckedUpTo(merged, n) <= TokensUpTo(merged, n)
  {
    hide LoopSpec, Of, Tokens, AckedCount;
    if n > 0 {
      EachIsCovered(burst, senders, merged, n - 1);
      var s, t := senders[n - 1], Of(merged, n - 1);
      AckedWithinTokens(burst, s.o, s.batches, s.forever, s.rounds, |t|);
      assert TraceOf(burst, s)[..|t|] == t;
    }
  }

  /** At every moment of every interleaving of senders that share a limiter, however their calls
      fail and whether or not they retry, no more events have been accepted in all than tokens have
      been granted in all. */
  lemma SharedLimiterHolds(burst: nat, senders: seq<Sender>, merged: seq<Step>)
    requires burst > 0 && IsInterleaving(burst, senders, merged)
    ensures AckedCount(Seen(merged)) <= Tokens(Seen(merged))
  {
    hide TokensUpTo, AckedUpTo, Tokens, AckedCount, Seen, Of, TraceOf;
    SendersAddUp(merged, |senders|);
    EachIsCovered(burst, senders, merged, |senders|);
  }
}
