/**
 Runs in which the consumer may take chunks as they come and acknowledge later, in any portions, as
 long as it acknowledges no byte it has not received; and the writes that survive all of them.
 */
module LazyRuns {
  import opened Bytes
  import opened SessionProtocol
  import opened HonestRuns
  import opened Delivery

  predicate Lazy(frames: seq<Chunk>, s: State, e: Event) {
    OfWrite(frames, e) && (e.Ack? ==> 0 < e.n && s.consumed + e.n <= SumLen(s.log.received))
  }

  ghost predicate LazyRun(frames: seq<Chunk>, s: State, es: seq<Event>)
    decreases |es|
  {
    es == [] || (Enabled(s, es[0]) && Lazy(frames, s, es[0]) && LazyRun(frames, Apply(s, es[0]), es[1..]))
  }

  /** Nothing can happen any more, and every byte received has been acknowledged. */
  ghost predicate Settled(frames: seq<Chunk>, s: State) {
    forall e: Event :: Lazy(frames, s, e) && !e.Store? ==> !Enabled(s, e)
  }

  predicate AllOffered(frames: seq<Chunk>, s: State) {
    forall n: nat :: n < |frames| ==> n in s.log.offered
  }

  /** What was placed before the last chunk: known before the write begins. */
  function AllButLast(frames: seq<Chunk>): nat
    requires IsWrite(frames)
  {
    SumLen(frames[..|frames| - 1])
  }

  /** Every such run that has processed all frames and come to rest has delivered the write. */
  ghost predicate AlwaysDelivered(frames: seq<Chunk>) {
    forall s0: State, es: seq<Event> ::
      IsInitial(s0) && LazyRun(frames, s0, es) && Legal(s0, es)
      && AllOffered(frames, Run(s0, es)) && Settled(frames, Run(s0, es)) ==>
      var s := Run(s0, es); s.log.received == frames && s.done && s.closed
  }

  /** A consumer that has not acknowledged anything yet is lazy, whatever it does. */
  lemma {:induction false} WithoutAcks(frames: seq<Chunk>, s: State, es: seq<Event>)
    requires Legal(s, es) && forall i :: 0 <= i < |es| ==> OfWrite(frames, es[i]) && !es[i].Ack?
    ensures LazyRun(frames, s, es)
    decreases |es|
  {
    if es != [] {
      WithoutAcks(frames, Apply(s, es[0]), es[1..]);
    }
  }

  lemma {:induction false} LazyOneMore(frames: seq<Chunk>, s: State, es: seq<Event>, e: Event)
    requires LazyRun(frames, s, es) && Legal(s, es) && Enabled(Run(s, es), e) && Lazy(frames, Run(s, es), e)
    ensures LazyRun(frames, s, es + [e]) && Legal(s, es + [e]) && Run(s, es + [e]) == Apply(Run(s, es), e)
    decreases |es|
  {
    if es == [] {
      assert es + [e] == [e] && [e][1..] == [];
    } else {
      var next := Apply(s, es[0]);
      assert (es + [e])[0] == es[0] && (es + [e])[1..] == es[1..] + [e];
      assert LazyRun(frames, next, es[1..]) && Run(s, es) == Run(next, es[1..]);
      LazyOneMore(frames, next, es[1..], e);
    }
  }

  // ------------------------------------------------------------------ a write that fits is never paused

  ghost predicate LazyInv(frames: seq<Chunk>, s: State)
    requires IsWrite(frames)
  {
    && Safe(s) && InOrder(s) && Balanced(s) && Faithful(frames, s) && Finishing(frames, s) && Awake(s)
    && 0 <= s.consumed
  }

  lemma NoPause(frames: seq<Chunk>, s: State)
    requires IsWrite(frames) && LazyInv(frames, s) && AllButLast(frames) <= MAX_WINDOW && !s.done
    ensures !ShouldPause(s)
  {
    SentIsPrefix(frames, s);
    var acc := s.log.accounted;
    assert s.log.sent[..acc] == frames[..acc];
    SumLenGrows(frames, acc, |frames| - 1);
  }

  lemma StaysAwake(frames: seq<Chunk>, s: State, e: Event)
    requires IsWrite(frames) && LazyInv(frames, s) && AllButLast(frames) <= MAX_WINDOW && Enabled(s, e)
    ensures Awake(Apply(s, e))
  {
    if !s.done {
      NoPause(frames, s);
    }
    OnlyAPauseLosesAWakeup(s, e);
  }

  lemma ConsumedGrows(frames: seq<Chunk>, s: State, e: Event)
    requires Safe(s) && Enabled(s, e) && Lazy(frames, s, e)
    ensures s.consumed <= Apply(s, e).consumed
  {
  }

  lemma LazyStep(frames: seq<Chunk>, s: State, e: Event)
    requires IsWrite(frames) && LazyInv(frames, s) && AllButLast(frames) <= MAX_WINDOW
    requires Enabled(s, e) && Lazy(frames, s, e)
    ensures LazyInv(frames, Apply(s, e))
  {
    SafeStep(s, e);
    InOrderStep(s, e);
    BalancedStep(s, e);
    WriteStep(frames, s, e);
    StaysAwake(frames, s, e);
    ConsumedGrows(frames, s, e);
  }

  lemma {:induction false} LazyInvHolds(frames: seq<Chunk>, s: State, es: seq<Event>)
    requires IsWrite(frames) && LazyInv(frames, s) && AllButLast(frames) <= MAX_WINDOW && LazyRun(frames, s, es)
    ensures Legal(s, es) && LazyInv(frames, Run(s, es))
    decreases |es|
  {
    if es != [] {
      LazyStep(frames, s, es[0]);
      LazyInvHolds(frames, Apply(s, es[0]), es[1..]);
    }
  }

  lemma SettledIsIdle(frames: seq<Chunk>, s: State)
    requires Safe(s) && Settled(frames, s)
    ensures s.pending == 0 && s.tryPc.Idle? && s.retryPc.Absent? && s.queue == []
  {
    assert !s.tryPc.Looping? && !s.tryPc.Sent? by {
      assert !Enabled(s, TryStep) && !Enabled(s, TryAccount);
    }
    assert !s.retryPc.LockedSent? by { assert !Enabled(s, RetryAccount); }
    assert LockFree(s);
    assert !Enabled(s, TryEnter) && !Enabled(s, Receive) && !Enabled(s, RetrySend);
    assert !Enabled(s, RetryLocked) && !Enabled(s, RetryExit) && !Enabled(s, RetryAfterSend);
  }

  /** At rest with all its frames and no pause, the write is delivered. */
  lemma FittingWriteArrives(frames: seq<Chunk>, s: State)
    requires IsWrite(frames) && LazyInv(frames, s) && AllOffered(frames, s) && Settled(frames, s)
    ensures s.log.received == frames && s.done && s.closed
  {
    SettledIsIdle(frames, s);
    SentIsPrefix(frames, s);
    if !s.done {
      NextIsStored(frames, s);
    }
  }

  lemma FittingWriteIsDelivered(frames: seq<Chunk>)
    requires IsWrite(frames) && AllButLast(frames) <= MAX_WINDOW
    ensures AlwaysDelivered(frames)
  {
    forall s0: State, es: seq<Event> |
      IsInitial(s0) && LazyRun(frames, s0, es) && Legal(s0, es)
      && AllOffered(frames, Run(s0, es)) && Settled(frames, Run(s0, es))
      ensures var s := Run(s0, es); s.log.received == frames && s.done && s.closed
    {
      InvInitially(frames, s0);
      LazyInvHolds(frames, s0, es);
      FittingWriteArrives(frames, Run(s0, es));
    }
  }

  // ------------------------------------------------------------------ prompt consumers are among them

  ghost predicate NoneEmpty(frames: seq<Chunk>) {
    forall i :: 0 <= i < |frames| ==> 0 < |frames[i]|
  }

  lemma PromptIsLazy(frames: seq<Chunk>, s: State, e: Event)
    requires IsWrite(frames) && NoneEmpty(frames) && Inv(frames, s) && Enabled(s, e) && Honest(frames, s, e)
    ensures Lazy(frames, s, e)
  {
    if e.Ack? {
      var got, acks := s.log.received, s.log.acks;
      SentIsPrefix(frames, s);
      assert got[acks] == s.log.sent[acks] == frames[acks];
      assert got[..acks + 1][..acks] == got[..acks];
      SumLenGrows(got, acks + 1, |got|);
      assert got[..|got|] == got;
    }
  }

  lemma {:induction false} PromptRunIsLazy(frames: seq<Chunk>, s: State, es: seq<Event>)
    requires IsWrite(frames) && NoneEmpty(frames) && Inv(frames, s) && HonestRun(frames, s, es)
    ensures LazyRun(frames, s, es)
    decreases |es|
  {
    if es != [] {
      PromptIsLazy(frames, s, es[0]);
      InvStep(frames, s, es[0]);
      PromptRunIsLazy(frames, Apply(s, es[0]), es[1..]);
    }
  }

  lemma QuiescentIsSettled(frames: seq<Chunk>, s: State)
    requires Safe(s) && Disciplined(s) && Quiescent(frames, s)
    ensures Settled(frames, s)
  {
    QuiescentIsIdle(frames, s);
    assert s.log.received[..s.log.acks] == s.log.received;
  }

  /** Every write has a run of the kind AlwaysDelivered speaks about. */
  lemma SomeRunSettles(frames: seq<Chunk>, s0: State) returns (es: seq<Event>)
    requires IsWrite(frames) && NoneEmpty(frames) && IsInitial(s0)
    ensures LazyRun(frames, s0, es) && Legal(s0, es)
    ensures AllOffered(frames, Run(s0, es)) && Settled(frames, Run(s0, es))
  {
    es := WriteCanArrive(frames, s0);
    InvInitially(frames, s0);
    PromptRunIsLazy(frames, s0, es);
    InvHolds(frames, s0, es);
    QuiescentIsSettled(frames, Run(s0, es));
  }
}
