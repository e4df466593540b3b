/**
 Runs in which the frames are those of one write, the session is not removed, and the consumer
 acknowledges each chunk it took, in full, before it takes the next.
 */
module HonestRuns {
  import opened Bytes
  import opened SessionProtocol

  /** A write of at least one chunk, whose sequence numbers do not wrap. */
  predicate IsWrite(frames: seq<Chunk>) {
    0 < |frames| <= U32_SPACE
  }

  /** Frames come from the write, and nobody removes the session. */
  predicate OfWrite(frames: seq<Chunk>, e: Event) {
    match e
    case Store(num, chunk, fin) => num < |frames| && chunk == frames[num] && fin == (num == |frames| - 1)
    case Remove => false
    case _ => true
  }

  /** The consumer acknowledges what it took, in full, before it takes the next. */
  predicate Prompt(s: State, e: Event) {
    match e
    case Receive => s.log.acks == |s.log.received|
    case Ack(n) => s.log.acks < |s.log.received| && n == |s.log.received[s.log.acks]|
    case _ => true
  }

  predicate Honest(frames: seq<Chunk>, s: State, e: Event) {
    OfWrite(frames, e) && Prompt(s, e)
  }

  ghost predicate HonestRun(frames: seq<Chunk>, s: State, es: seq<Event>)
    decreases |es|
  {
    es == [] ||
    (Enabled(s, es[0]) && Honest(frames, s, es[0]) && HonestRun(frames, Apply(s, es[0]), es[1..]))
  }

  lemma {:induction false} HonestRunIsLegal(frames: seq<Chunk>, s: State, es: seq<Event>)
    requires HonestRun(frames, s, es)
    ensures Legal(s, es)
    decreases |es|
  {
    if es != [] {
      HonestRunIsLegal(frames, Apply(s, es[0]), es[1..]);
    }
  }

  lemma {:induction false} HonestConcat(frames: seq<Chunk>, s: State, a: seq<Event>, b: seq<Event>)
    requires HonestRun(frames, s, a) && Legal(s, a) && HonestRun(frames, Run(s, a), b)
    ensures HonestRun(frames, s, a + b)
    decreases |a|
  {
    if a == [] {
      assert a + b == b;
    } else {
      assert (a + b)[0] == a[0] && (a + b)[1..] == a[1..] + b;
      var next := Apply(s, a[0]);
      assert HonestRun(frames, next, a[1..]) && Run(s, a) == Run(next, a[1..]);
      HonestConcat(frames, next, a[1..], b);
    }
  }

  lemma HonestFirst(frames: seq<Chunk>, s: State, e: Event, es: seq<Event>)
    requires Enabled(s, e) && Honest(frames, s, e) && HonestRun(frames, Apply(s, e), es) && Legal(Apply(s, e), es)
    ensures HonestRun(frames, s, [e] + es) && Legal(s, [e] + es) && Run(s, [e] + es) == Run(Apply(s, e), es)
  {
    assert ([e] + es)[0] == e && ([e] + es)[1..] == es;
  }

  lemma HonestOneMore(frames: seq<Chunk>, s: State, es: seq<Event>, e: Event)
    requires HonestRun(frames, s, es) && Legal(s, es) && Enabled(Run(s, es), e) && Honest(frames, Run(s, es), e)
    ensures HonestRun(frames, s, es + [e]) && Legal(s, es + [e]) && Run(s, es + [e]) == Apply(Run(s, es), e)
  {
    RunOne(Run(s, es), e);
    assert [e][1..] == [];
    HonestConcat(frames, s, es, [e]);
    RunConcat(s, es, [e]);
  }

  // ------------------------------------------------------------------ invariants

  /** Everything Process calls brought is a frame of the write. */
  ghost predicate FromWrite(frames: seq<Chunk>, log: Log) {
    && (forall p :: p in log.stored ==> p.0 < |frames| && p.1 == frames[p.0])
    && (forall n :: n in log.offered ==> n < |frames|)
  }

  /** What was brought is stored, and is kept until it is accounted. */
  ghost predicate Kept(frames: seq<Chunk>, log: Log, chunks: map<nat, Chunk>)
    requires FromWrite(frames, log)
  {
    && (forall n :: n in log.offered ==> (n, frames[n]) in log.stored)
    && (forall p :: p in log.stored && log.accounted <= p.0 ==> p.0 in chunks)
  }

  ghost predicate Faithful(frames: seq<Chunk>, s: State) {
    FromWrite(frames, s.log) && (!s.done ==> Kept(frames, s.log, s.chunks))
  }

  /** done is closed by the last chunk, and by nothing else. */
  ghost predicate Finishing(frames: seq<Chunk>, s: State)
    requires IsWrite(frames)
  {
    && !s.removed
    && (s.finSeq == -1 || s.finSeq == |frames| - 1)
    && ((|frames| - 1, frames[|frames| - 1]) in s.log.stored ==> s.finSeq == |frames| - 1)
    && s.log.accounted <= |frames|
    && (s.done <==> s.log.accounted == |frames|)
    && (s.done ==> Lag(s) == 0 && s.retryPc.Absent?)
  }

  /** The consumer holds at most one chunk it has not acknowledged. */
  ghost predicate Disciplined(s: State) {
    && s.log.acks <= |s.log.received| <= s.log.acks + 1
    && s.consumed == SumLen(s.log.received[..s.log.acks])
  }

  /** No wakeup is lost: a chunk that can be sent has somebody who will look for it. */
  ghost predicate Awake(s: State) {
    !s.done && s.nextSeq in s.chunks ==> s.retrying || s.pending > 0 || !s.tryPc.Idle?
  }

  ghost predicate Inv(frames: seq<Chunk>, s: State)
    requires IsWrite(frames)
  {
    Safe(s) && InOrder(s) && Balanced(s) && Faithful(frames, s) && Finishing(frames, s) && Disciplined(s) && Awake(s)
  }

  /** What was sent is a prefix of the write. */
  lemma SentIsPrefix(frames: seq<Chunk>, s: State)
    requires IsWrite(frames) && InOrder(s) && Faithful(frames, s) && Finishing(frames, s)
    ensures |s.log.sent| <= |frames| && s.log.sent == frames[..|s.log.sent|]
  {
    forall i | 0 <= i < |s.log.sent|
      ensures s.log.sent[i] == frames[i]
    {
      assert (s.log.sentNums[i], s.log.sent[i]) in s.log.stored;
      assert i % U32_SPACE == i;
    }
  }

  /** The byte accounting stays within one chunk below zero and 101 chunks above it. */
  lemma BufferedBound(s: State)
    requires Safe(s) && InOrder(s) && Balanced(s) && Disciplined(s)
    ensures -MAX_CHUNK <= s.buffered <= (CHANNEL_CAPACITY + 1) * MAX_CHUNK
    ensures !ShouldPause(s)
  {
    var sent, acc, acks := s.log.sent, s.log.accounted, s.log.acks;
    assert s.log.received[..acks] == sent[..acks];
    if acks <= acc {
      assert sent[..acc] == sent[..acks] + sent[acks..acc];
      SumLenConcat(sent[..acks], sent[acks..acc]);
      SumLenBound(sent[acks..acc], MAX_CHUNK);
      assert |sent[acks..acc]| <= CHANNEL_CAPACITY + 1;
    } else {
      assert sent[..acks][..acc] == sent[..acc];
    }
  }

  /** Only the consumer's own steps touch what it received and acknowledged. */
  lemma OnlyTheConsumerConsumes(s: State, e: Event)
    requires Safe(s) && Enabled(s, e) && !e.Receive? && !e.Ack?
    ensures Apply(s, e).log.received == s.log.received && Apply(s, e).log.acks == s.log.acks
    ensures Apply(s, e).consumed == s.consumed
  {
  }

  lemma DisciplinedStep(frames: seq<Chunk>, s: State, e: Event)
    requires Safe(s) && !s.removed && Disciplined(s) && Enabled(s, e) && Honest(frames, s, e)
    ensures Disciplined(Apply(s, e))
  {
    var s' := Apply(s, e);
    if e.Receive? {
      assert s'.log.received[..s'.log.acks] == s.log.received[..s.log.acks];
    } else if e.Ack? {
      assert s'.log.received[..s'.log.acks][..s.log.acks] == s.log.received[..s.log.acks];
    } else {
      OnlyTheConsumerConsumes(s, e);
    }
  }

  lemma FaithfulAccount(frames: seq<Chunk>, s: State, e: Event)
    requires IsWrite(frames) && Safe(s) && Positioned(s) && Faithful(frames, s) && Finishing(frames, s)
    requires Enabled(s, e) && Accounts(e)
    ensures Faithful(frames, Apply(s, e))
  {
  }

  lemma FaithfulStore(frames: seq<Chunk>, s: State, e: Event)
    requires IsWrite(frames) && Faithful(frames, s) && Enabled(s, e) && OfWrite(frames, e) && e.Store?
    ensures Faithful(frames, Apply(s, e))
  {
  }

  lemma OnlyStoresAndAccounts(s: State, e: Event)
    requires Safe(s) && Enabled(s, e) && !Accounts(e) && !e.Store?
    ensures
      var s' := Apply(s, e);
      && s'.log.stored == s.log.stored && s'.log.offered == s.log.offered && s'.log.accounted == s.log.accounted
      && s'.chunks == s.chunks && (s.done ==> s'.done)
  {
  }

  lemma FaithfulOther(frames: seq<Chunk>, s: State, e: Event)
    requires IsWrite(frames) && Safe(s) && Faithful(frames, s) && Enabled(s, e)
    requires !Accounts(e) && !e.Store?
    ensures Faithful(frames, Apply(s, e))
  {
    OnlyStoresAndAccounts(s, e);
  }

  /** When the chunk in flight is the last one, the FIN flag has been recorded. */
  lemma LastInFlight(frames: seq<Chunk>, s: State)
    requires IsWrite(frames) && InOrder(s) && Faithful(frames, s) && Finishing(frames, s)
    requires Lag(s) == 1
    ensures s.nextSeq == s.log.accounted < |frames|
    ensures s.log.accounted == |frames| - 1 ==> s.finSeq == |frames| - 1
  {
    SentIsPrefix(frames, s);
    var i := s.log.accounted;
    assert (s.log.sentNums[i], s.log.sent[i]) in s.log.stored;
    assert i % U32_SPACE == i;
  }

  lemma FinishingAccount(frames: seq<Chunk>, s: State, e: Event)
    requires IsWrite(frames) && Safe(s) && InOrder(s) && Faithful(frames, s) && Finishing(frames, s)
    requires Enabled(s, e) && Accounts(e)
    ensures Finishing(frames, Apply(s, e))
  {
    LastInFlight(frames, s);
  }

  lemma FinishingOther(frames: seq<Chunk>, s: State, e: Event)
    requires IsWrite(frames) && Safe(s) && Positioned(s) && Faithful(frames, s) && Finishing(frames, s)
    requires Enabled(s, e) && OfWrite(frames, e) && !Accounts(e)
    ensures Finishing(frames, Apply(s, e))
  {
  }

  lemma WriteStep(frames: seq<Chunk>, s: State, e: Event)
    requires IsWrite(frames) && Safe(s) && InOrder(s) && Faithful(frames, s) && Finishing(frames, s)
    requires Enabled(s, e) && OfWrite(frames, e)
    ensures Faithful(frames, Apply(s, e)) && Finishing(frames, Apply(s, e))
  {
    if Accounts(e) {
      FaithfulAccount(frames, s, e);
      FinishingAccount(frames, s, e);
    } else {
      if e.Store? {
        FaithfulStore(frames, s, e);
      } else {
        FaithfulOther(frames, s, e);
      }
      FinishingOther(frames, s, e);
    }
  }

  /** In any run at all, a wakeup is lost exactly when flow control pauses the last call that would send. */
  lemma OnlyAPauseLosesAWakeup(s: State, e: Event)
    requires Safe(s) && Awake(s) && Enabled(s, e)
    ensures Awake(Apply(s, e)) <==>
      !(e.TryStep? && ShouldPause(s) && s.nextSeq in s.chunks && s.pending == 0)
  {
  }

  lemma InvStep(frames: seq<Chunk>, s: State, e: Event)
    requires IsWrite(frames) && Inv(frames, s) && Enabled(s, e) && Honest(frames, s, e)
    ensures Inv(frames, Apply(s, e))
  {
    SafeStep(s, e);
    InOrderStep(s, e);
    BalancedStep(s, e);
    WriteStep(frames, s, e);
    DisciplinedStep(frames, s, e);
    BufferedBound(s);
    OnlyAPauseLosesAWakeup(s, e);
  }

  lemma InvInitially(frames: seq<Chunk>, s: State)
    requires IsWrite(frames) && IsInitial(s)
    ensures Inv(frames, s)
  {
    InitiallySafe(s);
    assert Faithful(frames, s);
    assert Finishing(frames, s);
    assert Disciplined(s);
    assert Awake(s);
  }

  lemma {:induction false} InvHolds(frames: seq<Chunk>, s: State, es: seq<Event>)
    requires IsWrite(frames) && Inv(frames, s) && HonestRun(frames, s, es)
    ensures Legal(s, es) && Inv(frames, Run(s, es))
    decreases |es|
  {
    if es != [] {
      InvStep(frames, s, es[0]);
      InvHolds(frames, Apply(s, es[0]), es[1..]);
    }
  }

  /** s is reached by an honest run from a fresh session. */
  ghost predicate Reached(frames: seq<Chunk>, s: State) {
    exists s0: State, es: seq<Event> ::
      IsInitial(s0) && HonestRun(frames, s0, es) && Legal(s0, es) && s == Run(s0, es)
  }

  lemma ReachedInv(frames: seq<Chunk>, s: State)
    requires IsWrite(frames) && Reached(frames, s)
    ensures Inv(frames, s)
  {
    var s0: State, es: seq<Event> :|
      IsInitial(s0) && HonestRun(frames, s0, es) && Legal(s0, es) && s == Run(s0, es);
    InvInitially(frames, s0);
    InvHolds(frames, s0, es);
  }
}
