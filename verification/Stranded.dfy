/**
 Why a write that does not fit the window needs a consumer that acknowledges as it goes: OnConsumed
 never looks for stored chunks, so a pause that outlives the last Process call is never lifted.
 */
module Stranded {
  import opened Bytes
  import opened SessionProtocol
  import opened HonestRuns
  import opened LazyRuns

  lemma RunThree(s: State, e1: Event, e2: Event, e3: Event)
    requires Enabled(s, e1) && Enabled(Apply(s, e1), e2) && Enabled(Apply(Apply(s, e1), e2), e3)
    ensures Legal(s, [e1, e2, e3]) && Run(s, [e1, e2, e3]) == Apply(Apply(Apply(s, e1), e2), e3)
  {
    RunOne(Apply(Apply(s, e1), e2), e3);
    assert [e2, e3][1..] == [e3];
    assert [e1, e2, e3][1..] == [e2, e3];
  }

  ghost predicate NoAcks(frames: seq<Chunk>, es: seq<Event>) {
    forall i :: 0 <= i < |es| ==> OfWrite(frames, es[i]) && !es[i].Ack?
  }

  lemma Join(frames: seq<Chunk>, s: State, a: seq<Event>, b: seq<Event>)
    requires Legal(s, a) && Legal(Run(s, a), b) && NoAcks(frames, a) && NoAcks(frames, b)
    ensures Legal(s, a + b) && Run(s, a + b) == Run(Run(s, a), b) && NoAcks(frames, a + b)
  {
    RunConcat(s, a, b);
  }

  ghost predicate Open(s: State) {
    !s.done && !s.closed && !s.outputClosed && !s.retrying && !s.removed && s.pending == 0 && s.retryPc.Absent?
  }

  // ------------------------------------------------------------------ up to the window

  /** The first k chunks were sent and received one by one, and none of them is acknowledged. */
  ghost predicate Ahead(frames: seq<Chunk>, s: State, k: nat) {
    && k < |frames| && Open(s) && s.tryPc.Idle?
    && s.chunks == map[] && s.nextSeq == k && s.finSeq == -1 && s.queue == []
    && s.buffered == SumLen(frames[..k]) && s.consumed == 0
    && s.log.received == frames[..k]
    && (forall n: nat :: n < k ==> n in s.log.offered)
  }

  ghost predicate Sending(frames: seq<Chunk>, s: State, k: nat) {
    && k < |frames| - 1 && Open(s) && s.tryPc == Sent(k, frames[k])
    && s.chunks == map[k := frames[k]] && s.nextSeq == k && s.finSeq == -1 && s.queue == [frames[k]]
    && s.buffered == SumLen(frames[..k]) && s.consumed == 0
    && s.log.received == frames[..k]
    && (forall n: nat :: n < k + 1 ==> n in s.log.offered)
  }

  function Arrive(frames: seq<Chunk>, k: nat): seq<Event>
    requires k < |frames|
  {
    [Store(k, frames[k], k == |frames| - 1), TryEnter, TryStep]
  }

  lemma FirstHalf(frames: seq<Chunk>, s: State, k: nat)
    requires IsWrite(frames) && Ahead(frames, s, k) && k < |frames| - 1 && SumLen(frames[..k]) <= MAX_WINDOW
    ensures Legal(s, Arrive(frames, k)) && Sending(frames, Run(s, Arrive(frames, k)), k)
  {
    RunThree(s, Store(k, frames[k], k == |frames| - 1), TryEnter, TryStep);
  }

  lemma SecondHalf(frames: seq<Chunk>, s: State, k: nat)
    requires IsWrite(frames) && Sending(frames, s, k)
    ensures
      var es := [TryAccount, TryStep, Receive];
      Legal(s, es) && Ahead(frames, Run(s, es), k + 1)
  {
    assert Apply(s, TryAccount).chunks == map[];
    assert frames[..k + 1] == frames[..k] + [frames[k]];
    assert frames[..k + 1][..k] == frames[..k];
    RunThree(s, TryAccount, TryStep, Receive);
  }

  function Cycle(frames: seq<Chunk>, k: nat): seq<Event>
    requires k < |frames|
  {
    Arrive(frames, k) + [TryAccount, TryStep, Receive]
  }

  lemma OneAhead(frames: seq<Chunk>, s: State, k: nat)
    requires IsWrite(frames) && Ahead(frames, s, k) && k < |frames| - 1 && SumLen(frames[..k]) <= MAX_WINDOW
    ensures Legal(s, Cycle(frames, k)) && Ahead(frames, Run(s, Cycle(frames, k)), k + 1)
  {
    FirstHalf(frames, s, k);
    SecondHalf(frames, Run(s, Arrive(frames, k)), k);
    RunConcat(s, Arrive(frames, k), [TryAccount, TryStep, Receive]);
  }

  lemma {:induction false} GetAhead(frames: seq<Chunk>, s0: State, k: nat) returns (es: seq<Event>)
    requires IsWrite(frames) && IsInitial(s0) && k < |frames| && (k > 0 ==> SumLen(frames[..k - 1]) <= MAX_WINDOW)
    ensures Legal(s0, es) && NoAcks(frames, es) && Ahead(frames, Run(s0, es), k)
  {
    if k == 0 {
      es := [];
    } else {
      if k > 1 {
        SumLenGrows(frames, k - 2, k - 1);
      }
      var before := GetAhead(frames, s0, k - 1);
      OneAhead(frames, Run(s0, before), k - 1);
      assert NoAcks(frames, Cycle(frames, k - 1));
      Join(frames, s0, before, Cycle(frames, k - 1));
      es := before + Cycle(frames, k - 1);
    }
  }

  // ------------------------------------------------------------------ beyond it

  /** More than a window is buffered; chunks k to j - 1 are stored, and their calls were paused. */
  ghost predicate Paused(frames: seq<Chunk>, s: State, k: nat, j: nat) {
    && k <= j <= |frames| && Open(s) && s.tryPc.Idle?
    && (forall n :: n in s.chunks <==> k <= n < j) && s.nextSeq == k && s.queue == []
    && s.buffered == SumLen(frames[..k]) > MAX_WINDOW && s.consumed == 0
    && s.log.received == frames[..k]
    && (forall n: nat :: n < j ==> n in s.log.offered)
  }

  lemma PausedArrival(frames: seq<Chunk>, s: State, k: nat, j: nat)
    requires IsWrite(frames) && Paused(frames, s, k, j) && j < |frames|
    ensures Legal(s, Arrive(frames, j)) && Paused(frames, Run(s, Arrive(frames, j)), k, j + 1)
  {
    RunThree(s, Store(j, frames[j], j == |frames| - 1), TryEnter, TryStep);
  }

  lemma {:induction false} PauseTheRest(frames: seq<Chunk>, s: State, k: nat, j: nat) returns (es: seq<Event>)
    requires IsWrite(frames) && Paused(frames, s, k, k) && k <= j <= |frames|
    ensures Legal(s, es) && NoAcks(frames, es) && Paused(frames, Run(s, es), k, j)
    decreases j
  {
    if j == k {
      es := [];
    } else {
      var before := PauseTheRest(frames, s, k, j - 1);
      PausedArrival(frames, Run(s, before), k, j - 1);
      assert NoAcks(frames, Arrive(frames, j - 1));
      Join(frames, s, before, Arrive(frames, j - 1));
      es := before + Arrive(frames, j - 1);
    }
  }

  lemma {:induction false} FirstOver(frames: seq<Chunk>, n: nat) returns (k: nat)
    requires n <= |frames| && SumLen(frames[..n]) > MAX_WINDOW
    ensures 0 < k <= n && SumLen(frames[..k - 1]) <= MAX_WINDOW < SumLen(frames[..k])
  {
    k := n;
    if SumLen(frames[..n - 1]) > MAX_WINDOW {
      k := FirstOver(frames, n - 1);
    }
  }

  /** At rest with the account at zero, and only a new frame, a removal or an acknowledgement can still happen. */
  ghost predicate IsStranded(frames: seq<Chunk>, s: State, k: nat) {
    && k < |frames| && s.log.received == frames[..k] && s.queue == [] && !s.done && s.buffered == 0
    && s.nextSeq in s.chunks && s.consumed == SumLen(s.log.received)
    && (forall e: Event :: Enabled(s, e) ==> e.Store? || e.Remove? || e.Ack?)
  }

  lemma LateAck(frames: seq<Chunk>, s: State, k: nat)
    requires IsWrite(frames) && Paused(frames, s, k, |frames|) && k < |frames|
    ensures
      var t := Apply(s, Ack(SumLen(frames[..k])));
      Lazy(frames, s, Ack(SumLen(frames[..k]))) && IsStranded(frames, t, k) && AllOffered(frames, t)
  {
  }

  lemma StrandedIsSettled(frames: seq<Chunk>, s: State, k: nat)
    requires IsStranded(frames, s, k)
    ensures Settled(frames, s)
  {
  }

  /**
   A consumer that takes chunks until more than a window is buffered, and acknowledges them all once
   the last frame has arrived, gets no further.
   */
  lemma LateAckStrands(frames: seq<Chunk>, s0: State) returns (es: seq<Event>, k: nat)
    requires IsWrite(frames) && IsInitial(s0) && AllButLast(frames) > MAX_WINDOW
    ensures 0 < k < |frames| && SumLen(frames[..k - 1]) <= MAX_WINDOW < SumLen(frames[..k])
    ensures LazyRun(frames, s0, es) && Legal(s0, es)
    ensures IsStranded(frames, Run(s0, es), k) && AllOffered(frames, Run(s0, es))
  {
    k := FirstOver(frames, |frames| - 1);
    var ahead := GetAhead(frames, s0, k);
    var rest := PauseTheRest(frames, Run(s0, ahead), k, |frames|);
    Join(frames, s0, ahead, rest);
    WithoutAcks(frames, s0, ahead + rest);
    var ack := Ack(SumLen(frames[..k]));
    LateAck(frames, Run(s0, ahead + rest), k);
    LazyOneMore(frames, s0, ahead + rest, ack);
    es := ahead + rest + [ack];
  }

  lemma SomeInitial() returns (s: State)
    ensures IsInitial(s)
  {
    s := State(
      map[], 0, -1, [], false, false, false, false, 0, 0,
      0, Idle, Absent, false, false, false,
      Log({}, {}, [], [], 0, [], 0, false));
  }

  /**
   A write survives every consumer, however late it acknowledges, exactly when all of it but the last
   chunk fits the window.
   */
  lemma LateAcksExact(frames: seq<Chunk>)
    requires IsWrite(frames)
    ensures AlwaysDelivered(frames) <==> AllButLast(frames) <= MAX_WINDOW
  {
    if AllButLast(frames) <= MAX_WINDOW {
      FittingWriteIsDelivered(frames);
    } else {
      var s0 := SomeInitial();
      var es, k := LateAckStrands(frames, s0);
      StrandedIsSettled(frames, Run(s0, es), k);
    }
  }

  // ------------------------------------------------------------------ an instance

  function FullChunk(): (c: Chunk)
    ensures |c| == MAX_CHUNK
  {
    seq(MAX_CHUNK, _ => 0)
  }

  function FullChunks(n: nat): (cs: seq<Chunk>)
    ensures |cs| == n && forall i :: 0 <= i < n ==> |cs[i]| == MAX_CHUNK
  {
    seq(n, _ => FullChunk())
  }

  /**
   A write of 258 full chunks, all processed. The consumer takes 257 chunks before it acknowledges
   any, then acknowledges them all: the account is back to zero, the last chunk is stored, and no
   goroutine will ever look for it.
   */
  lemma EagerConsumerIsStranded(s0: State) returns (es: seq<Event>)
    requires IsInitial(s0)
    ensures Legal(s0, es)
    ensures
      var t := Run(s0, es);
      && (forall n: nat :: n < 258 ==> n in t.log.offered)
      && |t.log.received| == 257 && t.queue == [] && !t.done && t.buffered == 0
      && t.nextSeq in t.chunks
      && (forall e: Event :: Enabled(t, e) ==> e.Store? || e.Remove? || e.Ack?)
  {
    var frames, k := FullChunks(258), 0;
    SumLenUniform(frames, MAX_CHUNK, 257);
    es, k := LateAckStrands(frames, s0);
    SumLenUniform(frames, MAX_CHUNK, k - 1);
    SumLenUniform(frames, MAX_CHUNK, k);
  }
}
