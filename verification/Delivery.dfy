/**
 What the reassembly protocol promises over whole runs: order and channel safety for every run,
 shutdown after RemoveSession or FIN, and complete delivery of a write to a consumer that
 acknowledges each chunk before it takes the next.
 */
module Delivery {
  import opened Bytes
  import opened SessionProtocol
  import opened HonestRuns

  // ------------------------------------------------------------------ every run

  /**
   In every reachable state: no send on a closed channel, no second close, one sender; the chunks
   ever sent carry 0, 1, 2, ... and stand for stored ones; nextSeq counts them, less the one a
   retry has sent and not accounted (or never will, because it saw done).
   */
  lemma EveryRunIsSafe(s0: State, es: seq<Event>, s: State)
    requires IsInitial(s0) && Legal(s0, es) && s == Run(s0, es)
    ensures !s.panicked && !s.spawnedTwice
    ensures s.retrying <==> !s.retryPc.Absent?
    ensures s.outputClosed ==> s.done && !s.retrying
    ensures s.done ==> s.outputClosed || s.retrying
    ensures s.log.sent == s.log.received + s.queue && |s.log.sentNums| == |s.log.sent|
    ensures forall i :: 0 <= i < |s.log.sent| ==>
      s.log.sentNums[i] == i % U32_SPACE && (i % U32_SPACE, s.log.sent[i]) in s.log.stored
    ensures s.nextSeq == s.log.accounted % U32_SPACE
    ensures |s.log.sent| - s.log.accounted == (if Unaccounted(s) || s.log.gaveUp then 1 else 0)
    ensures s.log.gaveUp ==> s.done && s.retryPc.Absent?
    ensures s.buffered + s.consumed == SumLen(s.log.sent[..s.log.accounted])
  {
    InitiallySafe(s0);
    InvariantsHold(s0, es);
  }

  // ------------------------------------------------------------------ shutdown

  predicate IsRetry(e: Event) {
    e.RetryLocked? || e.RetryAccount? || e.RetrySend? || e.RetryAbort? || e.RetryExit? || e.RetryAfterSend?
  }

  /** How many of its own steps a live retry goroutine can still take once done is closed. */
  function StepsToExit(s: State): nat {
    match s.retryPc
    case Absent => 0
    case Blocked(_, _) => 2
    case _ => 1
  }

  function RetrySteps(es: seq<Event>): nat {
    if es == [] then 0 else (if IsRetry(es[0]) then 1 else 0) + RetrySteps(es[1..])
  }

  /** The step a live retry goroutine can take after done, whatever the consumer does. */
  function ExitStep(s: State): (e: Event)
    requires Safe(s) && s.done && s.retrying
    ensures IsRetry(e) && Enabled(s, e)
  {
    match s.retryPc
    case Top => RetryLocked
    case Blocked(_, _) => RetryAbort
    case UnlockedSent(_, _) => RetryAfterSend
    case Exiting => RetryExit
  }

  lemma ShutdownStep(s: State, e: Event)
    requires Safe(s) && s.done && Enabled(s, e)
    ensures Apply(s, e).done
    ensures
      var t := Apply(s, e);
      t.chunks == s.chunks && t.nextSeq == s.nextSeq && t.finSeq == s.finSeq && t.pending <= s.pending
    ensures StepsToExit(Apply(s, e)) + (if IsRetry(e) then 1 else 0) <= StepsToExit(s)
  {
  }

  /**
   After done is closed the retry goroutine takes at most two more steps, can always take the next
   one without the consumer, and when it is gone output is closed.
   */
  lemma {:induction false} ShutdownTerminates(s: State, es: seq<Event>)
    requires Safe(s) && s.done && Legal(s, es)
    ensures
      var t := Run(s, es);
      && Safe(t) && t.done
      && RetrySteps(es) + StepsToExit(t) <= StepsToExit(s) <= 2
      && (t.outputClosed || Enabled(t, ExitStep(t)))
      && (RetrySteps(es) == StepsToExit(s) ==> t.outputClosed && t.closed)
    decreases |es|
  {
    if es != [] {
      SafeStep(s, es[0]);
      ShutdownStep(s, es[0]);
      ShutdownTerminates(Apply(s, es[0]), es[1..]);
    }
  }

  // ------------------------------------------------------------------ complete delivery

  function PcRank(s: State): nat {
    (match s.tryPc case Idle => 0 case Looping => 3 case Sent(_, _) => 4) +
    (match s.retryPc
     case Absent => 0
     case Blocked(_, _) => 1
     case Exiting => 1
     case Top => 2
     case LockedSent(_, _) => 3
     case UnlockedSent(_, _) => 3)
  }

  /** A bound on the steps an honest run can take before it needs another frame. */
  function Work(frames: seq<Chunk>, s: State): int {
    10 * (|frames| - |s.log.sent|) + 2 * |s.queue| + (|s.log.received| - s.log.acks) + 4 * s.pending + PcRank(s)
  }

  lemma WorkStep(frames: seq<Chunk>, s: State, e: Event)
    requires Safe(s) && (s.done ==> s.retryPc.Absent?) && Enabled(s, e) && Honest(frames, s, e) && !e.Store?
    ensures Work(frames, Apply(s, e)) < Work(frames, s)
  {
  }

  /** Between two frames an honest run is finite: it takes at most Work steps. */
  lemma {:induction false} HonestRunsAreFinite(frames: seq<Chunk>, s: State, es: seq<Event>)
    requires IsWrite(frames) && Inv(frames, s) && HonestRun(frames, s, es)
    requires forall i :: 0 <= i < |es| ==> !es[i].Store?
    ensures Legal(s, es) && Inv(frames, Run(s, es))
    ensures |es| + Work(frames, Run(s, es)) <= Work(frames, s)
    ensures Work(frames, Run(s, es)) >= 0
    decreases |es|
  {
    if es == [] {
      SentIsPrefix(frames, s);
    } else {
      InvStep(frames, s, es[0]);
      WorkStep(frames, s, es[0]);
      HonestRunsAreFinite(frames, Apply(s, es[0]), es[1..]);
    }
  }

  /** Nothing can happen any more, except that Process is called again. */
  ghost predicate Quiescent(frames: seq<Chunk>, s: State) {
    forall e: Event :: Honest(frames, s, e) && !e.Store? ==> !Enabled(s, e)
  }

  lemma QuiescentIsIdle(frames: seq<Chunk>, s: State)
    requires Safe(s) && Disciplined(s) && Quiescent(frames, s)
    ensures s.pending == 0 && s.tryPc.Idle? && s.retryPc.Absent? && s.queue == []
    ensures s.log.acks == |s.log.received|
  {
    assert !s.tryPc.Looping? && !s.tryPc.Sent? by {
      assert !Enabled(s, TryStep) && !Enabled(s, TryAccount);
    }
    assert !s.retryPc.LockedSent? by { assert !Enabled(s, RetryAccount); }
    assert LockFree(s);
    assert !Enabled(s, TryEnter);
    assert !Enabled(s, RetryLocked) && !Enabled(s, RetryExit) && !Enabled(s, RetryAfterSend);
    var n := if s.log.acks < |s.log.received| then |s.log.received[s.log.acks]| else 0;
    assert !Honest(frames, s, Ack(n)) || !Enabled(s, Ack(n));
    assert !Enabled(s, Receive);
    assert !Enabled(s, RetrySend);
  }

  /** While the session is not done and all frames were processed, the next chunk is in the map. */
  lemma NextIsStored(frames: seq<Chunk>, s: State)
    requires IsWrite(frames) && InOrder(s) && Faithful(frames, s) && Finishing(frames, s) && !s.done
    requires forall n: nat :: n < |frames| ==> n in s.log.offered
    ensures s.nextSeq in s.chunks
  {
    var n := s.log.accounted;
    assert n in s.log.offered && n % U32_SPACE == n;
    assert (n, frames[n]) in s.log.stored;
  }

  /**
   Complete delivery. Once every frame of the write has been processed, in any order and any number
   of times, and nothing can happen any more, the consumer holds exactly the write and has seen
   output closed.
   */
  lemma CompleteDelivery(frames: seq<Chunk>, s: State)
    requires IsWrite(frames) && Reached(frames, s) && Quiescent(frames, s)
    requires forall n: nat :: n < |frames| ==> n in s.log.offered
    ensures s.log.received == frames && s.queue == [] && s.closed && s.done && !s.panicked
  {
    ReachedInv(frames, s);
    QuiescentIsIdle(frames, s);
    SentIsPrefix(frames, s);
    if !s.done {
      NextIsStored(frames, s);
    }
  }

  /** At every moment the consumer holds a prefix of the write, and the byte accounts are in bounds. */
  lemma NeverPaused(frames: seq<Chunk>, s: State)
    requires IsWrite(frames) && Reached(frames, s)
    ensures -65535 <= s.buffered <= 101 * 65535 < 16 * 1024 * 1024
    ensures !ShouldPause(s)
    ensures |s.log.received| <= |frames| && s.log.received == frames[..|s.log.received|]
    ensures !s.done && s.nextSeq in s.chunks ==> s.retrying || s.pending > 0 || !s.tryPc.Idle?
  {
    ReachedInv(frames, s);
    BufferedBound(s);
    SentIsPrefix(frames, s);
    assert s.log.received == s.log.sent[..|s.log.received|];
  }

  /** A session that has all its frames can always be driven to the end. */
  lemma CanFinish(frames: seq<Chunk>, s: State) returns (es: seq<Event>)
    requires IsWrite(frames) && Inv(frames, s)
    ensures HonestRun(frames, s, es) && Legal(s, es) && Quiescent(frames, Run(s, es))
    ensures forall i :: 0 <= i < |es| ==> !es[i].Store?
    decreases Work(frames, s)
  {
    if Quiescent(frames, s) {
      es := [];
    } else {
      var e: Event :| Honest(frames, s, e) && !e.Store? && Enabled(s, e);
      InvStep(frames, s, e);
      WorkStep(frames, s, e);
      SentIsPrefix(frames, s);
      var rest := CanFinish(frames, Apply(s, e));
      HonestFirst(frames, s, e, rest);
      es := [e] + rest;
    }
  }

  /** Process calls for the first k frames, one after the other, none of which has tried to send yet. */
  function Stores(frames: seq<Chunk>, k: nat): seq<Event>
    requires k <= |frames| <= U32_SPACE
  {
    if k == 0 then [] else Stores(frames, k - 1) + [Store(k - 1, frames[k - 1], k - 1 == |frames| - 1)]
  }

  lemma OneStore(frames: seq<Chunk>, s: State, k: nat)
    requires IsWrite(frames) && k < |frames| && LockFree(s)
    requires forall n: nat :: n < k ==> n in s.log.offered
    ensures
      var e := Store(k, frames[k], k == |frames| - 1);
      && Enabled(s, e) && Honest(frames, s, e) && LockFree(Apply(s, e))
      && forall n: nat :: n < k + 1 ==> n in Apply(s, e).log.offered
  {
  }

  lemma {:induction false} StoresRun(frames: seq<Chunk>, s: State, k: nat)
    requires IsWrite(frames) && k <= |frames| && LockFree(s)
    ensures HonestRun(frames, s, Stores(frames, k)) && Legal(s, Stores(frames, k))
    ensures
      var t := Run(s, Stores(frames, k));
      LockFree(t) && forall n: nat :: n < k ==> n in t.log.offered
  {
    if k > 0 {
      StoresRun(frames, s, k - 1);
      var before := Stores(frames, k - 1);
      var e := Store(k - 1, frames[k - 1], k - 1 == |frames| - 1);
      OneStore(frames, Run(s, before), k - 1);
      HonestOneMore(frames, s, before, e);
    }
  }

  /** Every write has a run that delivers it; the theorems above are not about nothing. */
  lemma WriteCanArrive(frames: seq<Chunk>, s0: State) returns (es: seq<Event>)
    requires IsWrite(frames) && IsInitial(s0)
    ensures HonestRun(frames, s0, es) && Legal(s0, es) && Quiescent(frames, Run(s0, es))
    ensures Run(s0, es).log.received == frames && forall n: nat :: n < |frames| ==> n in Run(s0, es).log.offered
  {
    InvInitially(frames, s0);
    StoresRun(frames, s0, |frames|);
    var stores := Stores(frames, |frames|);
    InvHolds(frames, s0, stores);
    var rest := CanFinish(frames, Run(s0, stores));
    es := stores + rest;
    HonestConcat(frames, s0, stores, rest);
    RunConcat(s0, stores, rest);
    OfferedStays(Run(s0, stores), rest);
    CompleteDelivery(frames, Run(s0, es));
  }

  lemma {:induction false} OfferedStays(s: State, es: seq<Event>)
    requires Safe(s) && Legal(s, es)
    ensures forall n :: n in s.log.offered ==> n in Run(s, es).log.offered
    decreases |es|
  {
    if es != [] {
      SafeStep(s, es[0]);
      OfferedGrows(s, es[0]);
      OfferedStays(Apply(s, es[0]), es[1..]);
    }
  }

  lemma OfferedGrows(s: State, e: Event)
    requires Safe(s) && Enabled(s, e)
    ensures forall n :: n in s.log.offered ==> n in Apply(s, e).log.offered
  {
    if !Accounts(e) && !e.Store? {
      OnlyStoresAndAccounts(s, e);
    }
  }
}
