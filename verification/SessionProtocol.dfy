/**
 The reassembly protocol of one session as a state machine.

 One event is the part of a critical section that other goroutines see at once. The consumer
 takes no lock, so it may move between any two events, also while the lock is held; a section is
 therefore cut in two between the channel send and the accounting that follows it.
 */
module SessionProtocol {
  import opened Bytes

  const CHANNEL_CAPACITY: int := 100
  const MAX_WINDOW: int := 16 * 1024 * 1024

  /** Where a call of tryReassemble is, once it holds the lock. */
  datatype TryPc = Idle | Looping | Sent(num: nat, chunk: Chunk)

  /** Where the retry goroutine is. */
  datatype RetryPc =
    | Absent
    | Top                                       // about to take the lock
    | LockedSent(num: nat, chunk: Chunk)        // sent inside the lock, not yet accounted
    | Blocked(num: nat, chunk: Chunk)           // in the select outside the lock
    | UnlockedSent(num: nat, chunk: Chunk)      // sent outside the lock, not yet accounted
    | Exiting                                   // saw done outside the lock

  datatype State = State(
    // SessionBuffer
    chunks: map<nat, Chunk>,
    nextSeq: nat,
    finSeq: int,
    queue: seq<Chunk>,
    closed: bool,
    done: bool,
    outputClosed: bool,
    retrying: bool,
    // flow controller
    buffered: int,
    consumed: int,
    // goroutines
    pending: nat,          // Process calls that stored and have not yet entered tryReassemble
    tryPc: TryPc,
    retryPc: RetryPc,
    removed: bool,
    // what Go would have punished with a panic, and a second live retry goroutine
    panicked: bool,
    spawnedTwice: bool,
    log: Log)

  /** What has happened so far; no step reads it. */
  datatype Log = Log(
    offered: set<nat>,     // sequence numbers some Process call brought, dropped or not
    stored: set<(nat, Chunk)>,
    sent: seq<Chunk>,
    sentNums: seq<nat>,
    accounted: nat,
    received: seq<Chunk>,
    acks: nat,
    gaveUp: bool)          // a retry saw done after its send and left the chunk unaccounted

  /** A SessionBuffer that Process has just created. */
  predicate IsInitial(s: State) {
    && s.chunks == map[] && s.nextSeq == 0 && s.finSeq == -1
    && s.queue == [] && !s.closed && !s.done && !s.outputClosed && !s.retrying
    && s.buffered == 0 && s.consumed == 0
    && s.pending == 0 && s.tryPc.Idle? && s.retryPc.Absent? && !s.removed
    && !s.panicked && !s.spawnedTwice
    && s.log == Log({}, {}, [], [], 0, [], 0, false)
  }

  datatype Event =
    | Store(num: nat, chunk: Chunk, fin: bool)
    | TryEnter
    | TryStep
    | TryAccount
    | RetryLocked
    | RetryAccount
    | RetrySend
    | RetryAbort
    | RetryExit
    | RetryAfterSend
    | Remove
    | Receive
    | Ack(n: int)

  predicate LockFree(s: State) {
    s.tryPc.Idle? && !s.retryPc.LockedSent?
  }

  /** A send is ready when there is room, or when the channel is closed (and then panics). */
  predicate SendReady(s: State) {
    |s.queue| < CHANNEL_CAPACITY || s.closed
  }

  predicate ShouldPause(s: State) {
    s.buffered > MAX_WINDOW
  }

  predicate Enabled(s: State, e: Event) {
    match e
    case Store(num, _, _) => LockFree(s) && num < U32_SPACE
    case TryEnter => LockFree(s) && s.pending > 0
    case TryStep => s.tryPc.Looping?
    case TryAccount => s.tryPc.Sent?
    case RetryLocked => LockFree(s) && s.retryPc.Top?
    case RetryAccount => s.retryPc.LockedSent?
    case RetrySend => s.retryPc.Blocked? && SendReady(s)
    case RetryAbort => s.retryPc.Blocked? && s.done
    case RetryExit => LockFree(s) && s.retryPc.Exiting?
    case RetryAfterSend => LockFree(s) && s.retryPc.UnlockedSent?
    case Remove => LockFree(s) && !s.removed
    case Receive => |s.queue| > 0
    case Ack(_) => true
  }

  function Send(s: State, num: nat, chunk: Chunk): State {
    s.(panicked := s.panicked || s.closed,
    queue := s.queue + [chunk],
    log := s.log.(sent := s.log.sent + [chunk], sentNums := s.log.sentNums + [num]))
  }

  function CloseOutput(s: State): State {
    if s.outputClosed then s
    else s.(panicked := s.panicked || s.closed, closed := true, outputClosed := true)
  }

  /** OnBuffered, delete, nextSeq++ (a uint32). */
  function Account(s: State, num: nat, chunk: Chunk): State {
    s.(buffered := s.buffered + |chunk|,
    chunks := s.chunks - {num},
    nextSeq := (s.nextSeq + 1) % U32_SPACE,
    log := s.log.(accounted := s.log.accounted + 1))
  }

  predicate IsFin(s: State, num: nat) {
    s.finSeq >= 0 && num == s.finSeq
  }

  function RetryGone(s: State): State {
    var s' := s.(retrying := false, retryPc := Absent);
    if s'.done then CloseOutput(s') else s'
  }

  function GiveUp(s: State): State {
    RetryGone(s.(log := s.log.(gaveUp := true)))
  }

  function AfterRetrySend(s: State, num: nat, chunk: Chunk): State {
    var s' := Account(s, num, chunk);
    if IsFin(s', num) then CloseOutput(s').(done := true, retrying := false, retryPc := Absent)
    else s'.(retryPc := Top)
  }

  function StoreFrame(s: State, num: nat, chunk: Chunk, fin: bool): State {
    var s' := s.(log := s.log.(offered := s.log.offered + {num}));
    if s.done then s'
    else s'.(chunks := s.chunks[num := chunk], log := s'.log.(stored := s.log.stored + {(num, chunk)}),
             finSeq := if fin then num else s.finSeq, pending := s.pending + 1)
  }

  function EnterTry(s: State): State
    requires s.pending > 0
  {
    var s' := s.(pending := s.pending - 1);
    if s.done || s.retrying then s' else s'.(tryPc := Looping)
  }

  /** The rest of one pass through the loop once chunk nextSeq is there. */
  function SendOrHandOver(s: State, num: nat, chunk: Chunk): State {
    if SendReady(s) then
      Send(s, num, chunk).(tryPc := Sent(num, chunk))
    else
      s.(tryPc := Idle, retrying := true, retryPc := Top,
      spawnedTwice := s.spawnedTwice || !s.retryPc.Absent?)
  }

  function StepTry(s: State): State {
    if ShouldPause(s) || s.nextSeq !in s.chunks then s.(tryPc := Idle)
    else SendOrHandOver(s, s.nextSeq, s.chunks[s.nextSeq])
  }

  function AccountTry(s: State, num: nat, chunk: Chunk): State {
    var s' := Account(s, num, chunk);
    if IsFin(s', num) then CloseOutput(s').(done := true, tryPc := Idle)
    else s'.(tryPc := Looping)
  }

  function SendOrBlock(s: State, num: nat, chunk: Chunk): State {
    if SendReady(s) then Send(s, num, chunk).(retryPc := LockedSent(num, chunk))
    else s.(retryPc := Blocked(num, chunk))
  }

  function StepRetry(s: State): State {
    if s.done || s.nextSeq !in s.chunks then RetryGone(s)
    else SendOrBlock(s, s.nextSeq, s.chunks[s.nextSeq])
  }

  function RemoveSession(s: State): State {
    var s' := s.(removed := true, done := true);
    if s.retrying then s' else CloseOutput(s')
  }

  function Acknowledge(s: State, n: int): State {
    var s' := s.(log := s.log.(acks := s.log.acks + 1));
    if s.removed then s' else s'.(consumed := s.consumed + n, buffered := s.buffered - n)
  }

  function Apply(s: State, e: Event): State
    requires Enabled(s, e)
  {
    match e
    case Store(num, chunk, fin) => StoreFrame(s, num, chunk, fin)
    case TryEnter => EnterTry(s)
    case TryStep => StepTry(s)
    case TryAccount => AccountTry(s, s.tryPc.num, s.tryPc.chunk)
    case RetryLocked => StepRetry(s)
    case RetryAccount => AfterRetrySend(s, s.retryPc.num, s.retryPc.chunk)
    case RetrySend =>
      Send(s, s.retryPc.num, s.retryPc.chunk).(retryPc := UnlockedSent(s.retryPc.num, s.retryPc.chunk))
    case RetryAbort => s.(retryPc := Exiting)
    case RetryExit => RetryGone(s)
    case RetryAfterSend =>
      if s.done then GiveUp(s) else AfterRetrySend(s, s.retryPc.num, s.retryPc.chunk)
    case Remove => RemoveSession(s)
    case Receive =>
      s.(queue := s.queue[1..], log := s.log.(received := s.log.received + [s.queue[0]]))
    case Ack(n) => Acknowledge(s, n)
  }

  // ------------------------------------------------------------------ runs

  ghost predicate Legal(s: State, es: seq<Event>)
    decreases |es|
  {
    es == [] || (Enabled(s, es[0]) && Legal(Apply(s, es[0]), es[1..]))
  }

  ghost function Run(s: State, es: seq<Event>): State
    requires Legal(s, es)
    decreases |es|
  {
    if es == [] then s else Run(Apply(s, es[0]), es[1..])
  }

  lemma {:induction false} RunConcat(s: State, a: seq<Event>, b: seq<Event>)
    requires Legal(s, a) && Legal(Run(s, a), b)
    ensures Legal(s, a + b) && Run(s, a + b) == Run(Run(s, a), b)
    decreases |a|
  {
    if a == [] {
      assert a + b == b;
    } else {
      RunConcat(Apply(s, a[0]), a[1..], b);
      assert (a + b)[1..] == a[1..] + b;
    }
  }

  lemma RunOne(s: State, e: Event)
    requires Enabled(s, e)
    ensures Legal(s, [e]) && Run(s, [e]) == Apply(s, e)
  {
    assert [e][1..] == [];
  }

  // ------------------------------------------------------------------ safety over all runs

  /** Channel safety and ownership of the sending right, at every event boundary. */
  ghost predicate Safe(s: State) {
    && !s.panicked && !s.spawnedTwice && (s.removed ==> s.done)
    && s.closed == s.outputClosed
    && (s.outputClosed ==> s.done && !s.retrying)
    && (s.done ==> s.outputClosed || s.retrying)
    && (s.retrying <==> !s.retryPc.Absent?)
    && (!s.tryPc.Idle? ==> !s.done && !s.retrying)
    && (s.retryPc.LockedSent? ==> !s.done)
    && (s.retryPc.Exiting? ==> s.done)
    && |s.queue| <= CHANNEL_CAPACITY
  }

  predicate Unaccounted(s: State) {
    s.tryPc.Sent? || s.retryPc.LockedSent? || s.retryPc.UnlockedSent?
  }

  /** The number sent but not accounted: one in flight, or one given up by a retry that saw done. */
  function Lag(s: State): int {
    |s.log.sent| - s.log.accounted
  }

  ghost predicate InFlight(s: State, num: nat, chunk: Chunk) {
    num == s.nextSeq && Lag(s) == 1 && s.log.sent[s.log.accounted] == chunk
  }

  /** What was ever sent is 0, 1, 2, ... in order, each once, and is what some Process call stored. */
  ghost predicate Numbered(log: Log) {
    && |log.sentNums| == |log.sent|
    && (forall i :: 0 <= i < |log.sent| ==>
      log.sentNums[i] == i % U32_SPACE && (log.sentNums[i], log.sent[i]) in log.stored)
  }

  ghost predicate Logged(s: State) {
    Numbered(s.log) && s.log.sent == s.log.received + s.queue
  }

  /** nextSeq trails the number of chunks sent by the one that is not accounted, if there is one. */
  ghost predicate Positioned(s: State) {
    && s.nextSeq == s.log.accounted % U32_SPACE
    && 0 <= Lag(s) <= 1
    && (Lag(s) == 1 <==> Unaccounted(s) || s.log.gaveUp)
    && (s.log.gaveUp ==> s.done && s.retryPc.Absent?)
    && (s.tryPc.Sent? ==> InFlight(s, s.tryPc.num, s.tryPc.chunk))
    && (s.retryPc.LockedSent? || s.retryPc.UnlockedSent? ==> InFlight(s, s.retryPc.num, s.retryPc.chunk))
  }

  ghost predicate Sourced(s: State) {
    && (s.retryPc.Blocked? ==> s.retryPc.num == s.nextSeq && (s.nextSeq, s.retryPc.chunk) in s.log.stored)
    && (forall k :: k in s.chunks ==> (k, s.chunks[k]) in s.log.stored)
  }

  ghost predicate InOrder(s: State) {
    Logged(s) && Positioned(s) && Sourced(s)
  }

  /** Every accounted byte is either consumed or buffered. */
  ghost predicate Balanced(s: State) {
    0 <= s.log.accounted <= |s.log.sent| && s.buffered + s.consumed == SumLen(s.log.sent[..s.log.accounted])
  }

  lemma SafeStep(s: State, e: Event)
    requires Safe(s) && Enabled(s, e)
    ensures Safe(Apply(s, e))
  {
  }

  lemma SendKeepsLog(s: State, num: nat, chunk: Chunk)
    requires Logged(s) && num == |s.log.sent| % U32_SPACE && (num, chunk) in s.log.stored
    ensures Logged(Send(s, num, chunk))
  {
  }

  lemma InOrderSend(s: State, e: Event)
    requires Safe(s) && InOrder(s) && Enabled(s, e)
    requires e.TryStep? || e.RetryLocked?
    ensures InOrder(Apply(s, e))
  {
    if s.nextSeq in s.chunks && Lag(s) == 0 {
      SendKeepsLog(s, s.nextSeq, s.chunks[s.nextSeq]);
    }
  }

  lemma InOrderTryAccount(s: State, e: Event)
    requires Safe(s) && InOrder(s) && Enabled(s, e) && e.TryAccount?
    ensures InOrder(Apply(s, e))
  {
  }

  lemma InOrderRetryAccount(s: State, e: Event)
    requires Safe(s) && InOrder(s) && Enabled(s, e) && e.RetryAccount?
    ensures InOrder(Apply(s, e))
  {
  }

  lemma InOrderRetry(s: State, e: Event)
    requires Safe(s) && InOrder(s) && Enabled(s, e)
    requires e.RetrySend? || e.RetryAbort? || e.RetryExit?
    ensures InOrder(Apply(s, e))
  {
    if e.RetrySend? {
      SendKeepsLog(s, s.retryPc.num, s.retryPc.chunk);
    }
  }

  lemma InOrderAfterSend(s: State, e: Event)
    requires Safe(s) && InOrder(s) && Enabled(s, e) && e.RetryAfterSend?
    ensures InOrder(Apply(s, e))
  {
  }

  lemma InOrderOther(s: State, e: Event)
    requires Safe(s) && InOrder(s) && Enabled(s, e)
    requires e.Store? || e.TryEnter? || e.Remove? || e.Receive? || e.Ack?
    ensures InOrder(Apply(s, e))
  {
    if e.Receive? {
      assert s.log.sent == Apply(s, e).log.received + Apply(s, e).queue;
    }
  }

  lemma InOrderStep(s: State, e: Event)
    requires Safe(s) && InOrder(s) && Enabled(s, e)
    ensures InOrder(Apply(s, e))
  {
    match e {
      case TryStep | RetryLocked => InOrderSend(s, e);
      case TryAccount => InOrderTryAccount(s, e);
      case RetryAccount => InOrderRetryAccount(s, e);
      case RetrySend | RetryAbort | RetryExit => InOrderRetry(s, e);
      case RetryAfterSend => InOrderAfterSend(s, e);
      case Store(_, _, _) | TryEnter | Remove | Receive | Ack(_) => InOrderOther(s, e);
    }
  }

  predicate Accounts(e: Event) {
    e.TryAccount? || e.RetryAccount? || e.RetryAfterSend?
  }

  lemma BalancedStep(s: State, e: Event)
    requires Safe(s) && Positioned(s) && Balanced(s) && Enabled(s, e)
    ensures Balanced(Apply(s, e))
  {
    var s' := Apply(s, e);
    if s'.log.accounted == s.log.accounted {
      assert s'.log.sent[..s.log.accounted] == s.log.sent[..s.log.accounted];
    } else {
      assert s'.log.sent == s.log.sent;
      assert s.log.sent[..s'.log.accounted][..s.log.accounted] == s.log.sent[..s.log.accounted];
    }
  }

  lemma InitiallySafe(s: State)
    requires IsInitial(s)
    ensures Safe(s) && InOrder(s) && Balanced(s)
  {
  }

  lemma {:induction false} InvariantsHold(s: State, es: seq<Event>)
    requires Safe(s) && InOrder(s) && Balanced(s) && Legal(s, es)
    ensures Safe(Run(s, es)) && InOrder(Run(s, es)) && Balanced(Run(s, es))
    decreases |es|
  {
    if es != [] {
      SafeStep(s, es[0]);
      InOrderStep(s, es[0]);
      BalancedStep(s, es[0]);
      InvariantsHold(Apply(s, es[0]), es[1..]);
    }
  }
}
