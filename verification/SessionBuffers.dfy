/**
 The session buffer as the source keeps it. Each critical section is a method that updates the
 fields step by step and is proved to take the protocol's events; the consumer moves in between.
 */
module SessionBuffers {
  import opened Bytes
  import opened FlowControl
  import opened SessionProtocol

  lemma Extend(s: State, es: seq<Event>, e: Event)
    requires Legal(s, es) && Enabled(Run(s, es), e)
    ensures Legal(s, es + [e]) && Run(s, es + [e]) == Apply(Run(s, es), e)
  {
    RunOne(Run(s, es), e);
    RunConcat(s, es, [e]);
  }

  ghost predicate Reachable(s: State) {
    exists s0: State, es: seq<Event> :: IsInitial(s0) && Legal(s0, es) && s == Run(s0, es)
  }

  /**
   Each method below is one event, or a legal run of them; so whatever is called on a new buffer, in
   whatever order, what the protocol promises of every run holds of the buffer.
   */
  lemma RunsStayReachable(s: State, es: seq<Event>)
    requires Reachable(s) && Legal(s, es)
    ensures Reachable(Run(s, es)) && Safe(Run(s, es)) && InOrder(Run(s, es)) && Balanced(Run(s, es))
  {
    var s0: State, before: seq<Event> :| IsInitial(s0) && Legal(s0, before) && s == Run(s0, before);
    RunConcat(s0, before, es);
    InitiallySafe(s0);
    InvariantsHold(s0, before + es);
  }

  /** Nothing that a call of tryReassemble could send is left, or another has the right to send it. */
  predicate Drained(s: State) {
    s.done || s.retrying || s.nextSeq !in s.chunks || ShouldPause(s)
  }

  /** more is es and then moves of the consumer; none if nobody else moves. */
  ghost predicate OnlyConsumer(es: seq<Event>, more: seq<Event>, alone: bool) {
    && |es| <= |more| && more[..|es|] == es && (alone ==> |more| == |es|)
    && (forall i :: |es| <= i < |more| ==> more[i].Receive? || more[i].Ack?)
  }

  /** The second critical section of one Process call: it enters once, and only the consumer moves beside it. */
  ghost predicate IsSection(es: seq<Event>, alone: bool) {
    && |es| > 0 && es[0].TryEnter?
    && (forall i :: 0 < i < |es| ==>
      es[i].TryStep? || es[i].TryAccount? || (!alone && (es[i].Receive? || es[i].Ack?)))
  }

  lemma SectionGrows(es: seq<Event>, more: seq<Event>, e: Event, alone: bool)
    requires IsSection(es, alone) && OnlyConsumer(es, more, alone) && (e.TryStep? || e.TryAccount?)
    ensures IsSection(more + [e], alone)
  {
    forall i | 0 < i < |more|
      ensures more[i].TryStep? || more[i].TryAccount? || (!alone && (more[i].Receive? || more[i].Ack?))
    {
      assert i < |es| ==> more[i] == more[..|es|][i] == es[i];
    }
  }

  class SessionBuffer {
    var chunks: map<nat, Chunk>
    var nextSeq: nat
    var finSeq: int
    var queue: seq<Chunk>   // the output channel
    var closed: bool
    var done: bool
    var outputClosed: bool
    var retrying: bool
    const flowCtrl: WindowFlowController
    // the goroutines: calls between their two critical sections, the retry goroutine, the session table
    var pending: nat
    var retryPc: RetryPc
    var removed: bool
    /** The protocol state this buffer is in. */
    ghost var st: State

    ghost predicate Valid()
      reads this, flowCtrl
    {
      && Safe(st)
      && chunks == st.chunks && nextSeq == st.nextSeq && finSeq == st.finSeq
      && queue == st.queue && closed == st.closed && done == st.done
      && outputClosed == st.outputClosed && retrying == st.retrying
      && pending == st.pending && retryPc == st.retryPc && removed == st.removed
      && flowCtrl.maxWindow == MAX_WINDOW
      && (st.removed || (flowCtrl.buffered == st.buffered && flowCtrl.consumed == st.consumed))
    }

    constructor ()
      ensures Valid() && IsInitial(st) && fresh(flowCtrl)
    {
      chunks, nextSeq, finSeq, queue := map[], 0, -1, [];
      closed, done, outputClosed, retrying := false, false, false, false;
      flowCtrl := new WindowFlowController(MAX_WINDOW);
      pending, retryPc, removed := 0, Absent, false;
      st := State(
        map[], 0, -1, [], false, false, false, false, 0, 0,
        0, Idle, Absent, false, false, false,
        Log({}, {}, [], [], 0, [], 0, false));
      new;
      InitiallySafe(st);
    }

    /** The event that the statements just executed amount to. */
    ghost method Take(e: Event)
      requires Safe(st) && Enabled(st, e)
      modifies this`st
      ensures st == Apply(old(st), e) && Safe(st)
    {
      SafeStep(st, e);
      st := Apply(st, e);
    }

    /** output <- chunk; sending on a closed channel would panic. */
    method SendOutput(chunk: Chunk)
      requires !closed
      modifies this`queue
      ensures queue == old(queue) + [chunk]
    {
      queue := queue + [chunk];
    }

    /** close(output); closing twice would panic. */
    method CloseOutput()
      requires !closed
      modifies this`closed, this`outputClosed
      ensures closed && outputClosed
    {
      closed := true;
      outputClosed := true;
    }

    // ---------------------------------------------------------------- Process

    method Store(num: nat, chunk: Chunk, fin: bool)
      requires Valid() && Enabled(st, Event.Store(num, chunk, fin))
      modifies this
      ensures Valid() && st == Apply(old(st), Event.Store(num, chunk, fin))
    {
      if !done {
        chunks := chunks[num := chunk];
        if fin {
          finSeq := num;
        }
        pending := pending + 1;
      }
      Take(Event.Store(num, chunk, fin));
    }

    // ---------------------------------------------------------------- tryReassemble

    /** The loop body up to and including the non-blocking send; returns the chunk it sent. */
    method StepTry() returns (sent: Option<Chunk>)
      requires Valid() && st.tryPc.Looping?
      modifies this
      ensures Valid() && st == Apply(old(st), TryStep)
      ensures if sent.Some? then st.tryPc == Sent(nextSeq, sent.value) else st.tryPc.Idle?
      ensures chunks == old(chunks) && pending == old(pending)
      ensures sent.None? ==> Drained(st)
    {
      sent := None;
      var paused := flowCtrl.ShouldPause();
      if !paused && nextSeq in chunks {
        var chunk := chunks[nextSeq];
        if |queue| < CHANNEL_CAPACITY {
          SendOutput(chunk);
          sent := Some(chunk);
        } else {
          retrying, retryPc := true, Top;
        }
      }
      Take(TryStep);
    }

    /** OnBuffered, delete, nextSeq++, and the FIN branch; returns whether FIN ended the session. */
    method Account(num: nat, chunk: Chunk) returns (fin: bool)
      requires !closed && !outputClosed
      modifies this`chunks, this`nextSeq, this`closed, this`outputClosed, this`done, flowCtrl
      ensures flowCtrl.buffered == old(flowCtrl.buffered) + |chunk| && flowCtrl.consumed == old(flowCtrl.consumed)
      ensures chunks == old(chunks) - {num} && nextSeq == (old(nextSeq) + 1) % U32_SPACE
      ensures fin <==> finSeq >= 0 && num == finSeq
      ensures closed == outputClosed == fin && done == (fin || old(done))
    {
      flowCtrl.OnBuffered(|chunk|);
      chunks := chunks - {num};
      nextSeq := (nextSeq + 1) % U32_SPACE;
      fin := finSeq >= 0 && num == finSeq;
      if fin {
        if !outputClosed {
          CloseOutput();
        }
        done := true;
      }
    }

    method AccountTry(chunk: Chunk) returns (more: bool)
      requires Valid() && st.tryPc == Sent(nextSeq, chunk)
      modifies this, flowCtrl
      ensures Valid() && st == Apply(old(st), TryAccount)
      ensures if more then st.tryPc.Looping? else st.tryPc.Idle?
      ensures chunks == old(chunks) - {old(nextSeq)} && pending == old(pending)
    {
      var fin := Account(nextSeq, chunk);
      more := !fin;
      Take(TryAccount);
    }

    /** The consumer moves any number of times, unless the caller is alone; it takes no lock. */
    method ConsumerMoves(alone: bool, ghost s0: State, ghost es: seq<Event>) returns (ghost more: seq<Event>)
      requires Valid() && Legal(s0, es) && st == Run(s0, es)
      modifies this, flowCtrl
      ensures Valid() && Legal(s0, more) && st == Run(s0, more) && OnlyConsumer(es, more, alone)
      ensures st.tryPc == old(st.tryPc) && retryPc == old(retryPc)
      ensures chunks == old(chunks) && nextSeq == old(nextSeq) && pending == old(pending) && removed == old(removed)
    {
      more := es;
      var n: nat := *;
      if alone {
        n := 0;
      }
      while n > 0
        invariant Valid() && Legal(s0, more) && st == Run(s0, more) && OnlyConsumer(es, more, alone)
        invariant st.tryPc == old(st.tryPc) && retryPc == old(retryPc) && (alone ==> n == 0)
        invariant chunks == old(chunks) && nextSeq == old(nextSeq) && pending == old(pending) && removed == old(removed)
      {
        var take: bool := *;
        if take && |queue| > 0 {
          Extend(s0, more, Event.Receive);
          more := more + [Event.Receive];
          var _ := Receive();
        } else if !removed {
          var bytes: int := *;
          Extend(s0, more, Ack(bytes));
          more := more + [Ack(bytes)];
          OnConsumed(bytes);
        }
        n := n - 1;
      }
    }

    /** One pass through tryReassemble's loop; again says that the loop goes on. */
    method Pass(alone: bool, ghost s0: State, ghost es: seq<Event>) returns (again: bool, ghost more: seq<Event>)
      requires Valid() && st.tryPc.Looping? && Legal(s0, es) && st == Run(s0, es) && IsSection(es, alone)
      modifies this, flowCtrl
      ensures Valid() && !st.removed && pending == old(pending) && Legal(s0, more) && st == Run(s0, more)
      ensures IsSection(more, alone)
      ensures if again then st.tryPc.Looping? && chunks.Keys < old(chunks.Keys) else LockFree(st) && Drained(st)
    {
      more := ConsumerMoves(alone, s0, es);
      SectionGrows(es, more, TryStep, alone);
      Extend(s0, more, TryStep);
      ghost var sofar := more + [TryStep];
      more := sofar;
      var sent := StepTry();
      if sent.None? {
        return false, more;
      }
      more := ConsumerMoves(alone, s0, sofar);
      SectionGrows(sofar, more, TryAccount, alone);
      Extend(s0, more, TryAccount);
      more := more + [TryAccount];
      assert nextSeq in chunks;
      again := AccountTry(sent.value);
    }

    /**
     The whole of tryReassemble, with the consumer moving wherever it can: a run of the protocol from
     the call to the release of the lock, which leaves nothing behind that could be sent. On a session
     that is done, removed or not, it returns at once.
     */
    method TryReassemble(alone: bool) returns (ghost es: seq<Event>)
      requires Valid() && LockFree(st) && pending > 0
      modifies this, flowCtrl
      ensures Valid() && LockFree(st) && removed == old(removed) && pending == old(pending) - 1
      ensures Legal(old(st), es) && st == Run(old(st), es) && IsSection(es, alone) && Drained(st)
      ensures old(done) ==> es == [TryEnter]
    {
      ghost var s0 := st;
      RunOne(st, TryEnter);
      es := [TryEnter];
      pending := pending - 1;
      Take(TryEnter);
      var again := !done && !retrying;
      while again
        invariant Valid() && removed == old(removed) && pending == old(pending) - 1
        invariant Legal(s0, es) && st == Run(s0, es) && (old(done) ==> es == [TryEnter]) && IsSection(es, alone)
        invariant if again then st.tryPc.Looping? else LockFree(st) && Drained(st)
        decreases again, chunks.Keys
      {
        again, es := Pass(alone, s0, es);
      }
    }

    // ---------------------------------------------------------------- retryReassemble

    /** retryExit: give the sending right back, and close output if done is closed. */
    method GiveUpRetry()
      requires !done ==> !outputClosed
      requires closed == outputClosed
      modifies this`retrying, this`retryPc, this`closed, this`outputClosed
      ensures !retrying && retryPc == Absent && outputClosed == (old(outputClosed) || done) && closed == outputClosed
    {
      retrying, retryPc := false, Absent;
      if !outputClosed {
        if done {
          CloseOutput();
        }
      }
    }

    /** The locked half of the loop body; returns the chunk it sent inside the lock. */
    method RetryLocked() returns (sent: Option<Chunk>)
      requires Valid() && Enabled(st, Event.RetryLocked)
      modifies this
      ensures Valid() && st == Apply(old(st), Event.RetryLocked)
      ensures sent.Some? <==> st.retryPc.LockedSent?
      ensures sent.Some? ==> st.retryPc == LockedSent(nextSeq, sent.value)
    {
      sent := None;
      if done {
        GiveUpRetry();
      } else if nextSeq !in chunks {
        GiveUpRetry();
      } else {
        var chunk := chunks[nextSeq];
        if |queue| < CHANNEL_CAPACITY {
          SendOutput(chunk);
          sent := Some(chunk);
          retryPc := LockedSent(nextSeq, chunk);
        } else {
          retryPc := Blocked(nextSeq, chunk);
        }
      }
      Take(Event.RetryLocked);
    }

    /** The retry goroutine's accounting; after FIN it returns, giving the sending right back. */
    method AccountRetry(num: nat, chunk: Chunk)
      requires !closed && !outputClosed
      modifies this`chunks, this`nextSeq, this`closed, this`outputClosed, this`done, this`retrying,
        this`retryPc, flowCtrl
      ensures flowCtrl.buffered == old(flowCtrl.buffered) + |chunk| && flowCtrl.consumed == old(flowCtrl.consumed)
      ensures chunks == old(chunks) - {num} && nextSeq == (old(nextSeq) + 1) % U32_SPACE
      ensures
        var fin := finSeq >= 0 && num == finSeq;
        closed == outputClosed == fin && done == (fin || old(done)) && retrying == (!fin && old(retrying))
        && retryPc == if fin then Absent else Top
    {
      var fin := Account(num, chunk);
      retryPc := Top;
      if fin {
        retrying, retryPc := false, Absent;
      }
    }

    /** The accounting after a send, inside the lock. */
    method RetryAccount(num: nat, chunk: Chunk)
      requires Valid() && st.retryPc == LockedSent(num, chunk)
      modifies this, flowCtrl
      ensures Valid() && st == Apply(old(st), Event.RetryAccount) && LockFree(st)
    {
      AccountRetry(num, chunk);
      Take(Event.RetryAccount);
    }

    /** The blocking send outside the lock goes through. */
    method RetrySend(num: nat, chunk: Chunk)
      requires Valid() && st.retryPc == Blocked(num, chunk) && |queue| < CHANNEL_CAPACITY
      modifies this
      ensures Valid() && st == Apply(old(st), Event.RetrySend)
    {
      SendOutput(chunk);
      retryPc := UnlockedSent(num, chunk);
      Take(Event.RetrySend);
    }

    /** The other branch of that select: done is closed. */
    method RetryAbort()
      requires Valid() && st.retryPc.Blocked? && done
      modifies this`st, this`retryPc
      ensures Valid() && st == Apply(old(st), Event.RetryAbort)
    {
      retryPc := Exiting;
      Take(Event.RetryAbort);
    }

    method RetryExit()
      requires Valid() && Enabled(st, Event.RetryExit)
      modifies this
      ensures Valid() && st == Apply(old(st), Event.RetryExit)
    {
      GiveUpRetry();
      Take(Event.RetryExit);
    }

    method AccountUnlocked(num: nat, chunk: Chunk)
      requires Valid() && LockFree(st) && st.retryPc == UnlockedSent(num, chunk) && !done
      modifies this, flowCtrl
      ensures Valid() && st == Apply(old(st), Event.RetryAfterSend)
    {
      AccountRetry(num, chunk);
      Take(Event.RetryAfterSend);
    }

    /** The lock is taken again after the blocking send. */
    method RetryAfterSend(num: nat, chunk: Chunk)
      requires Valid() && LockFree(st) && st.retryPc == UnlockedSent(num, chunk)
      modifies this, flowCtrl
      ensures Valid() && st == Apply(old(st), Event.RetryAfterSend)
    {
      if done {
        GiveUpRetry();
        Take(Event.RetryAfterSend);
      } else {
        AccountUnlocked(num, chunk);
      }
    }

    /** One whole critical section of the retry goroutine, or its step outside the lock. */
    method RetryMoves(ghost s0: State, ghost es: seq<Event>) returns (ghost more: seq<Event>)
      requires Valid() && LockFree(st) && !retryPc.Absent? && Legal(s0, es) && st == Run(s0, es)
      modifies this, flowCtrl
      ensures Valid() && LockFree(st) && pending == old(pending) && Legal(s0, more) && st == Run(s0, more)
    {
      more := es;
      match retryPc {
        case Top =>
          more := RetryTurn(s0, es);
        case Blocked(num, chunk) =>
          var send: bool := *;
          if |queue| < CHANNEL_CAPACITY && (send || !done) {
            Extend(s0, es, Event.RetrySend);
            more := es + [Event.RetrySend];
            RetrySend(num, chunk);
          } else if done {
            Extend(s0, es, Event.RetryAbort);
            more := es + [Event.RetryAbort];
            RetryAbort();
          }
        case UnlockedSent(num, chunk) =>
          Extend(s0, es, Event.RetryAfterSend);
          more := es + [Event.RetryAfterSend];
          RetryAfterSend(num, chunk);
        case Exiting =>
          Extend(s0, es, Event.RetryExit);
          more := es + [Event.RetryExit];
          RetryExit();
      }
    }

    /** From the lock at the top of the loop to its release, with the consumer moving in between. */
    method RetryTurn(ghost s0: State, ghost es: seq<Event>) returns (ghost more: seq<Event>)
      requires Valid() && LockFree(st) && retryPc.Top? && Legal(s0, es) && st == Run(s0, es)
      modifies this, flowCtrl
      ensures Valid() && LockFree(st) && pending == old(pending) && Legal(s0, more) && st == Run(s0, more)
    {
      Extend(s0, es, Event.RetryLocked);
      more := es + [Event.RetryLocked];
      var sent := RetryLocked();
      if sent.Some? {
        more := ConsumerMoves(false, s0, more);
        Extend(s0, more, Event.RetryAccount);
        more := more + [Event.RetryAccount];
        RetryAccount(retryPc.num, retryPc.chunk);
      }
    }

    /**
     What may happen while a call does not hold the lock: other calls store and reassemble, the retry
     goroutine and the consumer move, the session is removed; each any number of times. The last mine
     of the pending calls are the caller's own, and stay where they are.
     */
    method OthersMove(mine: nat, ghost s0: State, ghost es: seq<Event>) returns (ghost more: seq<Event>)
      requires Valid() && LockFree(st) && pending >= mine && Legal(s0, es) && st == Run(s0, es)
      modifies this, flowCtrl
      ensures Valid() && LockFree(st) && pending >= mine && Legal(s0, more) && st == Run(s0, more)
    {
      more := es;
      var n: nat := *;
      while n > 0
        invariant Valid() && LockFree(st) && pending >= mine && Legal(s0, more) && st == Run(s0, more)
      {
        more := OneOther(mine, s0, more);
        n := n - 1;
      }
    }

    method OneOther(mine: nat, ghost s0: State, ghost es: seq<Event>) returns (ghost more: seq<Event>)
      requires Valid() && LockFree(st) && pending >= mine && Legal(s0, es) && st == Run(s0, es)
      modifies this, flowCtrl
      ensures Valid() && LockFree(st) && pending >= mine && Legal(s0, more) && st == Run(s0, more)
    {
      more := es;
      var choice: nat := *;
      if choice == 0 {
        var num: nat, chunk: Chunk, fin: bool := *, *, *;
        if num < U32_SPACE {
          Extend(s0, es, Event.Store(num, chunk, fin));
          more := es + [Event.Store(num, chunk, fin)];
          Store(num, chunk, fin);
        }
      } else if choice == 1 && pending > mine {
        ghost var turn := TryReassemble(false);
        RunConcat(s0, es, turn);
        more := es + turn;
      } else if choice == 2 && !retryPc.Absent? {
        more := RetryMoves(s0, es);
      } else if choice == 3 && !removed {
        Extend(s0, es, Event.Remove);
        more := es + [Event.Remove];
        Remove();
      } else {
        more := ConsumerMoves(false, s0, es);
      }
    }

    // ---------------------------------------------------------------- the rest

    method Remove()
      requires Valid() && Enabled(st, Event.Remove)
      modifies this
      ensures Valid() && st == Apply(old(st), Event.Remove)
      ensures done && (outputClosed || retrying)
    {
      done, removed := true, true;
      if !retrying && !outputClosed {
        assert !closed;
        closed, outputClosed := true, true;
      }
      Take(Event.Remove);
    }

    method Receive() returns (chunk: Chunk)
      requires Valid() && |queue| > 0
      modifies this
      ensures Valid() && st == Apply(old(st), Event.Receive)
      ensures chunk == old(queue)[0]
      ensures chunks == old(chunks) && nextSeq == old(nextSeq) && pending == old(pending) && removed == old(removed)
      ensures st.tryPc == old(st.tryPc) && retryPc == old(retryPc)
    {
      chunk := queue[0];
      queue := queue[1..];
      Take(Event.Receive);
    }

    method OnConsumed(n: int)
      requires Valid() && !st.removed
      modifies this`st, flowCtrl
      ensures Valid() && st == Apply(old(st), Ack(n))
    {
      flowCtrl.OnConsumed(n);
      Take(Ack(n));
    }
  }
}
