/** Calls of Process with nobody else moving: what the frames of a write leave behind on the channel. */
module Arrivals {
  import opened Bytes
  import opened Framing
  import opened SessionProtocol
  import opened HonestRuns
  import opened Delivery
  import opened SessionBuffers
  import opened Reassembly

  /** Nobody has received anything, and no retry has taken a step. */
  ghost predicate Quiet(s: State) {
    && s.log.received == [] && s.log.acks == 0
    && (s.retryPc.Absent? || (s.retryPc.Top? && |s.queue| == CHANNEL_CAPACITY))
  }

  predicate OwnMove(frames: seq<Chunk>, e: Event) {
    OfWrite(frames, e) && (e.Store? || e.TryEnter? || e.TryStep? || e.TryAccount?)
  }

  lemma QuietStep(s: State, e: Event)
    requires Safe(s) && Quiet(s) && Enabled(s, e)
    requires e.Store? || e.TryEnter? || e.TryStep? || e.TryAccount?
    ensures Quiet(Apply(s, e))
  {
  }

  lemma {:induction false} QuietRun(frames: seq<Chunk>, s: State, es: seq<Event>)
    requires IsWrite(frames) && Inv(frames, s) && Quiet(s) && Legal(s, es)
    requires forall i :: 0 <= i < |es| ==> OwnMove(frames, es[i])
    ensures Inv(frames, Run(s, es)) && Quiet(Run(s, es))
    decreases |es|
  {
    if es != [] {
      InvStep(frames, s, es[0]);
      QuietStep(s, es[0]);
      QuietRun(frames, Apply(s, es[0]), es[1..]);
    }
  }

  /** A session between two calls, when all the calls there were had nobody beside them. */
  ghost predicate Waiting(frames: seq<Chunk>, s: State)
    requires IsWrite(frames)
  {
    Inv(frames, s) && Quiet(s) && s.pending == 0 && LockFree(s) && Drained(s)
  }

  /** The same for whatever write the session has: a method that only hands it on need not look inside. */
  ghost predicate InService(frames: seq<Chunk>, s: State) {
    forall fs: seq<Chunk> | fs == frames && IsWrite(fs) :: Waiting(fs, s)
  }

  lemma WaitingInitially(frames: seq<Chunk>, s: State)
    requires IsWrite(frames) && IsInitial(s)
    ensures InService(frames, s)
  {
    InvInitially(frames, s);
  }

  lemma StoreOffers(s: State, e: Event)
    requires Enabled(s, e) && e.Store?
    ensures e.num in Apply(s, e).log.offered
    ensures s.done ==> Apply(s, e).pending == s.pending && Apply(s, e).done
    ensures !s.done ==> Apply(s, e).pending == s.pending + 1
  {
  }

  /** One call for a frame of the write. */
  lemma OneCall(frames: seq<Chunk>, s: State, k: nat, es: seq<Event>, others: seq<Event>, mine: seq<Event>)
    requires IsWrite(frames) && InService(frames, s) && k < |frames|
    requires IsCall(s, Store(k, frames[k], k == |frames| - 1), es, others, mine, true) && LockFree(Run(s, es))
    ensures InService(frames, Run(s, es)) && k in Run(s, es).log.offered
    ensures forall n :: n in s.log.offered ==> n in Run(s, es).log.offered
  {
    assert Waiting(frames, s);
    var store := Store(k, frames[k], k == |frames| - 1);
    CallMoves(frames, s, store, es, others, mine);
    QuietRun(frames, s, es);
    assert es[0] == store;
    StoreOffers(s, store);
    SafeStep(s, store);
    OfferedStays(s, es);
    OfferedStays(Apply(s, store), es[1..]);
    if s.done {
      assert es[1..] == [];
    } else {
      assert [store] + others == [store];
      RunOne(s, store);
    }
  }

  lemma CallMoves(frames: seq<Chunk>, s: State, store: Event, es: seq<Event>, others: seq<Event>, mine: seq<Event>)
    requires IsCall(s, store, es, others, mine, true) && store.Store? && OfWrite(frames, store)
    ensures |es| > 0 && es[0] == store && forall i :: 0 <= i < |es| ==> OwnMove(frames, es[i])
  {
    if !s.done {
      assert es == [store] + mine;
      forall i | 0 < i < |es|
        ensures OwnMove(frames, es[i])
      {
        assert es[i] == mine[i - 1];
      }
    }
  }

  /** What is on the channel once every frame has had its call: the write, or as much of it as there is room for. */
  lemma WaitingWithAll(frames: seq<Chunk>, s: State)
    requires IsWrite(frames) && InService(frames, s)
    requires forall n: nat :: n < |frames| ==> n in s.log.offered
    ensures s.pending == 0
    ensures s.queue == (if |frames| <= 100 then frames else frames[..100])
    ensures s.closed <==> |frames| <= 100
    ensures s.retrying <==> |frames| > 100
  {
    assert Waiting(frames, s);
    SentIsPrefix(frames, s);
    assert s.log.sent == s.queue;
    if !s.done && !s.retrying {
      BufferedBound(s);
      NextIsStored(frames, s);
    }
  }

  /**
   One call of Process for every frame of a write, in any order and with repetitions, on a reassembler
   that does not know the session, and nobody else moving: no call is left pending, and the chunks are on
   the channel in sequence, up to its 100 slots; the session is closed, or has a retry goroutine.
   */
  method ProcessEach(r: Reassembler, sid: seq<byte>, chunks: seq<seq<byte>>, order: seq<nat>)
    requires r.Valid() && sid !in r.sessions && |sid| == 16 && 0 < |chunks| <= U32_SPACE
    requires forall i :: 0 <= i < |order| ==> order[i] < |chunks|
    requires forall n: nat :: n < |chunks| ==> n in order
    modifies r
    ensures r.Valid() && sid in r.sessions && r.sessions[sid].Valid()
    ensures
      var sb := r.sessions[sid];
      && sb.pending == 0
      && sb.queue == (if |chunks| <= 100 then Received(chunks) else Received(chunks)[..100])
      && (sb.closed <==> |chunks| <= 100) && (sb.retrying <==> |chunks| > 100)
  {
    ghost var frames := Received(chunks);
    assert 0 in order;
    CallFrame(r, sid, chunks, order[0]);
    var i := 1;
    while i < |order|
      invariant 1 <= i <= |order| && r.Valid() && InHand(r, sid, frames)
      invariant fresh(r.sessions[sid]) && fresh(r.sessions[sid].flowCtrl)
      invariant forall j :: 0 <= j < i ==> order[j] in r.sessions[sid].st.log.offered
    {
      CallFrame(r, sid, chunks, order[i]);
      i := i + 1;
    }
    forall n: nat | n < |frames|
      ensures n in r.sessions[sid].st.log.offered
    {
      assert n in order;
    }
    WaitingWithAll(frames, r.sessions[sid].st);
  }

  ghost predicate InHand(r: Reassembler, sid: seq<byte>, frames: seq<Chunk>)
    reads r, r.Parts(sid)
  {
    sid in r.sessions && r.Ready(sid) && InService(frames, r.sessions[sid].st)
  }

  method CallFrame(r: Reassembler, sid: seq<byte>, chunks: seq<seq<byte>>, k: nat)
    requires |sid| == 16 && k < |chunks| <= U32_SPACE && r.Valid()
    requires sid in r.sessions ==> InHand(r, sid, Received(chunks))
    modifies r, r.Parts(sid)
    ensures r.Valid() && InHand(r, sid, Received(chunks)) && k in r.sessions[sid].st.log.offered
    ensures
      if sid in old(r.sessions) then
        && r.sessions[sid] == old(r.sessions)[sid]
        && forall n :: n in old(r.sessions[sid].st.log.offered) ==> n in r.sessions[sid].st.log.offered
      else fresh(r.sessions[sid]) && fresh(r.sessions[sid].flowCtrl)
  {
    ghost var frames := Received(chunks);
    var frame := Wire(sid, chunks)[k];
    FrameParses(sid, k, chunks[k], k == |chunks| - 1);
    var _, s0, es, others, mine := r.Process(frame, true);
    if IsInitial(s0) {
      WaitingInitially(frames, s0);
    }
    OneCall(frames, s0, k, es, others, mine);
  }
}
