/** From Aggregator.Write on one side to the consumer of the session on the other. */
module EndToEnd {
  import opened Bytes
  import opened Framing
  import opened Aggregation
  import opened SessionProtocol
  import opened HonestRuns
  import opened Delivery
  import opened LazyRuns
  import opened RoundRobin
  import Stranded

  /** f was written to some transport after the transports were as in links0. */
  ghost predicate OnSomeLink(links0: seq<seq<seq<byte>>>, links: seq<seq<seq<byte>>>, f: seq<byte>)
    requires |links0| == |links| && forall i :: 0 <= i < |links| ==> |links0[i]| <= |links[i]|
  {
    exists i :: 0 <= i < |links| && f in links[i][|links0[i]|..]
  }

  /** The transports together carry the frames of the write, and nothing else. */
  lemma LinksCarryTheWire(links0: seq<seq<seq<byte>>>, wire: seq<seq<byte>>, c: int, f: seq<byte>)
    requires |links0| > 0 && forall j :: 0 <= j < |wire| ==> 0 <= Slot(c, j, |links0|)
    ensures forall i :: 0 <= i < |links0| ==> |links0[i]| <= |Place(links0, wire, c, |wire|)[i]|
    ensures OnSomeLink(links0, Place(links0, wire, c, |wire|), f) <==> f in wire
  {
    var links := Place(links0, wire, c, |wire|);
    forall i | 0 <= i < |links0|
      ensures |links0[i]| <= |links[i]|
      ensures forall j :: 0 <= j < |wire| && Slot(c, j, |links0|) == i ==> wire[j] in links[i][|links0[i]|..]
      ensures forall g :: g in links[i][|links0[i]|..] ==> g in wire
    {
      PlacedExactly(links0, wire, c, |wire|, i);
    }
    if f in wire {
      var j :| 0 <= j < |wire| && wire[j] == f;
      SlotInRange(c, j, |links0|);
      assert f in links[Slot(c, j, |links0|)][|links0[Slot(c, j, |links0|)]|..];
    }
  }

  /** Process stores the frame f of session sid. */
  predicate StoresFrame(sid: seq<byte>, f: seq<byte>, e: Event) {
    e.Store? && ParseFrame(f) == Frm(sid, e.num, e.chunk, e.fin)
  }

  /** One event of a run fed by the frames of the wire, without removal, with a consumer that keeps up. */
  ghost predicate Fed(sid: seq<byte>, wire: seq<seq<byte>>, s: State, e: Event) {
    match e
    case Store(_, _, _) => exists f :: f in wire && StoresFrame(sid, f, e)
    case _ => Honest([], s, e)
  }

  ghost predicate FedRun(sid: seq<byte>, wire: seq<seq<byte>>, s: State, es: seq<Event>)
    decreases |es|
  {
    es == [] || (Enabled(s, es[0]) && Fed(sid, wire, s, es[0]) && FedRun(sid, wire, Apply(s, es[0]), es[1..]))
  }

  /** What Process reads from the wire is the write the honest runs are about. */
  lemma FedIsHonest(sid: seq<byte>, chunks: seq<seq<byte>>, s: State, e: Event)
    requires |sid| == 16 && 0 < |chunks| <= U32_SPACE
    ensures Fed(sid, Wire(sid, chunks), s, e) <==> Honest(Received(chunks), s, e)
  {
    if e.Store? {
      var wire := Wire(sid, chunks);
      forall i | 0 <= i < |chunks|
        ensures ParseFrame(wire[i]) == Frm(sid, i, Received(chunks)[i], i == |chunks| - 1)
      {
        FrameParses(sid, i, chunks[i], i == |chunks| - 1);
      }
      if e.num < |chunks| && Honest(Received(chunks), s, e) {
        assert StoresFrame(sid, wire[e.num], e);
      }
    }
  }

  lemma {:induction false} FedRunIsHonest(sid: seq<byte>, chunks: seq<seq<byte>>, s: State, es: seq<Event>)
    requires |sid| == 16 && 0 < |chunks| <= U32_SPACE && FedRun(sid, Wire(sid, chunks), s, es)
    ensures HonestRun(Received(chunks), s, es)
    decreases |es|
  {
    if es != [] {
      FedIsHonest(sid, chunks, s, es[0]);
      FedRunIsHonest(sid, chunks, Apply(s, es[0]), es[1..]);
    }
  }

  /** Process has been called with every frame the transports carry beyond links0. */
  ghost predicate AllProcessed(links0: seq<seq<seq<byte>>>, links: seq<seq<seq<byte>>>, s: State)
    requires |links0| == |links|
  {
    forall i, f :: 0 <= i < |links| && |links0[i]| <= |links[i]| && f in links[i][|links0[i]|..] ==>
      ParseFrame(f).Frm? && ParseFrame(f).num in s.log.offered
  }

  lemma FrameOffered(sid: seq<byte>, chunks: seq<seq<byte>>, links0: seq<seq<seq<byte>>>, links: seq<seq<seq<byte>>>,
                     s: State, n: nat)
    requires |sid| == 16 && n < |chunks| <= U32_SPACE && |links0| == |links|
    requires forall i :: 0 <= i < |links| ==> |links0[i]| <= |links[i]|
    requires AllProcessed(links0, links, s) && OnSomeLink(links0, links, Wire(sid, chunks)[n])
    ensures n in s.log.offered
  {
    FrameParses(sid, n, chunks[n], n == |chunks| - 1);
  }

  lemma AllOffered(sid: seq<byte>, chunks: seq<seq<byte>>, links0: seq<seq<seq<byte>>>, c: int, s: State)
    requires |sid| == 16 && |links0| > 0 && |chunks| <= U32_SPACE
    requires forall j :: 0 <= j < |chunks| ==> 0 <= Slot(c, j, |links0|)
    requires AllProcessed(links0, Place(links0, Wire(sid, chunks), c, |chunks|), s)
    ensures forall n: nat :: n < |chunks| ==> n in s.log.offered
  {
    forall n: nat | n < |chunks|
      ensures n in s.log.offered
    {
      LinksCarryTheWire(links0, Wire(sid, chunks), c, Wire(sid, chunks)[n]);
      FrameOffered(sid, chunks, links0, Place(links0, Wire(sid, chunks), c, |chunks|), s, n);
    }
  }

  lemma ChunksArrive(sid: seq<byte>, chunks: seq<seq<byte>>, s0: State, es: seq<Event>, s: State)
    requires |sid| == 16 && 0 < |chunks| <= U32_SPACE
    requires IsInitial(s0) && FedRun(sid, Wire(sid, chunks), s0, es) && Legal(s0, es) && s == Run(s0, es)
    requires forall n: nat :: n < |chunks| ==> n in s.log.offered
    requires Quiescent(Received(chunks), s)
    ensures s.log.received == Received(chunks) && s.closed && s.done && s.queue == [] && !s.panicked
  {
    FedRunIsHonest(sid, chunks, s0, es);
    CompleteDelivery(Received(chunks), s);
  }

  /**
   The whole path. A non-empty write is cut at chunkSize and spread over the transports; Process gets
   each frame from its transport at least once, in any order, under any interleaving; nothing can
   happen any more. Then output is closed and the consumer holds exactly the data, for every size
   SetChunkSize accepts; at the default size it holds the last |data| mod 65536 bytes.
   */
  lemma WriteArrives(sid: seq<byte>, data: seq<byte>, chunkSize: int, chunks: seq<seq<byte>>,
                     links0: seq<seq<seq<byte>>>, c: int, s0: State, es: seq<Event>, s: State)
    requires |sid| == 16 && data != [] && chunkSize > 0
    requires chunks == Split(data, chunkSize) && |chunks| <= U32_SPACE
    requires |links0| > 0 && forall j :: 0 <= j < |chunks| ==> 0 <= Slot(c, j, |links0|)
    requires IsInitial(s0) && FedRun(sid, Wire(sid, chunks), s0, es) && Legal(s0, es) && s == Run(s0, es)
    requires AllProcessed(links0, Place(links0, Wire(sid, chunks), c, |chunks|), s)
    requires Quiescent(Received(chunks), s)
    ensures s.closed && s.done && s.queue == [] && !s.panicked
    ensures chunkSize <= 65535 ==> Flatten(s.log.received) == data
    ensures chunkSize == DEFAULT_CHUNK_SIZE ==> Flatten(s.log.received) == data[|data| - |data| % U16_SPACE..]
  {
    AllOffered(sid, chunks, links0, c, s);
    ChunksArrive(sid, chunks, s0, es, s);
    SplitJoins(data, chunkSize);
    if chunkSize <= 65535 {
      SmallChunksSurvive(data, chunkSize);
    } else if chunkSize == DEFAULT_CHUNK_SIZE {
      DefaultChunkSizeLoses(data, chunkSize);
    }
  }

  lemma {:induction false} HonestRunIsFed(sid: seq<byte>, chunks: seq<seq<byte>>, s: State, es: seq<Event>)
    requires |sid| == 16 && 0 < |chunks| <= U32_SPACE && HonestRun(Received(chunks), s, es)
    ensures FedRun(sid, Wire(sid, chunks), s, es)
    decreases |es|
  {
    if es != [] {
      FedIsHonest(sid, chunks, s, es[0]);
      HonestRunIsFed(sid, chunks, Apply(s, es[0]), es[1..]);
    }
  }

  lemma OfferedIsProcessed(sid: seq<byte>, chunks: seq<seq<byte>>, links0: seq<seq<seq<byte>>>, c: int, s: State)
    requires |sid| == 16 && |links0| > 0 && |chunks| <= U32_SPACE
    requires forall j :: 0 <= j < |chunks| ==> 0 <= Slot(c, j, |links0|)
    requires forall n: nat :: n < |chunks| ==> n in s.log.offered
    ensures AllProcessed(links0, Place(links0, Wire(sid, chunks), c, |chunks|), s)
  {
    var wire := Wire(sid, chunks);
    var links := Place(links0, wire, c, |chunks|);
    forall i, f | 0 <= i < |links| && |links0[i]| <= |links[i]| && f in links[i][|links0[i]|..]
      ensures ParseFrame(f).Frm? && ParseFrame(f).num in s.log.offered
    {
      LinksCarryTheWire(links0, wire, c, f);
      var n :| 0 <= n < |wire| && wire[n] == f;
      WireNumber(sid, chunks, n);
    }
  }

  lemma WireNumber(sid: seq<byte>, chunks: seq<seq<byte>>, n: nat)
    requires |sid| == 16 && n < |chunks| <= U32_SPACE
    ensures ParseFrame(Wire(sid, chunks)[n]).Frm? && ParseFrame(Wire(sid, chunks)[n]).num == n
  {
    FrameParses(sid, n, chunks[n], n == |chunks| - 1);
  }

  /** Whatever was placed on the transports, some run meets every demand WriteArrives makes. */
  lemma WriteCanArrive(sid: seq<byte>, chunks: seq<seq<byte>>, links0: seq<seq<seq<byte>>>, c: int, s0: State)
    returns (es: seq<Event>)
    requires |sid| == 16 && 0 < |chunks| <= U32_SPACE && IsInitial(s0)
    requires |links0| > 0 && forall j :: 0 <= j < |chunks| ==> 0 <= Slot(c, j, |links0|)
    ensures FedRun(sid, Wire(sid, chunks), s0, es) && Legal(s0, es)
    ensures AllProcessed(links0, Place(links0, Wire(sid, chunks), c, |chunks|), Run(s0, es))
    ensures Quiescent(Received(chunks), Run(s0, es))
  {
    es := Delivery.WriteCanArrive(Received(chunks), s0);
    HonestRunIsFed(sid, chunks, s0, es);
    OfferedIsProcessed(sid, chunks, links0, c, Run(s0, es));
  }

  // ------------------------------------------------------------------ consumers that acknowledge late

  /** All chunks but the last are full, so what precedes the last one is known from the length. */
  lemma SplitFront(data: seq<byte>, chunkSize: int)
    requires data != [] && chunkSize > 0
    ensures
      var cs := Split(data, chunkSize);
      |cs| > 0 && SumLen(cs[..|cs| - 1]) == (|data| - 1) / chunkSize * chunkSize
  {
    var cs := Split(data, chunkSize);
    SplitSizes(data, chunkSize);
    var k := |cs| - 1;
    SumLenUniform(cs, chunkSize, k);
    assert (k + 1) * chunkSize == k * chunkSize + chunkSize;
    DivUnique(|data| - 1, chunkSize, k, |data| - 1 - k * chunkSize);
  }

  /**
   A write at an accepted chunk size reaches every consumer, however late it acknowledges, exactly when
   its full chunks before the last one fit the window.
   */
  lemma LateAcksExact(data: seq<byte>, chunkSize: int)
    requires data != [] && 0 < chunkSize <= 65535 && |Split(data, chunkSize)| <= U32_SPACE
    ensures AlwaysDelivered(Received(Split(data, chunkSize))) <==>
      (|data| - 1) / chunkSize * chunkSize <= 16 * 1024 * 1024
  {
    SmallChunksSurvive(data, chunkSize);
    SplitFront(data, chunkSize);
    Stranded.LateAcksExact(Received(Split(data, chunkSize)));
  }
}
