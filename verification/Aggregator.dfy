/** Aggregator.Write: cutting a write into frames and placing them round-robin on the transports. */
module Aggregation {
  import opened Bytes
  import opened Framing
  import opened RoundRobin
  import opened Streams

  const I32_LIMIT: int := 0x8000_0000

  /** int32 addition. */
  function Wrap32(x: int): (r: int)
    ensures -I32_LIMIT <= r < I32_LIMIT
  {
    (x + I32_LIMIT) % (2 * I32_LIMIT) - I32_LIMIT
  }

  lemma WrapStep(x: int)
    ensures Wrap32(Wrap32(x) + 1) == Wrap32(x + 1)
  {
  }

  lemma U32Step(num: int, k: int)
    requires num == k % U32_SPACE
    ensures (num + 1) % U32_SPACE == (k + 1) % U32_SPACE
  {
  }

  /** Go's %, which truncates towards zero. */
  function GoMod(x: int, n: int): int
    requires n > 0
  {
    if x >= 0 then x % n else -((-x) % n)
  }

  /** The transport the k-th frame of a write goes to when the counter stood at c before it. */
  function Slot(c: int, k: nat, n: int): int
    requires n > 0
  {
    GoMod(Wrap32(c + 1 + k), n)
  }

  datatype WriteResult = Written | NoTransports | LinkFailed(slot: int) | IndexPanic(slot: int)

  /** The transports after the first k frames have been written. */
  function Place(links: seq<seq<seq<byte>>>, frames: seq<seq<byte>>, c: int, k: nat): (r: seq<seq<seq<byte>>>)
    requires |links| > 0 && k <= |frames|
    requires forall j :: 0 <= j < k ==> 0 <= Slot(c, j, |links|)
    ensures |r| == |links|
  {
    if k == 0 then links
    else
      var before := Place(links, frames, c, k - 1);
      var i := Slot(c, k - 1, |links|);
      before[i := before[i] + [frames[k - 1]]]
  }

  /** The first k frames, and no others, have reached their transports, and none was refused. */
  ghost predicate Placed(links: seq<seq<seq<byte>>>, links0: seq<seq<seq<byte>>>, frames: seq<seq<byte>>, c: int,
                         k: nat, fails: nat -> bool)
  {
    && |links0| > 0 && k <= |frames|
    && (forall j :: 0 <= j < k ==> 0 <= Slot(c, j, |links0|) && !fails(j))
    && links == Place(links0, frames, c, k)
  }

  /** How a write ends: which frames were placed, why the next one was not, and where the counter is. */
  ghost predicate Ended(r: WriteResult, links: seq<seq<seq<byte>>>, links0: seq<seq<seq<byte>>>, frames: seq<seq<byte>>,
                        c: int, k: nat, nextConn: int, fails: nat -> bool)
  {
    && Placed(links, links0, frames, c, k, fails)
    && (r.Written? <==> k == |frames|)
    && (r.IndexPanic? ==> r.slot == Slot(c, k, |links0|) < 0)
    && (r.LinkFailed? ==> r.slot == Slot(c, k, |links0|) >= 0 && fails(k))
    && nextConn == Wrap32(c + k + if r.Written? then 0 else 1)
  }

  class Aggregator {
    /** What has been written to each transport. */
    var links: seq<seq<seq<byte>>>
    var nextConn: int
    var chunkSize: int

    ghost predicate Valid()
      reads this
    {
      -I32_LIMIT <= nextConn < I32_LIMIT && (0 < chunkSize <= 65535 || chunkSize == DEFAULT_CHUNK_SIZE)
    }

    constructor (transports: nat)
      ensures Valid() && |links| == transports && nextConn == 0 && chunkSize == DEFAULT_CHUNK_SIZE
      ensures forall i :: 0 <= i < |links| ==> links[i] == []
    {
      links := seq(transports, _ => []);
      nextConn := 0;
      chunkSize := DEFAULT_CHUNK_SIZE;
    }

    method SetChunkSize(size: int)
      requires Valid()
      modifies this`chunkSize
      ensures Valid()
      ensures chunkSize == if 0 < size <= 65535 then size else old(chunkSize)
    {
      if size > 0 && size <= 65535 {
        chunkSize := size;
      }
    }

    /** One conn.Write: nextConn.Add(1) % int32(len(transports)), then the transport's answer. */
    method Emit(frame: seq<byte>, refused: bool, ghost c: int, ghost k: nat) returns (r: WriteResult)
      requires |links| > 0 && nextConn == Wrap32(c + k)
      modifies this`links, this`nextConn
      ensures nextConn == Wrap32(c + k + 1)
      ensures
        var slot := Slot(c, k, |old(links)|);
        r == if slot < 0 then IndexPanic(slot) else if refused then LinkFailed(slot) else Written
      ensures
        var slot := Slot(c, k, |old(links)|);
        links == if r.Written? then old(links)[slot := old(links)[slot] + [frame]] else old(links)
    {
      WrapStep(c + k);
      nextConn := Wrap32(nextConn + 1);
      var slot := GoMod(nextConn, |links|);
      if slot < 0 {
        return IndexPanic(slot);
      }
      if refused {
        return LinkFailed(slot);
      }
      links := links[slot := links[slot] + [frame]];
      r := Written;
    }

    /** Cuts the next chunk off the data and frames it; chunks is the whole split, k the number cut before. */
    method NextFrame(sid: seq<byte>, num: int, data: seq<byte>, ghost chunks: seq<seq<byte>>, ghost k: nat)
      returns (frame: seq<byte>, rest: seq<byte>)
      requires Valid() && |data| > 0 && k <= |chunks| && chunks[k..] == Split(data, chunkSize)
      requires num == k % U32_SPACE
      ensures |rest| < |data| && k < |chunks| && chunks[k + 1..] == Split(rest, chunkSize)
      ensures frame == Wire(sid, chunks)[k]
      ensures rest == [] ==> k == |chunks| - 1
    {
      var size := |data|;
      if size > chunkSize {
        size := chunkSize;
      }
      var chunk := data[..size];
      rest := data[size..];
      assert data == chunk + rest;
      SplitStep(chunk, rest, chunks, k, chunkSize);
      frame := BuildFrame(sid, num, chunk, |rest| == 0, k);
    }

    /** k frames are on their transports, num and the counter are where they should be, and rest is still to cut. */
    ghost predicate Writing(sid: seq<byte>, num: int, rest: seq<byte>, links0: seq<seq<seq<byte>>>,
                            chunks: seq<seq<byte>>, c: int, k: nat, fails: nat -> bool)
      reads this
    {
      && Valid() && k <= |chunks| && chunks[k..] == Split(rest, chunkSize) && (rest == [] <==> k == |chunks|)
      && num == k % U32_SPACE && nextConn == Wrap32(c + k)
      && Placed(links, links0, Wire(sid, chunks), c, k, fails)
    }

    /** One turn of Write's loop: the next frame is cut off and offered to the next transport. */
    method WriteNext(sid: seq<byte>, num: int, data: seq<byte>, refused: bool, ghost links0: seq<seq<seq<byte>>>,
                     ghost chunks: seq<seq<byte>>, ghost c: int, ghost k: nat, ghost fails: nat -> bool)
      returns (r: WriteResult, rest: seq<byte>, next: int)
      requires |data| > 0 && refused == fails(k) && Writing(sid, num, data, links0, chunks, c, k, fails)
      modifies this`links, this`nextConn
      ensures Valid() && !r.NoTransports? && |rest| < |data|
      ensures
        if r.Written? then Writing(sid, next, rest, links0, chunks, c, k + 1, fails)
        else Ended(r, links, links0, Wire(sid, chunks), c, k, nextConn, fails)
    {
      var frame;
      frame, rest := NextFrame(sid, num, data, chunks, k);
      r := Emit(frame, refused, c, k);
      U32Step(num, k);
      next := (num + 1) % U32_SPACE;
    }

    /**
     Places the frames of the write one by one; stops at the first failing transport or at an index
     Go would refuse. fails(k) says that the transport refuses the k-th frame.
     */
    method Write(sid: seq<byte>, data: seq<byte>, fails: nat -> bool) returns (r: WriteResult, k: nat)
      requires Valid()
      modifies this`links, this`nextConn
      ensures Valid()
      ensures r.NoTransports? <==> old(links) == []
      ensures r.NoTransports? ==> links == old(links) && nextConn == old(nextConn)
      ensures !r.NoTransports? ==>
        Ended(r, links, old(links), Wire(sid, Split(data, chunkSize)), old(nextConn), k, nextConn, fails)
    {
      k := 0;
      if |links| == 0 {
        return NoTransports, 0;
      }
      var num, rest := 0, data;
      ghost var c := nextConn;
      ghost var chunks := Split(data, chunkSize);
      while |rest| > 0
        invariant Writing(sid, num, rest, old(links), chunks, c, k, fails)
        decreases |rest|
      {
        r, rest, num := WriteNext(sid, num, rest, fails(k), old(links), chunks, c, k, fails);
        if !r.Written? {
          return;
        }
        k := k + 1;
      }
      r := Written;
    }
  }

  /** The frame as the source assembles it, with a sequence number that has wrapped like a uint32. */
  method BuildFrame(sid: seq<byte>, num: int, chunk: seq<byte>, last: bool, ghost k: int) returns (frame: seq<byte>)
    requires num == k % U32_SPACE
    ensures frame == Frame(sid, k, chunk, last)
  {
    var buf := new Buffer();
    buf.Write(sid);
    buf.Write(PutU32(num));
    buf.Write(PutU16(|chunk|));
    var flags := 0;
    if last {
      flags := FLAG_FIN;
    }
    buf.Write([flags]);
    buf.Write([0]);
    buf.Write(chunk);
    WrappedNumber(num, k);
    frame := buf.contents;
  }

  lemma WrappedNumber(num: int, k: int)
    requires num == k % U32_SPACE
    ensures PutU32(num) == PutU32(k)
  {
  }

  lemma SplitStep(chunk: seq<byte>, rest: seq<byte>, chunks: seq<seq<byte>>, k: nat, chunkSize: int)
    requires 0 < chunkSize && 0 < |chunk| && k <= |chunks| && chunks[k..] == Split(chunk + rest, chunkSize)
    requires |chunk| == if |chunk + rest| > chunkSize then chunkSize else |chunk + rest|
    ensures k < |chunks| && chunks[k] == chunk && chunks[k + 1..] == Split(rest, chunkSize)
    ensures rest == [] <==> k == |chunks| - 1
  {
    var d := chunk + rest;
    assert chunks[k..][1..] == chunks[k + 1..];
    assert chunks[k] == chunks[k..][0];
    if |d| > chunkSize {
      assert d[..chunkSize] == chunk && d[chunkSize..] == rest;
    } else {
      assert rest == [] && d == chunk;
    }
  }

  // ------------------------------------------------------------------ where the frames are

  /** The index is in range exactly until the counter wraps, except on counts that divide the wrapped value. */
  lemma SlotInRange(c: int, k: nat, n: int)
    requires n > 0
    ensures Slot(c, k, n) < n
    ensures Slot(c, k, n) < 0 <==> Wrap32(c + 1 + k) < 0 && (-Wrap32(c + 1 + k)) % n != 0
    ensures 0 <= c && c + 1 + k < I32_LIMIT ==> Slot(c, k, n) == (c + 1 + k) % n
  {
  }

  /**
   All m frames of a write find a transport exactly when the counter stays below 2^31, or reaches it
   with the last frame on a number of transports that divides it, or there is only one transport.
   */
  lemma WriteInRangeExact(c: int, m: nat, n: int)
    requires 0 <= c < I32_LIMIT && 0 < m < I32_LIMIT && n > 0
    ensures (forall j :: 0 <= j < m ==> 0 <= Slot(c, j, n)) <==>
      n == 1 || c + m < I32_LIMIT || (c + m == I32_LIMIT && I32_LIMIT % n == 0)
  {
    forall j | 0 <= j < m
      ensures 0 <= Slot(c, j, n) <==> c + 1 + j < I32_LIMIT || Divides(n, Below(c, j))
    {
      SlotDivides(c, j, n);
    }
    if n == 1 {
      forall j | 0 <= j < m
        ensures Divides(n, Below(c, j))
      {
        DivUnique(Below(c, j), 1, Below(c, j), 0);
      }
    } else if c + m >= I32_LIMIT {
      var j := I32_LIMIT - c - 1;
      assert 0 <= Slot(c, j, n) <==> Divides(n, I32_LIMIT);
      if c + m > I32_LIMIT && Divides(n, I32_LIMIT) {
        NotBoth(I32_LIMIT, n);
        assert 0 <= Slot(c, j + 1, n) <==> Divides(n, I32_LIMIT - 1);
      }
    }
  }

  /** How far below zero the counter of frame j is once it has wrapped. */
  function Below(c: int, j: int): int {
    2 * I32_LIMIT - (c + 1 + j)
  }

  predicate Divides(n: int, x: int)
    requires n > 0
  {
    x % n == 0
  }

  lemma SlotDivides(c: int, j: nat, n: int)
    requires 0 <= c < I32_LIMIT && j < I32_LIMIT && n > 0
    ensures 0 <= Slot(c, j, n) <==> c + 1 + j < I32_LIMIT || Divides(n, Below(c, j))
  {
    SlotInRange(c, j, n);
  }

  lemma NotBoth(x: nat, n: int)
    requires n > 1 && x > 0 && Divides(n, x)
    ensures !Divides(n, x - 1)
  {
    DivUnique(1, n, 0, 1);
    DivSum(x - 1, 1, n);
  }

  /** A write that crosses the int32 limit indexes out of range on three transports. */
  lemma CounterOverflowPanics()
    ensures Slot(I32_LIMIT - 1, 0, 3) < 0
  {
    assert Wrap32(I32_LIMIT) == -I32_LIMIT;
  }

  /** Every frame is on the transport its slot names, and nothing else was written. */
  lemma {:induction false} PlacedExactly(links: seq<seq<seq<byte>>>, frames: seq<seq<byte>>, c: int, k: nat, i: nat)
    requires |links| > 0 && k <= |frames| && i < |links|
    requires forall j :: 0 <= j < k ==> 0 <= Slot(c, j, |links|)
    ensures links[i] <= Place(links, frames, c, k)[i]
    ensures forall j :: 0 <= j < k && Slot(c, j, |links|) == i ==>
      frames[j] in Place(links, frames, c, k)[i][|links[i]|..]
    ensures forall f :: f in Place(links, frames, c, k)[i][|links[i]|..] ==>
      exists j :: 0 <= j < k && Slot(c, j, |links|) == i && frames[j] == f
  {
    if k > 0 {
      PlacedExactly(links, frames, c, k - 1, i);
      var old_, new_ := Place(links, frames, c, k - 1)[i], Place(links, frames, c, k)[i];
      if Slot(c, k - 1, |links|) == i {
        assert new_[|links[i]|..] == old_[|links[i]|..] + [frames[k - 1]];
      }
    }
  }

  /** While the counter does not wrap, m frames put floor(m/n) or ceil(m/n) on each of n transports. */
  lemma {:induction false} PlacedFairly(links: seq<seq<seq<byte>>>, frames: seq<seq<byte>>, c: nat, k: nat, i: nat)
    requires |links| > 0 && k <= |frames| && i < |links| && c + k < I32_LIMIT
    ensures forall j :: 0 <= j < k ==> 0 <= Slot(c, j, |links|)
    ensures
      var more := |Place(links, frames, c, k)[i]| - |links[i]|;
      && more == Hits(c, k, |links|, i)
      && k / |links| <= more <= k / |links| + 1
      && (k % |links| == 0 ==> more == k / |links|)
  {
    forall j | 0 <= j < k
      ensures 0 <= Slot(c, j, |links|)
    {
      SlotInRange(c, j, |links|);
    }
    if k > 0 {
      PlacedFairly(links, frames, c, k - 1, i);
      SlotInRange(c, k - 1, |links|);
    }
    Fair(c, k, |links|, i);
  }
}
