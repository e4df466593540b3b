/** The frames a write is cut into, and what the receiver reads from one. */
module Framing {
  import opened Bytes

  const HEADER_SIZE: nat := 24
  const DEFAULT_CHUNK_SIZE: int := 64 * 1024
  const FLAG_FIN: byte := 1

  // ------------------------------------------------------------------ the sender's side

  /** Session id, sequence number, size, flags, one reserved byte, data. */
  function Frame(sid: seq<byte>, num: int, chunk: seq<byte>, fin: bool): seq<byte> {
    sid + PutU32(num) + PutU16(|chunk|) + [if fin then FLAG_FIN else 0] + [0] + chunk
  }

  function Split(data: seq<byte>, chunkSize: int): seq<seq<byte>>
    requires chunkSize > 0
    decreases |data|
  {
    if data == [] then []
    else if |data| <= chunkSize then [data]
    else [data[..chunkSize]] + Split(data[chunkSize..], chunkSize)
  }

  function Wire(sid: seq<byte>, chunks: seq<seq<byte>>): (fs: seq<seq<byte>>)
    ensures |fs| == |chunks|
  {
    seq(|chunks|, i requires 0 <= i < |chunks| => Frame(sid, i, chunks[i], i == |chunks| - 1))
  }

  lemma FlattenOne(chunk: seq<byte>)
    ensures Flatten([chunk]) == chunk
  {
    assert [chunk][..0] == [];
    assert Flatten([]) == [];
  }

  /** Nothing is lost or reordered by the cut. */
  lemma {:induction false} SplitJoins(data: seq<byte>, chunkSize: int)
    requires chunkSize > 0
    ensures Flatten(Split(data, chunkSize)) == data
    decreases |data|
  {
    if |data| > chunkSize {
      var rest := data[chunkSize..];
      SplitJoins(rest, chunkSize);
      FlattenConcat([data[..chunkSize]], Split(rest, chunkSize));
      FlattenOne(data[..chunkSize]);
    } else if data != [] {
      FlattenOne(data);
    }
  }

  /** Every chunk but the last is full, the last is not empty, and there are ceil(|data| / chunkSize) of them. */
  lemma {:induction false} SplitSizes(data: seq<byte>, chunkSize: int)
    requires chunkSize > 0
    ensures
      var cs := Split(data, chunkSize);
      && (forall i :: 0 <= i < |cs| ==> 0 < |cs[i]| <= chunkSize)
      && (forall i :: 0 <= i < |cs| - 1 ==> |cs[i]| == chunkSize)
      && |cs| * chunkSize - chunkSize < |data| + (if data == [] then 1 else 0)
      && |data| <= |cs| * chunkSize
    decreases |data|
  {
    if |data| > chunkSize {
      var rest := data[chunkSize..];
      SplitSizes(rest, chunkSize);
      var tail := Split(rest, chunkSize);
      assert Split(data, chunkSize) == [data[..chunkSize]] + tail;
      assert (|tail| + 1) * chunkSize == |tail| * chunkSize + chunkSize;
    }
  }

  // ------------------------------------------------------------------ the receiver's side

  datatype ParseError = NoSessionId | NoSequence | NoSize | NoFlags | NoReserved | NoData

  datatype Parsed = Frm(sid: seq<byte>, num: nat, chunk: seq<byte>, fin: bool) | Bad(error: ParseError)

  function ParseFrame(data: seq<byte>): Parsed {
    if |data| < 16 then Bad(NoSessionId)
    else if |data| < 20 then Bad(NoSequence)
    else if |data| < 22 then Bad(NoSize)
    else if |data| < 23 then Bad(NoFlags)
    else if |data| < HEADER_SIZE then Bad(NoReserved)
    else
      var size := GetU16(data[20..22]);
      if |data| - HEADER_SIZE < size then Bad(NoData)
      else Frm(data[..16], GetU32(data[16..20]), data[HEADER_SIZE..HEADER_SIZE + size], data[22] % 2 == 1)
  }

  /** What survives the 16-bit size field. */
  function Truncated(chunk: seq<byte>): Chunk {
    chunk[..|chunk| % U16_SPACE]
  }

  lemma FrameParses(sid: seq<byte>, num: int, chunk: seq<byte>, fin: bool)
    requires |sid| == 16
    ensures ParseFrame(Frame(sid, num, chunk, fin)) == Frm(sid, num % U32_SPACE, Truncated(chunk), fin)
  {
    var f := Frame(sid, num, chunk, fin);
    assert f[..16] == sid;
    assert f[16..20] == PutU32(num);
    assert f[20..22] == PutU16(|chunk|);
    assert f[HEADER_SIZE..] == chunk;
    U32RoundTrip(num);
    U16RoundTrip(|chunk|);
    var size := |chunk| % U16_SPACE;
    assert f[HEADER_SIZE..HEADER_SIZE + size] == chunk[..size];
  }

  /** Every byte of a frame. */
  lemma FrameBytes(sid: seq<byte>, num: nat, chunk: seq<byte>, fin: bool)
    requires |sid| == 16 && num < 0x1_0000_0000
    ensures Frame(sid, num, chunk, fin) ==
      sid + [num / 0x100_0000, num / 0x1_0000 % 256, num / 256 % 256, num % 256]
      + [|chunk| / 256 % 256, |chunk| % 256] + [if fin then 1 else 0, 0] + chunk
  {
    BigEndian(num);
    U16Bytes(|chunk|);
  }

  lemma BigEndian(num: nat)
    requires num < 0x1_0000_0000
    ensures PutU32(num) == [num / 0x100_0000, num / 0x1_0000 % 256, num / 256 % 256, num % 256]
  {
    TwoStepDivision(num);
    U16Bytes(num / U16_SPACE);
    U16Bytes(num);
    assert PutU16(num % U32_SPACE) == PutU16(num);
  }

  lemma TwoStepDivision(num: nat)
    requires num < 0x1_0000_0000
    ensures num % U32_SPACE == num && num / U16_SPACE / 256 % 256 == num / 0x100_0000
  {
    var q, r := num / U16_SPACE, num % U16_SPACE;
    var a, b := q / 256, q % 256;
    assert num == 0x100_0000 * a + (U16_SPACE * b + r) && 0 <= U16_SPACE * b + r < 0x100_0000;
    assert a < 256;
  }

  /** Process takes what has the header and the announced chunk, whatever the reserved byte is or follows the chunk. */
  lemma ParseExact(data: seq<byte>, sid: seq<byte>, num: nat, chunk: seq<byte>, fin: bool)
    ensures ParseFrame(data) == Frm(sid, num, chunk, fin) <==>
      && |data| >= 24 && sid == data[..16]
      && num == 0x1_0000 * (256 * data[16] as int + data[17] as int) + 256 * data[18] as int + data[19] as int
      && |chunk| == 256 * data[20] as int + data[21] as int
      && |data| >= 24 + |chunk| && chunk == data[24..24 + |chunk|]
      && (fin <==> data[22] % 2 == 1)
  {
    if |data| >= 24 {
      assert data[16..20][..2] == data[16..18] && data[16..20][2..] == data[18..20];
    }
  }

  function Received(chunks: seq<seq<byte>>): (cs: seq<Chunk>)
    ensures |cs| == |chunks|
  {
    seq(|chunks|, i requires 0 <= i < |chunks| => Truncated(chunks[i]))
  }

  /** For the sizes SetChunkSize accepts the receiver reads back exactly the chunks that were cut. */
  lemma SmallChunksSurvive(data: seq<byte>, chunkSize: int)
    requires 0 < chunkSize <= 65535
    ensures Received(Split(data, chunkSize)) == Split(data, chunkSize)
  {
    var cs := Split(data, chunkSize);
    SplitSizes(data, chunkSize);
    forall i | 0 <= i < |cs|
      ensures Truncated(cs[i]) == cs[i]
    {
      assert |cs[i]| % U16_SPACE == |cs[i]|;
    }
  }

  /** At the default size every full chunk is announced as empty: only the last |data| mod 65536 bytes survive. */
  lemma {:induction false} DefaultChunkSizeLoses(data: seq<byte>, size: int)
    requires size == DEFAULT_CHUNK_SIZE
    ensures Flatten(Received(Split(data, size))) == data[|data| - |data| % U16_SPACE..]
    decreases |data|
  {
    var cs := Split(data, size);
    if data == [] {
      assert Received(cs) == [];
    } else if |data| <= size {
      assert Received(cs) == [Truncated(data)];
      FlattenOne(Truncated(data));
      assert Truncated(data) == data[|data| - |data| % U16_SPACE..];
    } else {
      var rest := data[size..];
      var tail := Received(Split(rest, size));
      DefaultChunkSizeLoses(rest, size);
      assert Received(cs) == [Truncated(data[..size])] + tail;
      assert Truncated(data[..size]) == [];
      FlattenConcat([Truncated(data[..size])], tail);
      FlattenOne(Truncated(data[..size]));
      assert |rest| % U16_SPACE == |data| % U16_SPACE;
      assert rest[|rest| - |rest| % U16_SPACE..] == data[|data| - |data| % U16_SPACE..];
    }
  }

  /** The default chunk size carries the data intact exactly when there are fewer than 65536 bytes of it. */
  lemma DefaultChunkSizeExact(data: seq<byte>, size: int)
    requires size == DEFAULT_CHUNK_SIZE
    ensures Flatten(Received(Split(data, size))) == data <==> |data| < U16_SPACE
  {
    DefaultChunkSizeLoses(data, size);
    assert |data[|data| - |data| % U16_SPACE..]| == |data| % U16_SPACE;
    if |data| < U16_SPACE {
      assert data[0..] == data;
    }
  }
}
