/** Bytes, big-endian integers, and the small sequence facts the wire formats share. */
module Bytes {

  type byte = b: int | 0 <= b < 256

  datatype Option<+T> = None | Some(value: T)

  const U16_SPACE: nat := 0x1_0000
  const U32_SPACE: nat := 0x1_0000_0000

  const MAX_CHUNK: int := 65535

  /** The size field of a frame is a uint16. */
  type Chunk = c: seq<byte> | |c| <= MAX_CHUNK witness []

  /** binary.Write(BigEndian, uint16(n)): the conversion keeps the low 16 bits. */
  function PutU16(n: int): (bs: seq<byte>)
    ensures |bs| == 2
  {
    var low := n % U16_SPACE;
    [low / 256, low % 256]
  }

  /** binary.Write(BigEndian, uint32(n)). */
  function PutU32(n: int): (bs: seq<byte>)
    ensures |bs| == 4
  {
    var low := n % U32_SPACE;
    PutU16(low / U16_SPACE) + PutU16(low)
  }

  function GetU16(bs: seq<byte>): (n: nat)
    requires |bs| == 2
    ensures n < U16_SPACE
  {
    256 * (bs[0] as int) + bs[1] as int
  }

  function GetU32(bs: seq<byte>): (n: nat)
    requires |bs| == 4
    ensures n < U32_SPACE
  {
    U16_SPACE * GetU16(bs[..2]) + GetU16(bs[2..])
  }

  lemma U16RoundTrip(n: int)
    ensures GetU16(PutU16(n)) == n % U16_SPACE
  {
  }

  /** High byte first, of the low 16 bits. */
  lemma U16Bytes(n: nat)
    ensures PutU16(n) == [n / 256 % 256, n % 256]
  {
    var q, low := n / U16_SPACE, n % U16_SPACE;
    var a, b := low / 256, low % 256;
    assert n == 256 * (256 * q + a) + b && 0 <= a < 256 && 0 <= b < 256;
    assert n / 256 == 256 * q + a;
  }

  lemma U32RoundTrip(n: int)
    ensures GetU32(PutU32(n)) == n % U32_SPACE
  {
    var bs := PutU32(n);
    var low := n % U32_SPACE;
    assert bs[..2] == PutU16(low / U16_SPACE) && bs[2..] == PutU16(low);
    U16RoundTrip(low / U16_SPACE);
    U16RoundTrip(low);
  }

  lemma U16Canonical(bs: seq<byte>)
    requires |bs| == 2
    ensures PutU16(GetU16(bs)) == bs
  {
  }

  lemma Halves(hi: nat, lo: nat)
    requires hi < U16_SPACE && lo < U16_SPACE
    ensures
      var n := U16_SPACE * hi + lo;
      n / U16_SPACE == hi && n % U16_SPACE == lo && n % U32_SPACE == n
  {
  }

  lemma PutU16Low(n: nat)
    ensures PutU16(n) == PutU16(n % U16_SPACE)
  {
  }

  lemma U32Canonical(bs: seq<byte>)
    requires |bs| == 4
    ensures PutU32(GetU32(bs)) == bs
  {
    Halves(GetU16(bs[..2]), GetU16(bs[2..]));
    PutU16Low(GetU32(bs));
    U16Canonical(bs[..2]);
    U16Canonical(bs[2..]);
    assert bs[..2] + bs[2..] == bs;
  }

  /** The bytes a sequence of chunks carries. */
  function Flatten(cs: seq<seq<byte>>): seq<byte> {
    if cs == [] then [] else Flatten(cs[..|cs| - 1]) + cs[|cs| - 1]
  }

  function SumLen(cs: seq<seq<byte>>): nat {
    if cs == [] then 0 else SumLen(cs[..|cs| - 1]) + |cs[|cs| - 1]|
  }

  lemma {:induction false} SumLenConcat(a: seq<seq<byte>>, b: seq<seq<byte>>)
    ensures SumLen(a + b) == SumLen(a) + SumLen(b)
  {
    if b == [] {
      assert a + b == a;
    } else {
      assert (a + b)[..|a + b| - 1] == a + b[..|b| - 1];
      SumLenConcat(a, b[..|b| - 1]);
    }
  }

  lemma {:induction false} SumLenBound(cs: seq<seq<byte>>, max: nat)
    requires forall i :: 0 <= i < |cs| ==> |cs[i]| <= max
    ensures SumLen(cs) <= |cs| * max
  {
    if cs != [] {
      SumLenBound(cs[..|cs| - 1], max);
    }
  }

  lemma {:induction false} SumLenGrows(cs: seq<seq<byte>>, i: nat, j: nat)
    requires i <= j <= |cs|
    ensures SumLen(cs[..i]) <= SumLen(cs[..j])
  {
    if i < j {
      assert cs[..j][..j - 1] == cs[..j - 1];
      SumLenGrows(cs, i, j - 1);
    }
  }

  lemma {:induction false} SumLenUniform(cs: seq<seq<byte>>, size: nat, k: nat)
    requires k <= |cs| && forall i :: 0 <= i < k ==> |cs[i]| == size
    ensures SumLen(cs[..k]) == k * size
  {
    if k > 0 {
      assert cs[..k][..k - 1] == cs[..k - 1];
      SumLenUniform(cs, size, k - 1);
    }
  }

  lemma {:induction false} FlattenConcat(a: seq<seq<byte>>, b: seq<seq<byte>>)
    ensures Flatten(a + b) == Flatten(a) + Flatten(b)
  {
    if b == [] {
      assert a + b == a;
    } else {
      assert (a + b)[..|a + b| - 1] == a + b[..|b| - 1];
      FlattenConcat(a, b[..|b| - 1]);
    }
  }
}
