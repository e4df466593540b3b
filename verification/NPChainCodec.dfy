/** The NP-Chain frame: a 24-byte header, one 34-byte entry per hop, and a payload. */
module NPChainCodec {
  import opened Bytes

  const MAGIC: int := 0x4E504332
  const VERSION: byte := 1
  const ADDR_IPV4: byte := 1
  const ADDR_IPV6: byte := 2
  const ADDR_DOMAIN: byte := 3
  const ENTRY_SIZE: int := 34
  const HEADER_SIZE: int := 24
  const ADDR_MAX: int := 30

  datatype CodecError =
    | BadSessionId | BadHop | AddressTooLong
    | TooShort | InvalidMagic | UnsupportedVersion
    | Truncated | BadLength | UnknownAddrType

  datatype Outcome<+T> = Ok(value: T) | Err(error: CodecError)

  // ------------------------------------------------------------------ text

  type Text = seq<byte>
  type Ip = b: seq<byte> | |b| == 16 witness seq(16, _ => 0)

  /** The library calls between hop text and address bytes. */
  datatype NetLib = NetLib(
    split: Text -> Option<(Text, int)>,   // net.SplitHostPort, then strconv.Atoi
    join: (Text, nat) -> Text,            // net.JoinHostPort of a printed port
    parseIP: Text -> Option<Ip>,          // net.ParseIP
    ipText: seq<byte> -> Text)            // net.IP.String

  function Zeros(n: nat): (z: seq<byte>)
    ensures |z| == n
  {
    seq(n, _ => 0)
  }

  function MappedPrefix(): (p: seq<byte>)
    ensures |p| == 12
  {
    Zeros(10) + [255, 255]
  }

  /** The 16-byte form Go gives an IPv4 address. */
  function Mapped(b: seq<byte>): Ip
    requires |b| == 4
  {
    MappedPrefix() + b
  }

  /** To4() != nil. */
  predicate IsMapped(ip: Ip) {
    ip[..12] == MappedPrefix()
  }

  /** What Go's net package promises about these calls. */
  ghost predicate Lawful(lib: NetLib) {
    && (forall b: seq<byte> :: |b| == 4 ==> lib.parseIP(lib.ipText(b)) == Some(Mapped(b)))
    && (forall b: Ip :: lib.parseIP(lib.ipText(b)) == Some(b))
    && (forall b: seq<byte>, p: nat :: (|b| == 4 || |b| == 16) && p < U16_SPACE ==>
      lib.split(lib.join(lib.ipText(b), p)) == Some((lib.ipText(b), p)))
    && (forall t: Text, p: nat :: lib.split(t).Some? && p < U16_SPACE ==>
      lib.split(lib.join(lib.split(t).value.0, p)) == Some((lib.split(t).value.0, p)))
    && lib.split([]) == None
  }

  datatype Entry = Entry(addrType: byte, port: nat, addr: seq<byte>)

  /** encodeHop's reading of a hop: the port keeps its low 16 bits. */
  function Resolve(lib: NetLib, hop: Text): (r: Outcome<Entry>)
    ensures r.Ok? ==> Encodable(r.value)
  {
    match lib.split(hop)
    case None => Err(BadHop)
    case Some((host, port)) =>
      match lib.parseIP(host)
      case Some(ip) =>
        Ok(if IsMapped(ip) then Entry(ADDR_IPV4, port % U16_SPACE, ip[12..])
           else Entry(ADDR_IPV6, port % U16_SPACE, ip))
      case None =>
        if |host| > ADDR_MAX then Err(AddressTooLong) else Ok(Entry(ADDR_DOMAIN, port % U16_SPACE, host))
  }

  /** decodeHop's printing of an entry. */
  function Render(lib: NetLib, e: Entry): Text {
    lib.join(if e.addrType == ADDR_DOMAIN then e.addr else lib.ipText(e.addr), e.port)
  }

  // ------------------------------------------------------------------ the format

  /** The address length fits its type, as decodeHop checks. */
  predicate FitsType(e: Entry) {
    e.port < U16_SPACE &&
    ((e.addrType == ADDR_IPV4 && |e.addr| == 4) || (e.addrType == ADDR_IPV6 && |e.addr| == 16) ||
     (e.addrType == ADDR_DOMAIN && |e.addr| <= 255))
  }

  predicate Encodable(e: Entry) {
    FitsType(e) && |e.addr| <= ADDR_MAX
  }

  predicate AllEncodable(es: seq<Entry>) {
    forall i :: 0 <= i < |es| ==> Encodable(es[i])
  }

  function EncodeEntry(e: Entry): (bs: seq<byte>)
    requires Encodable(e)
    ensures |bs| == ENTRY_SIZE
  {
    [e.addrType] + PutU16(e.port) + [|e.addr|] + e.addr + Zeros(ADDR_MAX - |e.addr|)
  }

  function EncodeEntries(es: seq<Entry>): (bs: seq<byte>)
    requires AllEncodable(es)
    ensures |bs| == ENTRY_SIZE * |es|
  {
    if es == [] then [] else EncodeEntry(es[0]) + EncodeEntries(es[1..])
  }

  /** The hop count keeps its low 8 bits. */
  function Header(sid: seq<byte>, hopCount: nat): seq<byte> {
    PutU32(MAGIC) + [VERSION] + [hopCount % 256] + PutU16(0) + sid
  }

  function EncodeFrame(sid: seq<byte>, es: seq<Entry>, payload: seq<byte>): (bs: seq<byte>)
    requires |sid| == 16 && AllEncodable(es)
    ensures |bs| == HEADER_SIZE + ENTRY_SIZE * |es| + |payload|
  {
    Header(sid, |es|) + EncodeEntries(es) + payload
  }

  /** One entry off the front; skipping the padding may run past the end. */
  function DecodeEntry(rest: seq<byte>): Outcome<(Entry, seq<byte>)> {
    if |rest| < 4 then Err(Truncated)
    else
      var len: nat := rest[3];
      if |rest| - 4 < len then Err(Truncated)
      else
        var e := Entry(rest[0], GetU16(rest[1..3]), rest[4..4 + len]);
        var skip: nat := if len < ADDR_MAX then ADDR_MAX - len else 0;
        var after := rest[4 + len..];
        if e.addrType == ADDR_IPV4 && len != 4 then Err(BadLength)
        else if e.addrType == ADDR_IPV6 && len != 16 then Err(BadLength)
        else if e.addrType !in {ADDR_IPV4, ADDR_IPV6, ADDR_DOMAIN} then Err(UnknownAddrType)
        else Ok((e, if skip <= |after| then after[skip..] else []))
  }

  function DecodeEntries(rest: seq<byte>, n: nat): Outcome<(seq<Entry>, seq<byte>)>
    decreases n
  {
    if n == 0 then Ok(([], rest))
    else
      match DecodeEntry(rest)
      case Err(e) => Err(e)
      case Ok((e, rest1)) =>
        match DecodeEntries(rest1, n - 1)
        case Err(err) => Err(err)
        case Ok((es, rest2)) => Ok(([e] + es, rest2))
  }

  datatype Decoded = Decoded(sid: seq<byte>, entries: seq<Entry>, payload: seq<byte>)

  function DecodeFrame(data: seq<byte>): Outcome<Decoded> {
    if |data| < HEADER_SIZE then Err(TooShort)
    else if GetU32(data[..4]) != MAGIC then Err(InvalidMagic)
    else if data[4] != VERSION then Err(UnsupportedVersion)
    else
      match DecodeEntries(data[HEADER_SIZE..], data[5])
      case Err(e) => Err(e)
      case Ok((es, payload)) => Ok(Decoded(data[8..24], es, payload))
  }

  // ------------------------------------------------------------------ round trip

  lemma EntryRoundTrip(e: Entry, tail: seq<byte>)
    requires Encodable(e)
    ensures DecodeEntry(EncodeEntry(e) + tail) == Ok((e, tail))
  {
    var bs := EncodeEntry(e) + tail;
    assert bs[1..3] == PutU16(e.port);
    U16RoundTrip(e.port);
    assert bs[4..4 + |e.addr|] == e.addr;
    assert bs[4 + |e.addr|..] == Zeros(ADDR_MAX - |e.addr|) + tail;
    assert (Zeros(ADDR_MAX - |e.addr|) + tail)[ADDR_MAX - |e.addr|..] == tail;
  }

  lemma {:induction false} EntriesRoundTrip(es: seq<Entry>, tail: seq<byte>)
    requires AllEncodable(es)
    ensures DecodeEntries(EncodeEntries(es) + tail, |es|) == Ok((es, tail))
  {
    if es == [] {
      assert EncodeEntries(es) + tail == tail;
    } else {
      var rest := EncodeEntries(es[1..]) + tail;
      assert EncodeEntries(es) + tail == EncodeEntry(es[0]) + rest;
      EntryRoundTrip(es[0], rest);
      EntriesRoundTrip(es[1..], tail);
      assert [es[0]] + es[1..] == es;
    }
  }

  lemma {:induction false} EncodeEntriesConcat(a: seq<Entry>, b: seq<Entry>)
    requires AllEncodable(a) && AllEncodable(b)
    ensures AllEncodable(a + b) && EncodeEntries(a + b) == EncodeEntries(a) + EncodeEntries(b)
  {
    if a == [] {
      assert a + b == b;
    } else {
      var rest := a[1..];
      assert (a + b)[0] == a[0] && (a + b)[1..] == rest + b;
      EncodeEntriesConcat(rest, b);
      var x, y, z := EncodeEntry(a[0]), EncodeEntries(rest), EncodeEntries(b);
      assert x + (y + z) == (x + y) + z;
    }
  }

  lemma HeaderReadsBack(sid: seq<byte>, hopCount: nat, body: seq<byte>)
    requires |sid| == 16
    ensures
      var f := Header(sid, hopCount) + body;
      && |f| == HEADER_SIZE + |body| && GetU32(f[..4]) == MAGIC && f[4] == VERSION && f[5] == hopCount % 256
      && f[8..24] == sid && f[HEADER_SIZE..] == body
  {
    var f := Header(sid, hopCount) + body;
    assert f[..4] == PutU32(MAGIC);
    U32RoundTrip(MAGIC);
  }

  /** Decoding yields the first |es| mod 256 hops; the entries of the others end up in the payload. */
  lemma FrameRoundTrip(sid: seq<byte>, es: seq<Entry>, payload: seq<byte>)
    requires |sid| == 16 && AllEncodable(es)
    ensures
      var k := |es| % 256;
      DecodeFrame(EncodeFrame(sid, es, payload)) == Ok(Decoded(sid, es[..k], EncodeEntries(es[k..]) + payload))
  {
    var k := |es| % 256;
    HeaderReadsBack(sid, |es|, EncodeEntries(es) + payload);
    assert EncodeFrame(sid, es, payload) == Header(sid, |es|) + (EncodeEntries(es) + payload);
    EncodeEntriesConcat(es[..k], es[k..]);
    assert es[..k] + es[k..] == es;
    assert EncodeEntries(es) + payload == EncodeEntries(es[..k]) + (EncodeEntries(es[k..]) + payload);
    EntriesRoundTrip(es[..k], EncodeEntries(es[k..]) + payload);
  }

  /** The frame reads back as it was written exactly when it has at most 255 hops. */
  lemma FrameRoundTripExact(sid: seq<byte>, es: seq<Entry>, payload: seq<byte>)
    requires |sid| == 16 && AllEncodable(es)
    ensures DecodeFrame(EncodeFrame(sid, es, payload)) == Ok(Decoded(sid, es, payload)) <==> |es| <= 255
  {
    FrameRoundTrip(sid, es, payload);
    if |es| <= 255 {
      WholeFrame(es, payload);
    } else {
      assert |es[..|es| % 256]| < |es|;
    }
  }

  lemma WholeFrame(es: seq<Entry>, payload: seq<byte>)
    requires AllEncodable(es) && |es| <= 255
    ensures es[..|es| % 256] == es && EncodeEntries(es[|es| % 256..]) + payload == payload
  {
    assert |es| % 256 == |es|;
    assert es[|es|..] == [];
  }

  // ------------------------------------------------------------------ what re-encoding keeps

  /** Byte i of the encoded entries is padding. */
  predicate Padding(es: seq<Entry>, i: nat) {
    i / ENTRY_SIZE < |es| && i % ENTRY_SIZE >= 4 + |es[i / ENTRY_SIZE].addr|
  }

  /** bs is full up to padding bytes, some of which may be cut off at the end. */
  ghost predicate SameButPadding(es: seq<Entry>, bs: seq<byte>, full: seq<byte>) {
    && |bs| <= |full|
    && (forall i :: 0 <= i < |bs| && !Padding(es, i) ==> bs[i] == full[i])
    && (forall i :: |bs| <= i < |full| ==> Padding(es, i))
  }

  predicate ShortAddresses(es: seq<Entry>) {
    forall i :: 0 <= i < |es| ==> |es[i].addr| <= ADDR_MAX
  }

  lemma EntryCanonical(rest: seq<byte>)
    requires DecodeEntry(rest).Ok? && |DecodeEntry(rest).value.0.addr| <= ADDR_MAX
    ensures
      var (e, after) := DecodeEntry(rest).value;
      var n := 4 + |e.addr|;
      && Encodable(e) && n <= |rest| && rest[..n] == EncodeEntry(e)[..n]
      && after == (if |rest| < ENTRY_SIZE then [] else rest[ENTRY_SIZE..])
  {
    var (e, after) := DecodeEntry(rest).value;
    U16Canonical(rest[1..3]);
    assert rest[1] == rest[1..3][0] && rest[2] == rest[1..3][1];
    var n := 4 + |e.addr|;
    var enc := EncodeEntry(e);
    assert enc[4..n] == e.addr;
    forall i | 0 <= i < n
      ensures rest[i] == enc[i]
    {
      if i >= 4 {
        assert rest[i] == rest[4..n][i - 4] && enc[i] == enc[4..n][i - 4];
      }
    }
    if |rest| >= ENTRY_SIZE {
      assert rest[n..][ADDR_MAX - |e.addr|..] == rest[ENTRY_SIZE..];
    }
  }

  lemma {:induction false} EntriesCanonical(rest: seq<byte>, n: nat)
    requires DecodeEntries(rest, n).Ok? && ShortAddresses(DecodeEntries(rest, n).value.0)
    ensures
      var (es, tail) := DecodeEntries(rest, n).value;
      && |es| == n && AllEncodable(es)
      && SameButPadding(es, rest, EncodeEntries(es) + tail)
      && (|rest| < ENTRY_SIZE * n + |tail| ==> tail == [])
    decreases n
  {
    var (es, tail) := DecodeEntries(rest, n).value;
    if n == 0 {
      assert EncodeEntries(es) + tail == rest;
    } else {
      var (e, rest1) := DecodeEntry(rest).value;
      var (es1, tail1) := DecodeEntries(rest1, n - 1).value;
      assert es[0] == e && es[1..] == es1;
      assert ShortAddresses(es1) by {
        forall i | 0 <= i < |es1| ensures |es1[i].addr| <= ADDR_MAX { assert es1[i] == es[i + 1]; }
      }
      EntryCanonical(rest);
      EntriesCanonical(rest1, n - 1);
      ConsCanonical(e, es1, rest, rest1, tail);
    }
  }

  /** rest is the encoding of e, up to its padding, followed by rest1. */
  ghost predicate StartsWith(e: Entry, rest: seq<byte>, rest1: seq<byte>)
    requires Encodable(e)
  {
    && 4 + |e.addr| <= |rest| && rest[..4 + |e.addr|] == EncodeEntry(e)[..4 + |e.addr|]
    && rest1 == if |rest| < ENTRY_SIZE then [] else rest[ENTRY_SIZE..]
  }

  /** One entry in front of entries that already agree. */
  lemma ConsCanonical(e: Entry, es1: seq<Entry>, rest: seq<byte>, rest1: seq<byte>, tail: seq<byte>)
    requires Encodable(e) && AllEncodable(es1) && StartsWith(e, rest, rest1)
    requires SameButPadding(es1, rest1, EncodeEntries(es1) + tail)
    requires rest1 == [] ==> es1 == [] && tail == []
    ensures AllEncodable([e] + es1)
    ensures SameButPadding([e] + es1, rest, EncodeEntries([e] + es1) + tail)
  {
    var es := [e] + es1;
    var enc, full1 := EncodeEntry(e), EncodeEntries(es1) + tail;
    var full := EncodeEntries(es) + tail;
    assert es[1..] == es1;
    assert full == enc + full1;
    forall i | 0 <= i < |rest| && !Padding(es, i)
      ensures rest[i] == full[i]
    {
      ConsByte(e, es1, rest, rest1, full1, i);
    }
    forall i | |rest| <= i < |full|
      ensures Padding(es, i)
    {
      ConsCut(e, es1, rest, rest1, full1, i);
    }
  }

  lemma ConsByte(e: Entry, es1: seq<Entry>, rest: seq<byte>, rest1: seq<byte>, full1: seq<byte>, i: nat)
    requires Encodable(e) && StartsWith(e, rest, rest1) && SameButPadding(es1, rest1, full1)
    requires i < |rest| && !Padding([e] + es1, i)
    ensures i < |EncodeEntry(e) + full1| && rest[i] == (EncodeEntry(e) + full1)[i]
  {
    var n := 4 + |e.addr|;
    PaddingShift(e, es1, i);
    if i < ENTRY_SIZE {
      assert rest[i] == rest[..n][i] && EncodeEntry(e)[i] == EncodeEntry(e)[..n][i];
    } else {
      assert rest[i] == rest1[i - ENTRY_SIZE] == full1[i - ENTRY_SIZE];
    }
  }

  lemma ConsCut(e: Entry, es1: seq<Entry>, rest: seq<byte>, rest1: seq<byte>, full1: seq<byte>, i: nat)
    requires Encodable(e) && StartsWith(e, rest, rest1) && SameButPadding(es1, rest1, full1)
    requires rest1 == [] ==> full1 == []
    requires |rest| <= i < |EncodeEntry(e) + full1|
    ensures Padding([e] + es1, i)
  {
    PaddingShift(e, es1, i);
  }

  lemma PaddingShift(e: Entry, es: seq<Entry>, i: nat)
    ensures i < ENTRY_SIZE ==> (Padding([e] + es, i) <==> i >= 4 + |e.addr|)
    ensures i >= ENTRY_SIZE ==> (Padding([e] + es, i) <==> Padding(es, i - ENTRY_SIZE))
  {
    if i >= ENTRY_SIZE {
      assert (i - ENTRY_SIZE) / ENTRY_SIZE == i / ENTRY_SIZE - 1 && (i - ENTRY_SIZE) % ENTRY_SIZE == i % ENTRY_SIZE;
    }
  }
}
