/** Encode and Decode as the source runs them, over hop text, and what they do to each other. */
module NPChainFrames {
  import opened Bytes
  import opened Streams
  import opened NPChainCodec

  /** SessionMeta.ID as text: a UUID, or something uuid.Parse refuses. */
  datatype SessionId = Uuid(bytes: Ip) | NotUuid(text: Text)

  function ResolveAll(lib: NetLib, hops: seq<Text>): (r: Outcome<seq<Entry>>)
    ensures r.Ok? ==> |r.value| == |hops| && AllEncodable(r.value)
  {
    if hops == [] then Ok([])
    else
      match ResolveAll(lib, hops[..|hops| - 1])
      case Err(e) => Err(e)
      case Ok(es) =>
        match Resolve(lib, hops[|hops| - 1])
        case Err(e) => Err(e)
        case Ok(e) => Ok(es + [e])
  }

  function RenderAll(lib: NetLib, es: seq<Entry>): (hops: seq<Text>)
    ensures |hops| == |es|
  {
    seq(|es|, i requires 0 <= i < |es| => Render(lib, es[i]))
  }

  function EncodeText(lib: NetLib, id: SessionId, hops: seq<Text>, payload: seq<byte>): Outcome<seq<byte>> {
    match id
    case NotUuid(_) => Err(BadSessionId)
    case Uuid(sid) =>
      match ResolveAll(lib, hops)
      case Err(e) => Err(e)
      case Ok(es) => Ok(EncodeFrame(sid, es, payload))
  }

  datatype Message = Message(sid: seq<byte>, hops: seq<Text>, payload: seq<byte>)

  function DecodeText(lib: NetLib, data: seq<byte>): Outcome<Message> {
    match DecodeFrame(data)
    case Err(e) => Err(e)
    case Ok(d) => Ok(Message(d.sid, RenderAll(lib, d.entries), d.payload))
  }

  // ------------------------------------------------------------------ Encode

  method EncodeHop(lib: NetLib, buf: Buffer, hop: Text) returns (failure: Option<CodecError>)
    modifies buf
    ensures match Resolve(lib, hop)
      case Err(e) => failure == Some(e) && buf.contents == old(buf.contents)
      case Ok(e) => failure == None && buf.contents == old(buf.contents) + EncodeEntry(e)
  {
    var hostPort := lib.split(hop);
    if hostPort.None? {
      return Some(BadHop);
    }
    var (host, port) := hostPort.value;
    var addrType: byte, addr: seq<byte>;
    var ip := lib.parseIP(host);
    if ip.Some? {
      if IsMapped(ip.value) {
        addrType, addr := ADDR_IPV4, ip.value[12..];
      } else {
        addrType, addr := ADDR_IPV6, ip.value;
      }
    } else {
      addrType, addr := ADDR_DOMAIN, host;
    }
    if |addr| > ADDR_MAX {
      return Some(AddressTooLong);
    }
    WriteEntry(buf, addrType, port, addr);
    failure := None;
  }

  /** The 34 bytes of one hop; the port is cut to 16 bits. */
  method WriteEntry(buf: Buffer, addrType: byte, port: int, addr: seq<byte>)
    requires Encodable(Entry(addrType, port % U16_SPACE, addr))
    modifies buf
    ensures buf.contents == old(buf.contents) + EncodeEntry(Entry(addrType, port % U16_SPACE, addr))
  {
    ghost var start := buf.contents;
    buf.Write([addrType]);
    buf.Write(PutU16(port));
    buf.Write([|addr|]);
    buf.Write(addr);
    if ADDR_MAX - |addr| > 0 {
      buf.Write(Zeros(ADDR_MAX - |addr|));
    }
    assert PutU16(port % U16_SPACE) == PutU16(port);
    assert buf.contents == start + EncodeEntry(Entry(addrType, port % U16_SPACE, addr));
  }

  /** The loop over the hops; the first hop that cannot be written ends it. */
  method EncodeHops(lib: NetLib, buf: Buffer, hops: seq<Text>) returns (failure: Option<CodecError>)
    modifies buf
    ensures match ResolveAll(lib, hops)
      case Err(e) => failure == Some(e)
      case Ok(es) => failure == None && buf.contents == old(buf.contents) + EncodeEntries(es)
  {
    ghost var es: seq<Entry> := [];
    var i := 0;
    while i < |hops|
      invariant 0 <= i <= |hops|
      invariant ResolveAll(lib, hops[..i]) == Ok(es) && AllEncodable(es)
      invariant buf.contents == old(buf.contents) + EncodeEntries(es)
    {
      ResolveNext(lib, hops, i, es);
      failure := EncodeHop(lib, buf, hops[i]);
      if failure.Some? {
        return;
      }
      ghost var e := Resolve(lib, hops[i]).value;
      EncodeOneMore(es, e);
      es := es + [e];
      i := i + 1;
    }
    assert hops[..i] == hops;
    failure := None;
  }

  method Encode(lib: NetLib, id: SessionId, hops: seq<Text>, payload: seq<byte>) returns (r: Outcome<seq<byte>>)
    ensures r == EncodeText(lib, id, hops, payload)
  {
    var buf := new Buffer();
    buf.Write(PutU32(MAGIC));
    buf.Write([VERSION]);
    buf.Write([|hops| % 256]);
    buf.Write(PutU16(0));
    if id.NotUuid? {
      return Err(BadSessionId);
    }
    buf.Write(id.bytes);
    assert buf.contents == Header(id.bytes, |hops|);
    var failure := EncodeHops(lib, buf, hops);
    if failure.Some? {
      return Err(failure.value);
    }
    buf.Write(payload);
    r := Ok(buf.contents);
  }

  /** The first i hops are fine; the next one decides how far that goes. */
  lemma ResolveNext(lib: NetLib, hops: seq<Text>, i: nat, es: seq<Entry>)
    requires i < |hops| && ResolveAll(lib, hops[..i]) == Ok(es)
    ensures match Resolve(lib, hops[i])
      case Err(e) => ResolveAll(lib, hops) == Err(e)
      case Ok(e) => ResolveAll(lib, hops[..i + 1]) == Ok(es + [e])
  {
    assert hops[..i + 1][..i] == hops[..i];
    if Resolve(lib, hops[i]).Err? {
      ResolveFails(lib, hops, i + 1);
    }
  }

  lemma EncodeOneMore(es: seq<Entry>, e: Entry)
    requires AllEncodable(es) && Encodable(e)
    ensures EncodeEntries(es + [e]) == EncodeEntries(es) + EncodeEntry(e)
  {
    EncodeEntriesConcat(es, [e]);
    assert EncodeEntries([e]) == EncodeEntry(e) + EncodeEntries([]);
  }

  lemma {:induction false} ResolveFails(lib: NetLib, hops: seq<Text>, n: nat)
    requires n <= |hops| && ResolveAll(lib, hops[..n]).Err?
    ensures ResolveAll(lib, hops) == ResolveAll(lib, hops[..n])
  {
    if n == |hops| {
      assert hops[..n] == hops;
    } else {
      assert hops[..|hops| - 1][..n] == hops[..n];
      ResolveFails(lib, hops[..|hops| - 1], n);
    }
  }

  // ------------------------------------------------------------------ Decode

  /** Address type, port and address length. */
  method ReadFixed(r: Reader) returns (fixed: Option<(byte, seq<byte>, byte)>)
    modifies r
    ensures
      var rest := old(r.Rest());
      if |rest| < 4 then fixed == None
      else fixed == Some((rest[0], rest[1..3], rest[3])) && r.Rest() == rest[4..]
  {
    ghost var rest := r.Rest();
    var addrType := r.ReadFull(1);
    if addrType.None? {
      return None;
    }
    assert r.Rest() == rest[1..] && addrType.value == [rest[0]];
    var port := r.ReadFull(2);
    if port.None? {
      return None;
    }
    assert r.Rest() == rest[3..] && port.value == rest[1..3];
    var len := r.ReadFull(1);
    if len.None? {
      return None;
    }
    assert r.Rest() == rest[4..] && len.value == [rest[3]];
    fixed := Some((addrType.value[0], port.value, len.value[0]));
  }

  /** The fixed fields, the address, and the jump over the padding. */
  method ReadEntry(r: Reader) returns (raw: Option<Entry>)
    modifies r
    ensures
      var rest := old(r.Rest());
      if |rest| < 4 || |rest| - 4 < rest[3] as int then raw == None
      else
        var len: nat := rest[3];
        var skip: nat := if len < ADDR_MAX then ADDR_MAX - len else 0;
        && raw == Some(Entry(rest[0], GetU16(rest[1..3]), rest[4..4 + len]))
        && r.Rest() == (if skip <= |rest| - 4 - len then rest[4 + len..][skip..] else [])
  {
    ghost var rest := r.Rest();
    var fixed := ReadFixed(r);
    if fixed.None? {
      return None;
    }
    var (addrType, port, len) := fixed.value;
    var addr := r.ReadFull(len);
    if addr.None? {
      return None;
    }
    assert r.Rest() == rest[4 + len..] && addr.value == rest[4..4 + len];
    var padding := ADDR_MAX - len as int;
    if padding > 0 {
      r.Seek(padding);
    }
    raw := Some(Entry(addrType, GetU16(port), addr.value));
  }

  method DecodeHop(lib: NetLib, r: Reader) returns (hop: Outcome<Text>)
    modifies r
    ensures match DecodeEntry(old(r.Rest()))
      case Err(e) => hop == Err(e)
      case Ok((e, rest)) => hop == Ok(Render(lib, e)) && r.Rest() == rest
  {
    var raw := ReadEntry(r);
    if raw.None? {
      return Err(Truncated);
    }
    var Entry(kind, port, addr) := raw.value;
    var host;
    if kind == ADDR_IPV4 {
      if |addr| != 4 {
        return Err(BadLength);
      }
      host := lib.ipText(addr);
    } else if kind == ADDR_IPV6 {
      if |addr| != 16 {
        return Err(BadLength);
      }
      host := lib.ipText(addr);
    } else if kind == ADDR_DOMAIN {
      host := addr;
    } else {
      return Err(UnknownAddrType);
    }
    hop := Ok(lib.join(host, port));
  }

  /** The texts read so far, followed by those of the entries still to come. */
  function Rendered(lib: NetLib, texts: seq<Text>, r: Outcome<(seq<Entry>, seq<byte>)>)
    : Outcome<(seq<Text>, seq<byte>)>
  {
    match r
    case Err(e) => Err(e)
    case Ok((es, tail)) => Ok((texts + RenderAll(lib, es), tail))
  }

  /** want is what texts and the n entries at the cursor come to. */
  ghost predicate Comes(lib: NetLib, texts: seq<Text>, rest: seq<byte>, n: nat, want: Outcome<(seq<Text>, seq<byte>)>) {
    forall all :: all == DecodeEntries(rest, n) ==> Rendered(lib, texts, all) == want
  }

  lemma RenderedFirst(lib: NetLib, r: Outcome<(seq<Entry>, seq<byte>)>)
    ensures Rendered(lib, [], r) ==
      match r
      case Err(e) => Err(e)
      case Ok((es, tail)) => Ok((RenderAll(lib, es), tail))
  {
    if r.Ok? {
      assert [] + RenderAll(lib, r.value.0) == RenderAll(lib, r.value.0);
    }
  }

  lemma ComesLast(lib: NetLib, texts: seq<Text>, rest: seq<byte>, want: Outcome<(seq<Text>, seq<byte>)>)
    requires Comes(lib, texts, rest, 0, want)
    ensures want == Ok((texts, rest))
  {
    assert Rendered(lib, texts, DecodeEntries(rest, 0)) == want;
    assert RenderAll(lib, []) == [];
    assert texts + [] == texts;
  }

  function Prepend(e: Entry, r: Outcome<(seq<Entry>, seq<byte>)>): Outcome<(seq<Entry>, seq<byte>)> {
    match r
    case Err(err) => Err(err)
    case Ok((es, tail)) => Ok(([e] + es, tail))
  }

  lemma RenderedPrepend(lib: NetLib, texts: seq<Text>, e: Entry, r: Outcome<(seq<Entry>, seq<byte>)>)
    ensures Rendered(lib, texts, Prepend(e, r)) == Rendered(lib, texts + [Render(lib, e)], r)
  {
    if r.Ok? {
      var es := r.value.0;
      assert RenderAll(lib, [e] + es) == [Render(lib, e)] + RenderAll(lib, es);
      assert texts + ([Render(lib, e)] + RenderAll(lib, es)) == (texts + [Render(lib, e)]) + RenderAll(lib, es);
    }
  }

  lemma ComesNext(lib: NetLib, texts: seq<Text>, rest: seq<byte>, n: nat, want: Outcome<(seq<Text>, seq<byte>)>)
    requires n > 0 && Comes(lib, texts, rest, n, want)
    ensures match DecodeEntry(rest)
      case Err(e) => want == Err(e)
      case Ok((e, rest1)) => Comes(lib, texts + [Render(lib, e)], rest1, n - 1, want)
  {
    assert Rendered(lib, texts, DecodeEntries(rest, n)) == want;
    if DecodeEntry(rest).Ok? {
      var (e, rest1) := DecodeEntry(rest).value;
      assert DecodeEntries(rest, n) == Prepend(e, DecodeEntries(rest1, n - 1));
      RenderedPrepend(lib, texts, e, DecodeEntries(rest1, n - 1));
    }
  }

  method ReadHeader(r: Reader) returns (header: Outcome<(byte, seq<byte>)>)
    requires r.Rest() == r.data && |r.data| >= HEADER_SIZE
    modifies r
    ensures header ==
      if GetU32(r.data[..4]) != MAGIC then Err(InvalidMagic)
      else if r.data[4] != VERSION then Err(UnsupportedVersion)
      else Ok((r.data[5], r.data[8..24]))
    ensures header.Ok? ==> r.Rest() == r.data[HEADER_SIZE..]
  {
    var magic := r.ReadField(4, 0);
    if GetU32(magic.value) != MAGIC {
      return Err(InvalidMagic);
    }
    var version := r.ReadField(1, 4);
    if version.value[0] != VERSION {
      return Err(UnsupportedVersion);
    }
    var hopCount := r.ReadField(1, 5);
    var reserved := r.ReadField(2, 6);
    var sid := r.ReadField(16, 8);
    header := Ok((hopCount.value[0], sid.value));
  }

  /** One turn of the loop over the hops; texts are those read before it, n the number still to read. */
  method DecodeNext(lib: NetLib, r: Reader, texts: seq<Text>, ghost n: nat, ghost want: Outcome<(seq<Text>, seq<byte>)>)
    returns (more: Outcome<seq<Text>>)
    requires n > 0 && Comes(lib, texts, r.Rest(), n, want)
    modifies r
    ensures more.Err? ==> want == Err(more.error)
    ensures more.Ok? ==> Comes(lib, more.value, r.Rest(), n - 1, want)
  {
    ComesNext(lib, texts, r.Rest(), n, want);
    var hop := DecodeHop(lib, r);
    more := match hop case Err(e) => Err(e) case Ok(text) => Ok(texts + [text]);
  }

  method DecodeLoop(lib: NetLib, r: Reader, n: nat, ghost want: Outcome<(seq<Text>, seq<byte>)>)
    returns (hops: Outcome<seq<Text>>)
    requires Comes(lib, [], r.Rest(), n, want)
    modifies r
    ensures hops.Err? ==> want == Err(hops.error)
    ensures hops.Ok? ==> want == Ok((hops.value, r.Rest()))
  {
    var texts: seq<Text> := [];
    ghost var rest, left := r.Rest(), n;
    var i := 0;
    while i < n
      invariant i + left == n && r.Rest() == rest && Comes(lib, texts, rest, left, want)
    {
      var more := DecodeNext(lib, r, texts, left, want);
      if more.Err? {
        return Err(more.error);
      }
      texts, rest, left := more.value, r.Rest(), left - 1;
      i := i + 1;
    }
    ComesLast(lib, texts, rest, want);
    hops := Ok(texts);
  }

  method DecodeHops(lib: NetLib, r: Reader, n: nat) returns (hops: Outcome<seq<Text>>)
    modifies r
    ensures match DecodeEntries(old(r.Rest()), n)
      case Err(e) => hops == Err(e)
      case Ok((es, rest)) => hops == Ok(RenderAll(lib, es)) && r.Rest() == rest
  {
    ghost var all := DecodeEntries(r.Rest(), n);
    RenderedFirst(lib, all);
    hops := DecodeLoop(lib, r, n, Rendered(lib, [], all));
  }

  method Decode(lib: NetLib, data: seq<byte>) returns (m: Outcome<Message>)
    ensures m == DecodeText(lib, data)
  {
    if |data| < HEADER_SIZE {
      return Err(TooShort);
    }
    var r := new Reader(data);
    var header := ReadHeader(r);
    if header.Err? {
      return Err(header.error);
    }
    var (hopCount, sid) := header.value;
    var hops := DecodeHops(lib, r, hopCount);
    if hops.Err? {
      return Err(hops.error);
    }
    m := Ok(Message(sid, hops.value, r.Rest()));
  }

  // ------------------------------------------------------------------ round trips

  lemma {:induction false} ResolveAllAt(lib: NetLib, hops: seq<Text>, i: nat)
    requires i < |hops| && ResolveAll(lib, hops).Ok?
    ensures Resolve(lib, hops[i]) == Ok(ResolveAll(lib, hops).value[i])
  {
    if i < |hops| - 1 {
      ResolveAllAt(lib, hops[..|hops| - 1], i);
    }
  }

  lemma {:induction false} ResolveAllIntro(lib: NetLib, hops: seq<Text>, es: seq<Entry>)
    requires |hops| == |es| && forall i :: 0 <= i < |hops| ==> Resolve(lib, hops[i]) == Ok(es[i])
    ensures ResolveAll(lib, hops) == Ok(es)
  {
    if hops != [] {
      ResolveAllIntro(lib, hops[..|hops| - 1], es[..|es| - 1]);
      assert es[..|es| - 1] + [es[|es| - 1]] == es;
    }
  }

  /**
   A hop a caller can vouch for: it splits, its port is a port, host and port are joined the way Go
   joins them, and the host is a short enough name or an address in Go's own spelling.
   */
  predicate Canonical(lib: NetLib, hop: Text) {
    match lib.split(hop)
    case None => false
    case Some((host, port)) =>
      && 0 <= port < U16_SPACE && hop == lib.join(host, port)
      && (match lib.parseIP(host)
          case None => |host| <= ADDR_MAX
          case Some(ip) => host == lib.ipText(if IsMapped(ip) then ip[12..] else ip))
  }

  /** Such a hop, and no other, has the same text after a frame as before it. */
  lemma CanonicalExact(lib: NetLib, hop: Text)
    requires Lawful(lib)
    ensures Canonical(lib, hop) <==> Resolve(lib, hop).Ok? && Render(lib, Resolve(lib, hop).value) == hop
  {
    if Resolve(lib, hop).Ok? {
      var e := Resolve(lib, hop).value;
      assert lib.split(hop).Some?;
      if e.addrType == ADDR_DOMAIN {
        assert e.addr == lib.split(hop).value.0;
        assert lib.split(lib.join(e.addr, e.port)) == Some((e.addr, e.port));
      } else {
        assert lib.split(lib.join(lib.ipText(e.addr), e.port)) == Some((lib.ipText(e.addr), e.port));
      }
    }
  }

  /** encodeHop takes any number for a port and keeps its low 16 bits: the port survives exactly when it is one. */
  lemma PortKeptExact(lib: NetLib, hop: Text)
    requires Lawful(lib) && Resolve(lib, hop).Ok?
    ensures lib.split(hop).Some?
    ensures
      var (host, port) := lib.split(hop).value;
      var e := Resolve(lib, hop).value;
      && (e.port == port <==> 0 <= port < U16_SPACE)
      && lib.split(Render(lib, e)).Some? && lib.split(Render(lib, e)).value.1 == port % U16_SPACE
  {
    var e := Resolve(lib, hop).value;
    if e.addrType == ADDR_DOMAIN {
      assert e.addr == lib.split(hop).value.0;
      assert lib.split(lib.join(e.addr, e.port)) == Some((e.addr, e.port));
    } else {
      assert lib.split(lib.join(lib.ipText(e.addr), e.port)) == Some((lib.ipText(e.addr), e.port));
    }
  }

  /** A hop with a port out of range is accepted, and the node that decodes the frame dials another port. */
  lemma PortIsCut(lib: NetLib, sid: Ip, hop: Text, payload: seq<byte>)
    requires Lawful(lib) && Resolve(lib, hop).Ok? && !(0 <= lib.split(hop).value.1 < U16_SPACE)
    ensures EncodeText(lib, Uuid(sid), [hop], payload).Ok?
    ensures
      var m := DecodeText(lib, EncodeText(lib, Uuid(sid), [hop], payload).value);
      && m.Ok? && |m.value.hops| == 1 && lib.split(m.value.hops[0]).Some?
      && lib.split(m.value.hops[0]).value.1 == lib.split(hop).value.1 % U16_SPACE != lib.split(hop).value.1
  {
    var e := Resolve(lib, hop).value;
    PortKeptExact(lib, hop);
    ResolveAllIntro(lib, [hop], [e]);
    FrameRoundTripExact(sid, [e], payload);
  }

  lemma RenderedCanonical(lib: NetLib, hops: seq<Text>, es: seq<Entry>)
    requires Lawful(lib) && ResolveAll(lib, hops) == Ok(es)
    ensures RenderAll(lib, es) == hops <==> forall i :: 0 <= i < |hops| ==> Canonical(lib, hops[i])
  {
    forall i | 0 <= i < |hops|
      ensures Canonical(lib, hops[i]) <==> RenderAll(lib, es)[i] == hops[i]
    {
      ResolveAllAt(lib, hops, i);
      CanonicalExact(lib, hops[i]);
    }
  }

  /** Decode undoes Encode exactly for at most 255 hops whose text is canonical. */
  lemma TextRoundTrip(lib: NetLib, sid: Ip, hops: seq<Text>, payload: seq<byte>)
    requires Lawful(lib) && ResolveAll(lib, hops).Ok?
    ensures EncodeText(lib, Uuid(sid), hops, payload).Ok?
    ensures
      var f := EncodeText(lib, Uuid(sid), hops, payload).value;
      && |f| == HEADER_SIZE + ENTRY_SIZE * |hops| + |payload|
      && (|hops| <= 255 && payload == [] ==> |f| < U16_SPACE)
      && (DecodeText(lib, f) == Ok(Message(sid, hops, payload)) <==>
          |hops| <= 255 && forall i :: 0 <= i < |hops| ==> Canonical(lib, hops[i]))
  {
    var es := ResolveAll(lib, hops).value;
    RenderedCanonical(lib, hops, es);
    FrameRoundTrip(sid, es, payload);
    if |hops| <= 255 {
      FrameRoundTripExact(sid, es, payload);
    } else {
      assert |RenderAll(lib, es[..|es| % 256])| < |hops|;
    }
  }

  /** Bytes of a frame that decoding does not look at: the reserved field and hop padding. */
  predicate Ignored(es: seq<Entry>, i: nat) {
    i == 6 || i == 7 || (i >= HEADER_SIZE && Padding(es, i - HEADER_SIZE))
  }

  /**
   Re-encoding what Decode accepted keeps every byte but the reserved field and the hop padding, when
   no address is longer than an entry can hold; the input may end inside the last padding.
   */
  lemma FrameCanonical(data: seq<byte>, d: Decoded)
    requires DecodeFrame(data) == Ok(d) && ShortAddresses(d.entries)
    ensures |d.sid| == 16 && AllEncodable(d.entries) && |d.entries| == data[5] as int
    ensures DecodeFrame(EncodeFrame(d.sid, d.entries, d.payload)) == Ok(d)
    ensures
      var enc := EncodeFrame(d.sid, d.entries, d.payload);
      && |data| <= |enc| && (|data| < |enc| ==> d.payload == [])
      && (forall i :: 0 <= i < |data| && !Ignored(d.entries, i) ==> data[i] == enc[i])
      && (forall i :: |data| <= i < |enc| ==> Ignored(d.entries, i))
  {
    EntriesCanonical(data[HEADER_SIZE..], data[5]);
    FrameRoundTripExact(d.sid, d.entries, d.payload);
    HeaderBytes(data, d);
    BodyBytes(data, d);
  }

  lemma BodyBytes(data: seq<byte>, d: Decoded)
    requires |data| >= HEADER_SIZE && AllEncodable(d.entries) && |d.sid| == 16
    requires SameButPadding(d.entries, data[HEADER_SIZE..], EncodeEntries(d.entries) + d.payload)
    requires forall i :: 0 <= i < HEADER_SIZE && i != 6 && i != 7 ==> data[i] == Header(d.sid, |d.entries|)[i]
    ensures
      var enc := EncodeFrame(d.sid, d.entries, d.payload);
      && |data| <= |enc|
      && (forall i :: 0 <= i < |data| && !Ignored(d.entries, i) ==> data[i] == enc[i])
      && (forall i :: |data| <= i < |enc| ==> Ignored(d.entries, i))
  {
    var h, full := Header(d.sid, |d.entries|), EncodeEntries(d.entries) + d.payload;
    var body := data[HEADER_SIZE..];
    var enc := EncodeFrame(d.sid, d.entries, d.payload);
    assert enc == h + full;
    forall i | 0 <= i < |data| && !Ignored(d.entries, i)
      ensures data[i] == enc[i]
    {
      if i >= HEADER_SIZE {
        assert data[i] == body[i - HEADER_SIZE] && enc[i] == full[i - HEADER_SIZE];
      } else {
        assert enc[i] == h[i];
      }
    }
    forall i | |data| <= i < |enc|
      ensures Ignored(d.entries, i)
    {
      assert |body| <= i - HEADER_SIZE < |full|;
    }
  }

  lemma HeaderBytes(data: seq<byte>, d: Decoded)
    requires DecodeFrame(data) == Ok(d) && |d.entries| == data[5] as int
    ensures |Header(d.sid, |d.entries|)| == HEADER_SIZE
    ensures forall i :: 0 <= i < HEADER_SIZE && i != 6 && i != 7 ==> data[i] == Header(d.sid, |d.entries|)[i]
  {
    var h := Header(d.sid, |d.entries|);
    U32Canonical(data[..4]);
    assert h[..4] == data[..4] && h[8..24] == data[8..24];
    forall i | 0 <= i < HEADER_SIZE && i != 6 && i != 7
      ensures data[i] == h[i]
    {
      if i < 4 {
        assert data[i] == data[..4][i];
      } else if i >= 8 {
        assert data[i] == data[8..24][i - 8] && h[i] == h[8..24][i - 8];
      }
    }
  }

  // ------------------------------------------------------------------ what text does to an entry

  /** The entry is written in the one way Encode would write it. */
  predicate AsEncoded(lib: NetLib, e: Entry)
    requires FitsType(e)
  {
    || e.addrType == ADDR_IPV4
    || (e.addrType == ADDR_IPV6 && !IsMapped(e.addr))
    || (e.addrType == ADDR_DOMAIN && |e.addr| <= ADDR_MAX && lib.parseIP(e.addr) == None
        && lib.split(lib.join(e.addr, e.port)) == Some((e.addr, e.port)))
  }

  /** Encoding the text of a decoded hop gives back the same entry exactly then. */
  lemma ReencodeExact(lib: NetLib, e: Entry)
    requires Lawful(lib) && FitsType(e)
    ensures Resolve(lib, Render(lib, e)) == Ok(e) <==> AsEncoded(lib, e)
  {
    if e.addrType == ADDR_IPV4 {
      assert Mapped(e.addr)[12..] == e.addr && Mapped(e.addr)[..12] == MappedPrefix();
    }
  }

  /**
   Encode undoes Decode, up to the bytes FrameCanonical lists, exactly for the frames whose every
   entry is written as Encode writes it.
   */
  lemma FrameReencodeExact(lib: NetLib, data: seq<byte>, d: Decoded)
    requires Lawful(lib) && DecodeFrame(data) == Ok(d) && ShortAddresses(d.entries)
    ensures |d.sid| == 16 && AllEncodable(d.entries) && DecodeText(lib, data).Ok?
    ensures
      EncodeText(lib, Uuid(d.sid), DecodeText(lib, data).value.hops, d.payload)
        == Ok(EncodeFrame(d.sid, d.entries, d.payload))
      <==> forall i :: 0 <= i < |d.entries| ==> AsEncoded(lib, d.entries[i])
  {
    FrameCanonical(data, d);
    TextsResolve(lib, d.entries);
    var resolved := ResolveAll(lib, RenderAll(lib, d.entries));
    if resolved.Ok? {
      SameFrameSameEntries(d.sid, resolved.value, d.entries, d.payload);
    }
  }

  lemma TextsResolve(lib: NetLib, es: seq<Entry>)
    requires Lawful(lib) && AllEncodable(es)
    ensures ResolveAll(lib, RenderAll(lib, es)) == Ok(es) <==> forall i :: 0 <= i < |es| ==> AsEncoded(lib, es[i])
  {
    var texts := RenderAll(lib, es);
    forall i | 0 <= i < |es|
      ensures Resolve(lib, texts[i]) == Ok(es[i]) <==> AsEncoded(lib, es[i])
    {
      ReencodeExact(lib, es[i]);
    }
    if ResolveAll(lib, texts) == Ok(es) {
      forall i | 0 <= i < |es|
        ensures AsEncoded(lib, es[i])
      {
        ResolveAllAt(lib, texts, i);
      }
    } else if forall i :: 0 <= i < |es| ==> AsEncoded(lib, es[i]) {
      ResolveAllIntro(lib, texts, es);
    }
  }

  /** A frame determines its entries, once their number is known. */
  lemma SameFrameSameEntries(sid: seq<byte>, a: seq<Entry>, b: seq<Entry>, payload: seq<byte>)
    requires |sid| == 16 && AllEncodable(a) && AllEncodable(b) && |a| == |b| <= 255
    ensures EncodeFrame(sid, a, payload) == EncodeFrame(sid, b, payload) <==> a == b
  {
    FrameRoundTripExact(sid, a, payload);
    FrameRoundTripExact(sid, b, payload);
  }

  /** A frame of one hop, decoded and encoded again. */
  lemma OneHopReencoded(lib: NetLib, sid: Ip, e: Entry, e': Entry)
    requires Encodable(e) && Encodable(e') && Resolve(lib, Render(lib, e)) == Ok(e')
    ensures
      var data := EncodeFrame(sid, [e], []);
      && DecodeFrame(data) == Ok(Decoded(sid, [e], [])) && DecodeText(lib, data).Ok?
      && EncodeText(lib, Uuid(sid), DecodeText(lib, data).value.hops, []) == Ok(EncodeFrame(sid, [e'], []))
      && (EncodeFrame(sid, [e'], []) == data <==> [e'] == [e])
  {
    FrameRoundTripExact(sid, [e], []);
    ResolveAllIntro(lib, RenderAll(lib, [e]), [e']);
    SameFrameSameEntries(sid, [e'], [e], []);
  }

  /** An IPv4 address in IPv6 clothing comes back as an IPv4 entry: another address type and length. */
  lemma MappedEntryChanges(lib: NetLib, sid: Ip, port: nat, b: seq<byte>)
    requires Lawful(lib) && port < U16_SPACE && |b| == 4
    ensures
      var e, e' := Entry(ADDR_IPV6, port, Mapped(b)), Entry(ADDR_IPV4, port, b);
      var data := EncodeFrame(sid, [e], []);
      && DecodeFrame(data) == Ok(Decoded(sid, [e], [])) && DecodeText(lib, data).Ok?
      && EncodeText(lib, Uuid(sid), DecodeText(lib, data).value.hops, []) == Ok(EncodeFrame(sid, [e'], []))
      && EncodeFrame(sid, [e'], []) != data
  {
    var e, e' := Entry(ADDR_IPV6, port, Mapped(b)), Entry(ADDR_IPV4, port, b);
    assert Mapped(b)[12..] == b && Mapped(b)[..12] == MappedPrefix();
    OneHopReencoded(lib, sid, e, e');
    assert [e'][0] != [e][0];
  }

  /** After one pass through Encode, entries and text no longer change each other. */
  lemma ResolveStable(lib: NetLib, hop: Text)
    requires Lawful(lib) && Resolve(lib, hop).Ok?
    ensures Resolve(lib, Render(lib, Resolve(lib, hop).value)) == Resolve(lib, hop)
  {
    var e := Resolve(lib, hop).value;
    ReencodeExact(lib, e);
    if e.addrType == ADDR_DOMAIN {
      assert lib.split(hop).Some? && lib.split(hop).value.0 == e.addr;
    }
  }
}
