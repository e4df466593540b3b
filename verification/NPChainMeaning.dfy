/** What Encode and Decode mean, in bytes and in the library's terms, for every hop and every frame. */
module NPChainMeaning {
  import opened Bytes
  import opened NPChainCodec
  import opened NPChainFrames

  /** The host is an address, or a name that fits an entry. */
  predicate Fits(lib: NetLib, hop: Text) {
    match lib.split(hop)
    case None => false
    case Some((host, _)) => lib.parseIP(host).Some? || |host| <= 30
  }

  lemma ResolveFits(lib: NetLib, hop: Text)
    ensures Resolve(lib, hop).Ok? <==> Fits(lib, hop)
    ensures Resolve(lib, hop).Err? ==>
      Resolve(lib, hop).error == if lib.split(hop).None? then BadHop else AddressTooLong
  {
  }

  lemma {:induction false} ResolveAllFits(lib: NetLib, hops: seq<Text>)
    ensures ResolveAll(lib, hops).Ok? <==> forall i :: 0 <= i < |hops| ==> Fits(lib, hops[i])
  {
    if hops != [] {
      ResolveAllFits(lib, hops[..|hops| - 1]);
      ResolveFits(lib, hops[|hops| - 1]);
    }
  }

  /** Encode succeeds exactly for a UUID and hops that all split, each with an address or at most 30 bytes of name. */
  lemma EncodeSucceedsExact(lib: NetLib, id: SessionId, hops: seq<Text>, payload: seq<byte>)
    ensures EncodeText(lib, id, hops, payload).Ok? <==>
      && id.Uuid?
      && (forall i :: 0 <= i < |hops| ==>
            match lib.split(hops[i])
            case None => false
            case Some((host, _)) => lib.parseIP(host).Some? || |host| <= 30)
  {
    ResolveAllFits(lib, hops);
    assert (forall i :: 0 <= i < |hops| ==> Fits(lib, hops[i])) <==>
      (forall i :: 0 <= i < |hops| ==>
         match lib.split(hops[i])
         case None => false
         case Some((host, _)) => lib.parseIP(host).Some? || |host| <= 30);
  }

  /** Otherwise it says what is wrong with the session id, or else with the first hop there is something wrong with. */
  lemma EncodeErrorExact(lib: NetLib, id: SessionId, hops: seq<Text>, payload: seq<byte>, i: nat)
    ensures id.NotUuid? ==> EncodeText(lib, id, hops, payload) == Err(BadSessionId)
    ensures id.Uuid? && i < |hops| && !Fits(lib, hops[i]) && (forall j :: 0 <= j < i ==> Fits(lib, hops[j])) ==>
      EncodeText(lib, id, hops, payload) == Err(if lib.split(hops[i]).None? then BadHop else AddressTooLong)
  {
    if id.Uuid? && i < |hops| && !Fits(lib, hops[i]) && forall j :: 0 <= j < i ==> Fits(lib, hops[j]) {
      ResolveAllFits(lib, hops[..i]);
      ResolveFits(lib, hops[i]);
      ResolveNext(lib, hops, i, ResolveAll(lib, hops[..i]).value);
    }
  }

  // ------------------------------------------------------------------ what arrives

  /** The hop that comes out stands for what went in: the same address or name, and the port's low 16 bits. */
  ghost predicate SameHop(lib: NetLib, hop: Text, hop': Text) {
    && lib.split(hop).Some? && lib.split(hop').Some?
    && var (host, port) := lib.split(hop).value;
       var (host', port') := lib.split(hop').value;
       && port' == port % 65536
       && (if lib.parseIP(host).Some? then lib.parseIP(host') == lib.parseIP(host) else host' == host)
  }

  lemma RenderedIsSame(lib: NetLib, hop: Text)
    requires Lawful(lib) && Resolve(lib, hop).Ok?
    ensures SameHop(lib, hop, Render(lib, Resolve(lib, hop).value))
  {
    var e := Resolve(lib, hop).value;
    var (host, port) := lib.split(hop).value;
    if e.addrType == ADDR_DOMAIN {
      assert lib.split(lib.join(host, e.port)) == Some((host, e.port));
    } else {
      var ip := lib.parseIP(host).value;
      assert lib.split(lib.join(lib.ipText(e.addr), e.port)) == Some((lib.ipText(e.addr), e.port));
      if IsMapped(ip) {
        assert Mapped(ip[12..]) == ip[..12] + ip[12..] == ip;
      }
    }
  }

  /** Decoding what was encoded gives back session id, payload, and every hop as SameHop says. */
  lemma EncodedMeans(lib: NetLib, sid: Ip, hops: seq<Text>, payload: seq<byte>)
    requires Lawful(lib) && |hops| <= 255 && EncodeText(lib, Uuid(sid), hops, payload).Ok?
    ensures
      var m := DecodeText(lib, EncodeText(lib, Uuid(sid), hops, payload).value);
      && m.Ok? && m.value.sid == sid && m.value.payload == payload && |m.value.hops| == |hops|
      && (forall i :: 0 <= i < |hops| ==>
        && lib.split(hops[i]).Some? && lib.split(m.value.hops[i]).Some?
        && var (host, port) := lib.split(hops[i]).value;
           var (host', port') := lib.split(m.value.hops[i]).value;
           && port' == port % 65536
           && (if lib.parseIP(host).Some? then lib.parseIP(host') == lib.parseIP(host) else host' == host))
  {
    var es := ResolveAll(lib, hops).value;
    FrameRoundTripExact(sid, es, payload);
    forall i | 0 <= i < |hops|
      ensures SameHop(lib, hops[i], RenderAll(lib, es)[i])
    {
      ResolveAllAt(lib, hops, i);
      RenderedIsSame(lib, hops[i]);
    }
  }

  // ------------------------------------------------------------------ bytes

  lemma {:induction false} EntryAt(es: seq<Entry>, i: nat)
    requires AllEncodable(es) && i < |es|
    ensures 34 * i + 34 <= |EncodeEntries(es)| && EncodeEntries(es)[34 * i..34 * i + 34] == EncodeEntry(es[i])
  {
    if i > 0 {
      EntryAt(es[1..], i - 1);
      var rest := EncodeEntries(es[1..]);
      assert EncodeEntries(es)[34..] == rest;
      assert EncodeEntries(es)[34 * i..34 * i + 34] == rest[34 * (i - 1)..34 * (i - 1) + 34];
    }
  }

  /** The 34 bytes of a hop: type, port, length, address, zeros. */
  predicate HopBytes(lib: NetLib, bs: seq<byte>, hop: Text) {
    && |bs| == 34 && lib.split(hop).Some?
    && var (host, port) := lib.split(hop).value;
       && 256 * bs[1] as int + bs[2] as int == port % 65536
       && 4 + bs[3] as int <= 34
       && (forall j :: 4 + bs[3] as int <= j < 34 ==> bs[j] == 0)
       && match lib.parseIP(host)
          case None => bs[0] == 3 && bs[3] as int == |host| && bs[4..4 + |host|] == host
          case Some(ip) =>
            if ip[..12] == [0, 0, 0, 0, 0, 0, 0, 0, 0, 0, 255, 255] then
              bs[0] == 1 && bs[3] == 4 && bs[4..8] == ip[12..]
            else bs[0] == 2 && bs[3] == 16 && bs[4..20] == ip
  }

  lemma EntryBytes(lib: NetLib, hop: Text)
    requires Resolve(lib, hop).Ok?
    ensures HopBytes(lib, EncodeEntry(Resolve(lib, hop).value), hop)
  {
    var e := Resolve(lib, hop).value;
    var bs := EncodeEntry(e);
    U16RoundTrip(e.port);
    assert bs[1..3] == PutU16(e.port) && bs[1] == bs[1..3][0] && bs[2] == bs[1..3][1];
    assert bs[4..4 + |e.addr|] == e.addr;
    assert bs[4 + |e.addr|..] == Zeros(30 - |e.addr|);
    forall j | 4 + |e.addr| <= j < 34
      ensures bs[j] == 0
    {
      assert bs[j] == bs[4 + |e.addr|..][j - 4 - |e.addr|];
    }
    assert MappedPrefix() == [0, 0, 0, 0, 0, 0, 0, 0, 0, 0, 255, 255];
  }

  /** Every byte of a frame. */
  lemma FrameBytes(lib: NetLib, sid: Ip, hops: seq<Text>, payload: seq<byte>)
    requires EncodeText(lib, Uuid(sid), hops, payload).Ok?
    ensures
      var f := EncodeText(lib, Uuid(sid), hops, payload).value;
      && |f| == 24 + 34 * |hops| + |payload|
      && f[..8] == [0x4E, 0x50, 0x43, 0x32, 1, |hops| % 256, 0, 0] && f[8..24] == sid
      && (forall i :: 0 <= i < |hops| ==> HopBytes(lib, f[24 + 34 * i..][..34], hops[i]))
      && f[24 + 34 * |hops|..] == payload
  {
    var es := ResolveAll(lib, hops).value;
    var f := EncodeFrame(sid, es, payload);
    var h := Header(sid, |es|);
    HeaderIs(sid, |es|);
    assert f[..8] == h[..8] && f[8..24] == h[8..24];
    forall i | 0 <= i < |hops|
      ensures HopBytes(lib, f[24 + 34 * i..][..34], hops[i])
    {
      ResolveAllAt(lib, hops, i);
      EntryAt(es, i);
      assert f[24 + 34 * i..][..34] == EncodeEntries(es)[34 * i..34 * i + 34];
      EntryBytes(lib, hops[i]);
    }
  }

  lemma HeaderIs(sid: seq<byte>, n: nat)
    requires |sid| == 16
    ensures
      var h := Header(sid, n);
      |h| == 24 && h[..8] == [0x4E, 0x50, 0x43, 0x32, 1, n % 256, 0, 0] && h[8..24] == sid
  {
    assert PutU32(MAGIC) == [0x4E, 0x50, 0x43, 0x32];
    assert PutU16(0) == [0, 0];
  }

  // ------------------------------------------------------------------ what Decode accepts

  /** One entry is read exactly from bytes laid out like this, whatever the padding holds or however short it is. */
  lemma DecodeEntryExact(rest: seq<byte>, e: Entry, tail: seq<byte>)
    ensures DecodeEntry(rest) == Ok((e, tail)) <==>
      && |rest| >= 4 && 4 + rest[3] as int <= |rest|
      && e.addrType == rest[0] && e.port == 256 * rest[1] as int + rest[2] as int
      && e.addr == rest[4..4 + rest[3] as int]
      && ((rest[0] == 1 && rest[3] == 4) || (rest[0] == 2 && rest[3] == 16) || rest[0] == 3)
      && tail ==
         (if rest[3] <= 30 then (if 34 <= |rest| then rest[34..] else []) else rest[4 + rest[3] as int..])
  {
    if |rest| >= 4 && 4 + rest[3] as int <= |rest| {
      var len: nat := rest[3];
      assert rest[1..3][0] == rest[1] && rest[1..3][1] == rest[2];
      var after := rest[4 + len..];
      if len <= 30 && 34 <= |rest| {
        assert after[30 - len..] == rest[34..];
      } else if len > 30 {
        assert after[0..] == after;
      }
    }
  }

  /** The header is judged by its length, its four magic bytes and its version, in this order, and by nothing else. */
  lemma DecodeHeaderExact(data: seq<byte>)
    ensures DecodeFrame(data) == Err(TooShort) <==> |data| < 24
    ensures DecodeFrame(data) == Err(InvalidMagic) <==> |data| >= 24 && data[..4] != [0x4E, 0x50, 0x43, 0x32]
    ensures DecodeFrame(data) == Err(UnsupportedVersion) <==>
      |data| >= 24 && data[..4] == [0x4E, 0x50, 0x43, 0x32] && data[4] != 1
    ensures |data| >= 24 && data[..4] == [0x4E, 0x50, 0x43, 0x32] && data[4] == 1 ==>
      match DecodeEntries(data[24..], data[5])
      case Err(e) => DecodeFrame(data) == Err(e)
      case Ok((es, payload)) => DecodeFrame(data) == Ok(Decoded(data[8..24], es, payload))
  {
    if |data| >= 24 {
      MagicBytes(data[..4]);
      EntryErrors(data[24..], data[5]);
    }
  }

  lemma MagicBytes(bs: seq<byte>)
    requires |bs| == 4
    ensures GetU32(bs) == MAGIC <==> bs == [0x4E, 0x50, 0x43, 0x32]
  {
    U32Canonical(bs);
    U32RoundTrip(MAGIC);
    assert PutU32(MAGIC) == [0x4E, 0x50, 0x43, 0x32];
  }

  lemma {:induction false} EntryErrors(rest: seq<byte>, n: nat)
    ensures match DecodeEntries(rest, n)
      case Ok(_) => true
      case Err(e) => e in {Truncated, BadLength, UnknownAddrType}
    decreases n
  {
    if n > 0 && DecodeEntry(rest).Ok? {
      EntryErrors(DecodeEntry(rest).value.1, n - 1);
    }
  }
}
