/** A library that keeps the laws of NetLib, and a hop whose port it lets through. */
module SampleNets {
  import opened Bytes
  import opened NPChainCodec
  import opened NPChainFrames

  /** Four bytes of port behind the host; an address is its sixteen bytes. */
  function Sample(): NetLib {
    NetLib(
      (t: Text) => if |t| < 4 then None else Some((t[..|t| - 4], GetU32(t[|t| - 4..]))),
      (host: Text, port: nat) => host + PutU32(port),
      (host: Text) => if |host| == 16 then Some(host) else None,
      (b: seq<byte>) => if |b| == 4 then Mapped(b) else b)
  }

  lemma JoinSplits(host: Text, port: nat)
    requires port < U32_SPACE
    ensures Sample().split(Sample().join(host, port)) == Some((host, port))
  {
    U32RoundTrip(port);
    SplitsBehind(host, PutU32(port));
  }

  lemma SplitsBehind(host: Text, bs: seq<byte>)
    requires |bs| == 4
    ensures Sample().split(host + bs) == Some((host, GetU32(bs)))
  {
    var t := host + bs;
    assert t[..|t| - 4] == host && t[|t| - 4..] == bs;
  }

  /** The laws can be kept: what is proved under them is not about nothing. */
  lemma SampleIsLawful()
    ensures Lawful(Sample())
  {
    var lib := Sample();
    forall host: Text, port: nat | port < U16_SPACE
      ensures lib.split(lib.join(host, port)) == Some((host, port))
    {
      JoinSplits(host, port);
    }
  }

  lemma OneHop(lib: NetLib, sid: Ip, hop: Text, e: Entry)
    requires Resolve(lib, hop) == Ok(e)
    ensures EncodeText(lib, Uuid(sid), [hop], []).Ok?
    ensures DecodeText(lib, EncodeText(lib, Uuid(sid), [hop], []).value) == Ok(Message(sid, [Render(lib, e)], []))
  {
    ResolveAllIntro(lib, [hop], [e]);
    FrameRoundTripExact(sid, [e], []);
    assert RenderAll(lib, [e]) == [Render(lib, e)];
  }

  lemma LongPortResolves(lib: NetLib, host: Text)
    requires lib == Sample() && |host| <= ADDR_MAX && |host| != 16
    ensures lib.split(lib.join(host, 70000)) == Some((host, 70000))
    ensures Resolve(lib, lib.join(host, 70000)) == Ok(Entry(ADDR_DOMAIN, 4464, host))
  {
    JoinSplits(host, 70000);
  }

  /** Port 70000 goes into the frame, and port 4464 comes out of it. */
  lemma Port70000Becomes4464(lib: NetLib, sid: Ip, host: Text)
    requires lib == Sample() && |host| <= ADDR_MAX && |host| != 16
    ensures
      var hop := lib.join(host, 70000);
      && lib.split(hop) == Some((host, 70000)) && !Canonical(lib, hop)
      && EncodeText(lib, Uuid(sid), [hop], []).Ok?
      && DecodeText(lib, EncodeText(lib, Uuid(sid), [hop], []).value)
         == Ok(Message(sid, [lib.join(host, 4464)], []))
  {
    LongPortResolves(lib, host);
    OneHop(lib, sid, lib.join(host, 70000), Entry(ADDR_DOMAIN, 4464, host));
  }
}
