/** One node of a relay path: read a frame, split off the target, put it back and send the frame on. */
module Relay {
  import opened Bytes
  import opened Streams
  import opened NPChainCodec
  import opened NPChainFrames

  datatype SessionMeta = SessionMeta(id: SessionId, target: Text, hopChain: seq<Text>)

  /** A frame as it travels: two length bytes, then the frame. */
  function Prefixed(frame: seq<byte>): seq<byte> {
    PutU16(|frame|) + frame
  }

  function Split(m: Message): SessionMeta
    requires |m.sid| == 16
  {
    if m.hops == [] then SessionMeta(Uuid(m.sid), [], [])
    else SessionMeta(Uuid(m.sid), m.hops[0], m.hops[1..])
  }

  lemma DecodedSid(lib: NetLib, data: seq<byte>)
    ensures DecodeText(lib, data).Ok? ==> |DecodeText(lib, data).value.sid| == 16
  {
  }

  /** The metadata a node routes on, for what it reads from a connection. */
  function Admit(lib: NetLib, stream: seq<byte>): Outcome<SessionMeta> {
    if |stream| < 2 then Err(NPChainCodec.Truncated)
    else
      var len := GetU16(stream[..2]);
      if len < HEADER_SIZE then Err(TooShort)
      else if |stream| - 2 < len then Err(NPChainCodec.Truncated)
      else
        match DecodeText(lib, stream[2..2 + len])
        case Err(e) => Err(e)
        case Ok(m) => DecodedSid(lib, stream[2..2 + len]); Ok(Split(m))
  }

  /** What an np-chain outbound writes for that metadata. */
  function Forward(lib: NetLib, meta: SessionMeta): Outcome<seq<byte>> {
    match EncodeText(lib, meta.id, [meta.target] + meta.hopChain, [])
    case Err(e) => Err(e)
    case Ok(frame) => Ok(Prefixed(frame))
  }

  function RelayOnce(lib: NetLib, stream: seq<byte>): Outcome<seq<byte>> {
    match Admit(lib, stream)
    case Err(e) => Err(e)
    case Ok(meta) => Forward(lib, meta)
  }

  /** What leaves the n-th relay of a path. */
  function RelayPath(lib: NetLib, stream: seq<byte>, n: nat): Outcome<seq<byte>> {
    if n == 0 then Ok(stream)
    else
      match RelayPath(lib, stream, n - 1)
      case Err(e) => Err(e)
      case Ok(w) => RelayOnce(lib, w)
  }

  // ------------------------------------------------------------------ the code

  /** handleNPChainStream, up to the routing decision. */
  method ReadStream(lib: NetLib, conn: Reader) returns (meta: Outcome<SessionMeta>)
    requires conn.Rest() == conn.data
    modifies conn
    ensures meta == Admit(lib, conn.data)
  {
    var lenBuf := conn.ReadField(2, 0);
    if lenBuf.None? {
      return Err(NPChainCodec.Truncated);
    }
    var frameLen := GetU16(lenBuf.value);
    if frameLen < HEADER_SIZE {
      return Err(TooShort);
    }
    var frame := conn.ReadField(frameLen, 2);
    if frame.None? {
      return Err(NPChainCodec.Truncated);
    }
    var m := Decode(lib, frame.value);
    if m.Err? {
      return Err(m.error);
    }
    DecodedSid(lib, frame.value);
    var target, hopChain := [], m.value.hops;
    if |m.value.hops| > 0 {
      target := m.value.hops[0];
      hopChain := m.value.hops[1..];
    }
    meta := Ok(SessionMeta(Uuid(m.value.sid), target, hopChain));
  }

  /** NPChainOutbound.Dial, once connected. */
  method Dial(lib: NetLib, meta: SessionMeta, conn: Buffer) returns (failure: Option<CodecError>)
    modifies conn
    ensures match Forward(lib, meta)
      case Err(e) => failure == Some(e) && conn.contents == old(conn.contents)
      case Ok(bytes) => failure == None && conn.contents == old(conn.contents) + bytes
  {
    var frame := Encode(lib, meta.id, [meta.target] + meta.hopChain, []);
    if frame.Err? {
      return Some(frame.error);
    }
    conn.Write(PutU16(|frame.value|));
    conn.Write(frame.value);
    failure := None;
  }

  /**
   A node goes by two length bytes, refuses less than a header, and takes the first hop for its target and
   the others for the chain to go on with; a frame without hops leaves both empty.
   */
  lemma AdmitExact(lib: NetLib, stream: seq<byte>)
    ensures
      if |stream| < 2 then Admit(lib, stream) == Err(NPChainCodec.Truncated)
      else
        var len := 256 * stream[0] as int + stream[1] as int;
        if len < 24 then Admit(lib, stream) == Err(TooShort)
        else if |stream| - 2 < len then Admit(lib, stream) == Err(NPChainCodec.Truncated)
        else
          match DecodeText(lib, stream[2..2 + len])
          case Err(e) => Admit(lib, stream) == Err(e)
          case Ok(m) =>
            && Admit(lib, stream).Ok? && |m.sid| == 16 && Admit(lib, stream).value.id == Uuid(m.sid)
            && (m.hops == [] ==> Admit(lib, stream).value.target == [] && Admit(lib, stream).value.hopChain == [])
            && (m.hops != [] ==>
                  [Admit(lib, stream).value.target] + Admit(lib, stream).value.hopChain == m.hops)
  {
  }

  /** It sends the length in two bytes, high byte first, and the frame of target and chain without a payload. */
  lemma ForwardExact(lib: NetLib, meta: SessionMeta)
    ensures match EncodeText(lib, meta.id, [meta.target] + meta.hopChain, [])
      case Err(e) => Forward(lib, meta) == Err(e)
      case Ok(f) => Forward(lib, meta) == Ok([|f| / 256 % 256, |f| % 256] + f)
  {
    var r := EncodeText(lib, meta.id, [meta.target] + meta.hopChain, []);
    if r.Ok? {
      PrefixBytes(r.value);
    }
  }

  lemma PrefixBytes(f: seq<byte>)
    ensures Prefixed(f) == [|f| / 256 % 256, |f| % 256] + f
  {
    U16Bytes(|f|);
  }

  // ------------------------------------------------------------------ identity along a path

  lemma UnprefixReads(f: seq<byte>, more: seq<byte>)
    requires |f| < U16_SPACE
    ensures
      var stream := Prefixed(f) + more;
      |stream| >= 2 + |f| && GetU16(stream[..2]) == |f| && stream[2..2 + |f|] == f
  {
    var stream := Prefixed(f) + more;
    assert stream[..2] == PutU16(|f|);
    U16RoundTrip(|f|);
  }

  /** What Encode makes of 1 to 255 hops comes back as the same entries, whatever follows it. */
  lemma AdmitEncoded(lib: NetLib, sid: Ip, es: seq<Entry>, more: seq<byte>)
    requires 1 <= |es| <= 255 && AllEncodable(es)
    ensures
      var hops := RenderAll(lib, es);
      Admit(lib, Prefixed(EncodeFrame(sid, es, [])) + more) == Ok(SessionMeta(Uuid(sid), hops[0], hops[1..]))
  {
    var f := EncodeFrame(sid, es, []);
    UnprefixReads(f, more);
    FrameRoundTripExact(sid, es, []);
  }

  lemma ForwardStable(lib: NetLib, sid: Ip, hops: seq<Text>)
    requires Lawful(lib) && ResolveAll(lib, hops).Ok?
    ensures ResolveAll(lib, RenderAll(lib, ResolveAll(lib, hops).value)) == ResolveAll(lib, hops)
  {
    var es := ResolveAll(lib, hops).value;
    var texts := RenderAll(lib, es);
    forall i | 0 <= i < |hops|
      ensures Resolve(lib, texts[i]) == Ok(es[i])
    {
      ResolveAllAt(lib, hops, i);
      ResolveStable(lib, hops[i]);
    }
    ResolveAllIntro(lib, texts, es);
  }

  /** A payload-free frame that Encode built is byte-identical, length prefix included, on the next link. */
  lemma EncodedIsFixed(lib: NetLib, sid: Ip, hops: seq<Text>, more: seq<byte>)
    requires Lawful(lib) && 1 <= |hops| <= 255 && EncodeText(lib, Uuid(sid), hops, []).Ok?
    ensures
      var w := Prefixed(EncodeText(lib, Uuid(sid), hops, []).value);
      RelayOnce(lib, w + more) == Ok(w)
  {
    var es := ResolveAll(lib, hops).value;
    AdmitEncoded(lib, sid, es, more);
    ForwardStable(lib, sid, hops);
    var texts := RenderAll(lib, es);
    assert [texts[0]] + texts[1..] == texts;
  }

  /** A node forwards only what has between 1 and 255 hops, and what it forwards is an encoded frame. */
  lemma ForwardedIsEncoded(lib: NetLib, stream: seq<byte>)
    requires Lawful(lib) && RelayOnce(lib, stream).Ok?
    ensures
      var meta := Admit(lib, stream).value;
      var hops := [meta.target] + meta.hopChain;
      && meta.id.Uuid? && 1 <= |hops| <= 255
      && EncodeText(lib, meta.id, hops, []).Ok?
      && RelayOnce(lib, stream) == Ok(Prefixed(EncodeText(lib, meta.id, hops, []).value))
  {
    var meta := Admit(lib, stream).value;
    var data := stream[2..2 + GetU16(stream[..2])];
    DecodedCount(DecodeFrame(data).value, data);
    EmptyTargetFails(lib);
    assert meta.target == [] && meta.hopChain == [] ==> [meta.target] + meta.hopChain == [[]];
  }

  lemma EmptyTargetFails(lib: NetLib)
    requires Lawful(lib)
    ensures ResolveAll(lib, [[]]) == Err(BadHop)
  {
    var hops: seq<Text> := [[]];
    assert hops[..0] == [];
    assert ResolveAll(lib, hops[..0]) == Ok([]);
  }

  lemma {:induction false} EntriesCount(rest: seq<byte>, n: nat)
    requires DecodeEntries(rest, n).Ok?
    ensures |DecodeEntries(rest, n).value.0| == n
    decreases n
  {
    if n > 0 {
      EntriesCount(DecodeEntry(rest).value.1, n - 1);
    }
  }

  lemma DecodedCount(d: Decoded, data: seq<byte>)
    requires DecodeFrame(data) == Ok(d)
    ensures |d.entries| == data[5] as int
  {
    EntriesCount(data[HEADER_SIZE..], data[5]);
  }

  /**
   Whatever a first relay was given and forwarded, every relay after it forwards the same bytes, and
   every node after it routes on the same session id, target and hop chain: those of the first
   node, each hop printed the way Go prints it.
   */
  lemma {:induction false} PathIsIdentity(lib: NetLib, stream: seq<byte>, n: nat)
    requires Lawful(lib) && n >= 1 && RelayOnce(lib, stream).Ok?
    ensures RelayPath(lib, stream, n) == RelayOnce(lib, stream)
    ensures
      var first := Admit(lib, stream).value;
      var hops := [first.target] + first.hopChain;
      var texts := RenderAll(lib, ResolveAll(lib, hops).value);
      && Admit(lib, RelayPath(lib, stream, n).value) == Ok(SessionMeta(first.id, texts[0], texts[1..]))
      && (forall i :: 0 <= i < |hops| ==> (texts[i] == hops[i] <==> Canonical(lib, hops[i])))
  {
    ForwardedIsEncoded(lib, stream);
    var first := Admit(lib, stream).value;
    var hops := [first.target] + first.hopChain;
    var w := RelayOnce(lib, stream).value;
    assert w + [] == w;
    if n > 1 {
      PathIsIdentity(lib, stream, n - 1);
      EncodedIsFixed(lib, first.id.bytes, hops, []);
    } else {
      assert RelayPath(lib, stream, 0) == Ok(stream);
    }
    var es := ResolveAll(lib, hops).value;
    AdmitEncoded(lib, first.id.bytes, es, []);
    forall i | 0 <= i < |hops|
      ensures RenderAll(lib, es)[i] == hops[i] <==> Canonical(lib, hops[i])
    {
      ResolveAllAt(lib, hops, i);
      CanonicalExact(lib, hops[i]);
    }
  }

  /**
   A session that starts from Encode: on every link of a path of any length the bytes are those of the
   first link, and the last node dials the first hop when its text is canonical.
   */
  lemma EncodedPath(lib: NetLib, sid: Ip, hops: seq<Text>, n: nat)
    requires Lawful(lib) && 1 <= |hops| <= 255 && EncodeText(lib, Uuid(sid), hops, []).Ok?
    ensures
      var w := Prefixed(EncodeText(lib, Uuid(sid), hops, []).value);
      && RelayPath(lib, w, n) == Ok(w)
      && Admit(lib, w).Ok? && Admit(lib, w).value.id == Uuid(sid)
      && (Admit(lib, w).value.target == hops[0] <==> Canonical(lib, hops[0]))
  {
    var w := Prefixed(EncodeText(lib, Uuid(sid), hops, []).value);
    EncodedIsFixed(lib, sid, hops, []);
    assert w + [] == w;
    if n > 0 {
      PathIsIdentity(lib, w, n);
    }
    AdmitEncoded(lib, sid, ResolveAll(lib, hops).value, []);
    ResolveAllAt(lib, hops, 0);
    CanonicalExact(lib, hops[0]);
  }
}
