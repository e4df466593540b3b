/** ValidateConfig, DiffConfig, and the configuration stored after a partial reload. */
module ConfigDiffs {
  import opened Bytes
  import opened Configs

  // ------------------------------------------------------------------ equality as the source tests it

  method AuthEqual(a: AuthConfig, b: AuthConfig) returns (same: bool)
    ensures same <==> a == b
  {
    if a.enabled != b.enabled {
      return false;
    }
    if |a.users| != |b.users| {
      return false;
    }
    var i := 0;
    while i < |a.users|
      invariant 0 <= i <= |a.users| && a.users[..i] == b.users[..i]
    {
      if a.users[i].username != b.users[i].username || a.users[i].password != b.users[i].password {
        return false;
      }
      i := i + 1;
    }
    assert a.users == b.users;
    same := true;
  }

  /** The TLS settings are compared field by field, which is equality. */
  method InboundEqual(a: InboundConfig, b: InboundConfig) returns (same: bool)
    ensures same <==> a == b
  {
    if a.protocol == b.protocol && a.listen == b.listen && a.target == b.target && a.tls == b.tls {
      same := AuthEqual(a.auth, b.auth);
    } else {
      same := false;
    }
  }

  method OutboundEqual(a: OutboundConfig, b: OutboundConfig) returns (same: bool)
    ensures same <==> a == b
  {
    same := a.name == b.name && a.protocol == b.protocol && a.group == b.group && a.address == b.address &&
      a.transport == b.transport && a.tls == b.tls;
  }

  method RoutingEqual(a: seq<RoutingRule>, b: seq<RoutingRule>) returns (same: bool)
    ensures same <==> a == b
  {
    if |a| != |b| {
      return false;
    }
    var i := 0;
    while i < |a|
      invariant 0 <= i <= |a| && a[..i] == b[..i]
    {
      if !(a[i].kind == b[i].kind && a[i].pattern == b[i].pattern && a[i].outbound == b[i].outbound &&
           a[i].outboundGroup == b[i].outboundGroup && a[i].strategy == b[i].strategy) {
        return false;
      }
      i := i + 1;
    }
    same := true;
  }

  /** Go's map lookup: the empty string for a missing tag. */
  function Tag(tags: map<string, string>, k: string): string {
    if k in tags then tags[k] else ""
  }

  predicate SameNode(a: NodeConfig, b: NodeConfig) {
    a.id == b.id && a.kind == b.kind && |a.tags| == |b.tags| && forall k :: k in a.tags ==> Tag(b.tags, k) == a.tags[k]
  }

  method NodeEqual(a: NodeConfig, b: NodeConfig) returns (same: bool)
    ensures same <==> SameNode(a, b)
  {
    if a.id != b.id || a.kind != b.kind {
      return false;
    }
    if |a.tags| != |b.tags| {
      return false;
    }
    var todo := a.tags.Keys;
    while todo != {}
      invariant todo <= a.tags.Keys
      invariant forall k :: k in a.tags && k !in todo ==> Tag(b.tags, k) == a.tags[k]
      decreases todo
    {
      var k :| k in todo;
      if Tag(b.tags, k) != a.tags[k] {
        return false;
      }
      todo := todo - {k};
    }
    same := true;
  }

  lemma SubsetSameSize(a: set<string>, b: set<string>)
    requires a <= b && |a| == |b|
    ensures a == b
  {
    if !(b <= a) {
      var x :| x in b && x !in a;
      SubsetSize(a, b - {x});
    }
  }

  lemma {:induction false} SubsetSize(a: set<string>, b: set<string>)
    requires a <= b
    ensures |a| <= |b|
  {
    if a != {} {
      var x :| x in a;
      SubsetSize(a - {x}, b - {x});
    }
  }

  /** nodeEqual means equal exactly for nodes where no tag with an empty value is missing on the other side. */
  lemma SameNodeExact(a: NodeConfig, b: NodeConfig)
    ensures SameNode(a, b) && (forall k :: k in a.tags && a.tags[k] == "" ==> k in b.tags) <==> a == b
  {
    if SameNode(a, b) && forall k :: k in a.tags && a.tags[k] == "" ==> k in b.tags {
      assert a.tags.Keys <= b.tags.Keys;
      assert |a.tags.Keys| == |a.tags| && |b.tags.Keys| == |b.tags|;
      SubsetSameSize(a.tags.Keys, b.tags.Keys);
      assert a.tags == b.tags;
    }
  }

  /** A node without empty tags is never taken for another one; any node with one is. */
  lemma NoEmptyTagExact(a: NodeConfig)
    ensures (forall b: NodeConfig :: SameNode(a, b) <==> a == b) <==> forall k :: k in a.tags ==> a.tags[k] != ""
  {
    forall b: NodeConfig
      ensures SameNode(a, b) && (forall k :: k in a.tags && a.tags[k] == "" ==> k in b.tags) <==> a == b
    {
      SameNodeExact(a, b);
    }
    if k :| k in a.tags && a.tags[k] == "" {
      var other := FreshString(a.tags.Keys);
      var b := a.(tags := (a.tags - {k})[other := "x"]);
      assert b.tags.Keys == a.tags.Keys - {k} + {other};
      assert |a.tags| == |a.tags.Keys| && |b.tags| == |b.tags.Keys|;
      assert SameNode(a, b) && k !in b.tags;
    }
  }

  lemma {:induction false} FreshString(ks: set<string>) returns (s: string)
    ensures s !in ks && forall k :: k in ks ==> |k| < |s|
  {
    s := "x";
    if ks != {} {
      var k :| k in ks;
      var t := FreshString(ks - {k});
      s := t + k + "x";
    }
  }

  /** A node that trades an empty tag for another one is taken to be unchanged. */
  lemma SameNodeConfuses(id: string, kind: string) returns (a: NodeConfig, b: NodeConfig)
    ensures SameNode(a, b) && a != b && !SameNode(b, a)
  {
    a, b := NodeConfig(id, kind, map["x" := ""]), NodeConfig(id, kind, map["y" := "v"]);
    assert "x" in a.tags && "x" !in b.tags;
    assert Tag(a.tags, "y") == "" && b.tags["y"] == "v" && "y" in b.tags;
  }

  // ------------------------------------------------------------------ DiffConfig

  datatype ConfigDiff = ConfigDiff(
    nodeChanged: bool, inbounds: Delta<InboundConfig>, outbounds: Delta<OutboundConfig>, routingChanged: bool)

  ghost predicate IsDiff(old_: Config, new_: Config, d: ConfigDiff) {
    && d.nodeChanged == !SameNode(old_.node, new_.node)
    && IsDelta(Index(old_.inbounds, ListenOf), Index(new_.inbounds, ListenOf), d.inbounds, ListenOf)
    && IsDelta(Index(old_.outbounds, NameOf), Index(new_.outbounds, NameOf), d.outbounds, NameOf)
    && d.routingChanged == (old_.rules != new_.rules)
  }

  /** The entries of the new map that are not in the old one, or differ; map order is Go's choice. */
  method NewInbounds(o: map<string, InboundConfig>, n: map<string, InboundConfig>)
    returns (added: seq<InboundConfig>, updated: seq<InboundConfig>)
    requires forall k :: k in n ==> ListenOf(n[k]) == k
    ensures Unique(added, ListenOf) && Index(added, ListenOf) == Added(o, n)
    ensures Unique(updated, ListenOf) && Index(updated, ListenOf) == Updated(o, n)
  {
    added, updated := [], [];
    var todo := n.Keys;
    while todo != {}
      invariant todo <= n.Keys
      invariant Unique(added, ListenOf) && Index(added, ListenOf) == Added(o, n - todo)
      invariant Unique(updated, ListenOf) && Index(updated, ListenOf) == Updated(o, n - todo)
      decreases todo
    {
      var k :| k in todo;
      DeltaStep(o, n, todo, k);
      IndexAppend(updated, n[k], ListenOf);
      IndexAppend(added, n[k], ListenOf);
      todo := todo - {k};
      if k in o {
        var same := InboundEqual(o[k], n[k]);
        if !same {
          updated := updated + [n[k]];
        }
      } else {
        added := added + [n[k]];
      }
    }
    assert n - todo == n;
  }

  method DiffInbounds(old_: seq<InboundConfig>, new_: seq<InboundConfig>) returns (d: Delta<InboundConfig>)
    ensures IsDelta(Index(old_, ListenOf), Index(new_, ListenOf), d, ListenOf)
  {
    var o := BuildIndex(old_, ListenOf);
    var n := BuildIndex(new_, ListenOf);
    IndexKeyed(new_, ListenOf);
    var added, updated := NewInbounds(o, n);
    var removed := RemovedKeys(o, n);
    d := Delta(added, removed, updated);
  }

  /** The entries of the new map that are not in the old one, or differ; map order is Go's choice. */
  method NewOutbounds(o: map<string, OutboundConfig>, n: map<string, OutboundConfig>)
    returns (added: seq<OutboundConfig>, updated: seq<OutboundConfig>)
    requires forall k :: k in n ==> NameOf(n[k]) == k
    ensures Unique(added, NameOf) && Index(added, NameOf) == Added(o, n)
    ensures Unique(updated, NameOf) && Index(updated, NameOf) == Updated(o, n)
  {
    added, updated := [], [];
    var todo := n.Keys;
    while todo != {}
      invariant todo <= n.Keys
      invariant Unique(added, NameOf) && Index(added, NameOf) == Added(o, n - todo)
      invariant Unique(updated, NameOf) && Index(updated, NameOf) == Updated(o, n - todo)
      decreases todo
    {
      var k :| k in todo;
      DeltaStep(o, n, todo, k);
      IndexAppend(updated, n[k], NameOf);
      IndexAppend(added, n[k], NameOf);
      todo := todo - {k};
      if k in o {
        var same := OutboundEqual(o[k], n[k]);
        if !same {
          updated := updated + [n[k]];
        }
      } else {
        added := added + [n[k]];
      }
    }
    assert n - todo == n;
  }

  method DiffOutbounds(old_: seq<OutboundConfig>, new_: seq<OutboundConfig>) returns (d: Delta<OutboundConfig>)
    ensures IsDelta(Index(old_, NameOf), Index(new_, NameOf), d, NameOf)
  {
    var o := BuildIndex(old_, NameOf);
    var n := BuildIndex(new_, NameOf);
    IndexKeyed(new_, NameOf);
    var added, updated := NewOutbounds(o, n);
    var removed := RemovedKeys(o, n);
    d := Delta(added, removed, updated);
  }

  method DiffConfig(old_: Config, new_: Config) returns (d: ConfigDiff)
    ensures IsDiff(old_, new_, d)
  {
    var sameNode := NodeEqual(old_.node, new_.node);
    var inbounds := DiffInbounds(old_.inbounds, new_.inbounds);
    var outbounds := DiffOutbounds(old_.outbounds, new_.outbounds);
    var sameRules := RoutingEqual(old_.rules, new_.rules);
    d := ConfigDiff(!sameNode, inbounds, outbounds, !sameRules);
  }

  predicate HasChanges(d: ConfigDiff) {
    d.nodeChanged ||
    |d.inbounds.added| > 0 || |d.inbounds.removed| > 0 || |d.inbounds.updated| > 0 ||
    |d.outbounds.added| > 0 || |d.outbounds.removed| > 0 || |d.outbounds.updated| > 0 ||
    d.routingChanged
  }

  /** There is nothing to do exactly when the nodes pass for the same and maps and rules are equal. */
  lemma HasChangesExact(old_: Config, new_: Config, d: ConfigDiff)
    requires IsDiff(old_, new_, d)
    ensures !HasChanges(d) <==>
      && SameNode(old_.node, new_.node) && old_.rules == new_.rules
      && Index(old_.inbounds, ListenOf) == Index(new_.inbounds, ListenOf)
      && Index(old_.outbounds, NameOf) == Index(new_.outbounds, NameOf)
    ensures old_ == new_ ==> !HasChanges(d)
  {
    DeltaExact(Index(old_.inbounds, ListenOf), Index(new_.inbounds, ListenOf), d.inbounds, ListenOf);
    DeltaExact(Index(old_.outbounds, NameOf), Index(new_.outbounds, NameOf), d.outbounds, NameOf);
  }

  // ------------------------------------------------------------------ ValidateConfig

  predicate ValidInbound(c: InboundConfig, splits: string -> bool) {
    && c.protocol in {"tcp", "tls", "ws", "quic", "np-chain", "forward"}
    && c.listen != "" && splits(c.listen)
    && (c.protocol in {"tls", "quic"} ==> c.tls.cert != "" && c.tls.key != "")
    && (c.protocol == "forward" ==> c.target != "")
  }

  predicate ValidOutbound(c: OutboundConfig) {
    && c.name != "" && c.protocol in {"direct", "np-chain"}
    && (c.protocol == "np-chain" ==> c.address != "" && c.transport != "quic")
  }

  datatype InboundFault =
    | NoProtocol | BadProtocol | NoListen | BadListen | DuplicateListen | NoCertificate | NoTarget

  datatype OutboundFault =
    | NoName | NoOutProtocol | BadOutProtocol | NoAddress | QuicTransport | DuplicateName

  datatype ConfigError =
    | NoVersion | NoNodeId | NoNodeType | BadNodeType
    | BadInbound(i: nat, inbound: InboundFault)
    | BadOutbound(i: nat, outbound: OutboundFault)
    | TcpOverTcp(name: string)

  predicate Seen<T>(es: seq<T>, key: T -> string, i: nat)
    requires i < |es|
  {
    exists j :: 0 <= j < i && key(es[j]) == key(es[i])
  }

  /** The first thing wrong with an inbound, in the order of the tests. */
  function InboundFaultAt(es: seq<InboundConfig>, i: nat, splits: string -> bool): Option<InboundFault>
    requires i < |es|
  {
    var c := es[i];
    if c.protocol == "" then Some(NoProtocol)
    else if c.protocol !in {"tcp", "tls", "ws", "quic", "np-chain", "forward"} then Some(BadProtocol)
    else if c.listen == "" then Some(NoListen)
    else if !splits(c.listen) then Some(BadListen)
    else if Seen(es, ListenOf, i) then Some(DuplicateListen)
    else if c.protocol in {"tls", "quic"} && (c.tls.cert == "" || c.tls.key == "") then Some(NoCertificate)
    else if c.protocol == "forward" && c.target == "" then Some(NoTarget)
    else None
  }

  function OutboundFaultAt(es: seq<OutboundConfig>, i: nat): Option<OutboundFault>
    requires i < |es|
  {
    var c := es[i];
    if c.name == "" then Some(NoName)
    else if c.protocol == "" then Some(NoOutProtocol)
    else if c.protocol !in {"direct", "np-chain"} then Some(BadOutProtocol)
    else if c.protocol == "np-chain" && c.address == "" then Some(NoAddress)
    else if c.protocol == "np-chain" && c.transport == "quic" then Some(QuicTransport)
    else if Seen(es, NameOf, i) then Some(DuplicateName)
    else None
  }

  predicate TcpInbound(c: InboundConfig) {
    c.protocol in {"tcp", "np-chain", "tls", "ws"}
  }

  predicate TcpOutbound(c: OutboundConfig) {
    c.transport == "tcp" || (c.protocol == "np-chain" && c.transport == "")
  }

  predicate TcpBothWays(c: Config) {
    && (exists i :: 0 <= i < |c.inbounds| && TcpInbound(c.inbounds[i]))
    && (exists i :: 0 <= i < |c.outbounds| && TcpOutbound(c.outbounds[i]))
  }

  /** splits(a) says that net.SplitHostPort accepts a. */
  predicate Acceptable(c: Config, splits: string -> bool) {
    && c.version != "" && c.node.id != "" && c.node.kind in {"ingress", "egress", "relay"}
    && (forall i :: 0 <= i < |c.inbounds| ==> ValidInbound(c.inbounds[i], splits))
    && Unique(c.inbounds, ListenOf)
    && (forall i :: 0 <= i < |c.outbounds| ==> ValidOutbound(c.outbounds[i]))
    && Unique(c.outbounds, NameOf)
    && !TcpBothWays(c)
  }

  predicate HeaderError(c: Config, e: ConfigError) {
    match e
    case NoVersion => c.version == ""
    case NoNodeId => c.version != "" && c.node.id == ""
    case NoNodeType => c.version != "" && c.node.id != "" && c.node.kind == ""
    case BadNodeType => c.version != "" && c.node.id != "" && c.node.kind !in {"", "ingress", "egress", "relay"}
    case _ => false
  }

  ghost predicate SoundHeader(c: Config) {
    forall e: ConfigError :: !HeaderError(c, e)
  }

  ghost predicate SoundInbounds(es: seq<InboundConfig>, n: nat, splits: string -> bool)
    requires n <= |es|
  {
    forall i :: 0 <= i < n ==> InboundFaultAt(es, i, splits) == None
  }

  ghost predicate SoundOutbounds(es: seq<OutboundConfig>, n: nat)
    requires n <= |es|
  {
    forall i :: 0 <= i < n ==> OutboundFaultAt(es, i) == None
  }

  ghost predicate Faultless(c: Config, splits: string -> bool) {
    && SoundHeader(c) && SoundInbounds(c.inbounds, |c.inbounds|, splits)
    && SoundOutbounds(c.outbounds, |c.outbounds|)
  }

  /** e names the first fault there is. */
  ghost predicate Refuses(c: Config, splits: string -> bool, e: ConfigError) {
    match e
    case BadInbound(i, fault) =>
      && SoundHeader(c) && i < |c.inbounds| && SoundInbounds(c.inbounds, i, splits)
      && InboundFaultAt(c.inbounds, i, splits) == Some(fault)
    case BadOutbound(i, fault) =>
      && SoundHeader(c) && SoundInbounds(c.inbounds, |c.inbounds|, splits)
      && i < |c.outbounds| && SoundOutbounds(c.outbounds, i) && OutboundFaultAt(c.outbounds, i) == Some(fault)
    case TcpOverTcp(name) =>
      Faultless(c, splits) && OverTcp(c, name)
    case _ => HeaderError(c, e)
  }

  ghost predicate FirstTcp(es: seq<OutboundConfig>, i: nat)
    requires i < |es|
  {
    TcpOutbound(es[i]) && forall j :: 0 <= j < i ==> !TcpOutbound(es[j])
  }

  /** There is a TCP inbound, and name belongs to the first TCP outbound. */
  ghost predicate OverTcp(c: Config, name: string) {
    && (exists i :: 0 <= i < |c.inbounds| && TcpInbound(c.inbounds[i]))
    && (exists i :: 0 <= i < |c.outbounds| && FirstTcp(c.outbounds, i) && c.outbounds[i].name == name)
  }

  lemma SoundInboundsExact(es: seq<InboundConfig>, splits: string -> bool)
    ensures SoundInbounds(es, |es|, splits) <==>
      (forall i :: 0 <= i < |es| ==> ValidInbound(es[i], splits)) && Unique(es, ListenOf)
  {
    forall i | 0 <= i < |es|
      ensures InboundFaultAt(es, i, splits) == None <==> ValidInbound(es[i], splits) && !Seen(es, ListenOf, i)
    {
    }
    UnseenIsUnique(es, ListenOf);
  }

  lemma SoundOutboundsExact(es: seq<OutboundConfig>)
    ensures SoundOutbounds(es, |es|) <==>
      (forall i :: 0 <= i < |es| ==> ValidOutbound(es[i])) && Unique(es, NameOf)
  {
    forall i | 0 <= i < |es|
      ensures OutboundFaultAt(es, i) == None <==> ValidOutbound(es[i]) && !Seen(es, NameOf, i)
    {
    }
    UnseenIsUnique(es, NameOf);
  }

  lemma UnseenIsUnique<T>(es: seq<T>, key: T -> string)
    ensures Unique(es, key) <==> forall i :: 0 <= i < |es| ==> !Seen(es, key, i)
  {
    if forall i :: 0 <= i < |es| ==> !Seen(es, key, i) {
      forall i, j | 0 <= i < j < |es|
        ensures key(es[i]) != key(es[j])
      {
        assert !Seen(es, key, j);
      }
    }
  }

  /** A configuration is acceptable exactly when no error refuses it. */
  lemma AcceptableExact(c: Config, splits: string -> bool, e: ConfigError)
    ensures Refuses(c, splits, e) ==> !Acceptable(c, splits)
    ensures Faultless(c, splits) && !TcpBothWays(c) ==> Acceptable(c, splits)
  {
    SoundInboundsExact(c.inbounds, splits);
    SoundOutboundsExact(c.outbounds);
    if SoundHeader(c) {
      assert !HeaderError(c, NoVersion) && !HeaderError(c, NoNodeId) && !HeaderError(c, NoNodeType);
      assert !HeaderError(c, BadNodeType);
    }
  }

  method ValidateHeader(c: Config) returns (e: Option<ConfigError>)
    ensures match e case None => SoundHeader(c) case Some(err) => HeaderError(c, err)
  {
    if c.version == "" {
      return Some(NoVersion);
    }
    if c.node.id == "" {
      return Some(NoNodeId);
    }
    if c.node.kind == "" {
      return Some(NoNodeType);
    }
    if c.node.kind !in {"ingress", "egress", "relay"} {
      return Some(BadNodeType);
    }
    e := None;
  }

  /** The listens seen so far catch a duplicate. */
  method ValidateInbounds(es: seq<InboundConfig>, splits: string -> bool) returns (e: Option<(nat, InboundFault)>)
    ensures match e
      case None => SoundInbounds(es, |es|, splits)
      case Some((i, fault)) =>
        i < |es| && SoundInbounds(es, i, splits) && InboundFaultAt(es, i, splits) == Some(fault)
  {
    var seen: set<string> := {};
    var i := 0;
    while i < |es|
      invariant 0 <= i <= |es| && SoundInbounds(es, i, splits)
      invariant seen == set j | 0 <= j < i :: ListenOf(es[j])
    {
      var c := es[i];
      assert c.listen in seen <==> Seen(es, ListenOf, i);
      if c.protocol == "" {
        return Some((i, NoProtocol));
      }
      if c.protocol !in {"tcp", "tls", "ws", "quic", "np-chain", "forward"} {
        return Some((i, BadProtocol));
      }
      if c.listen == "" {
        return Some((i, NoListen));
      }
      if !splits(c.listen) {
        return Some((i, BadListen));
      }
      if c.listen in seen {
        return Some((i, DuplicateListen));
      }
      seen := seen + {c.listen};
      if c.protocol in {"tls", "quic"} && (c.tls.cert == "" || c.tls.key == "") {
        return Some((i, NoCertificate));
      }
      if c.protocol == "forward" && c.target == "" {
        return Some((i, NoTarget));
      }
      i := i + 1;
    }
    e := None;
  }

  method ValidateOutbounds(es: seq<OutboundConfig>) returns (e: Option<(nat, OutboundFault)>)
    ensures match e
      case None => SoundOutbounds(es, |es|)
      case Some((i, fault)) => i < |es| && SoundOutbounds(es, i) && OutboundFaultAt(es, i) == Some(fault)
  {
    var seen: set<string> := {};
    var i := 0;
    while i < |es|
      invariant 0 <= i <= |es| && SoundOutbounds(es, i)
      invariant seen == set j | 0 <= j < i :: NameOf(es[j])
    {
      var c := es[i];
      assert c.name in seen <==> Seen(es, NameOf, i);
      if c.name == "" {
        return Some((i, NoName));
      }
      if c.protocol == "" {
        return Some((i, NoOutProtocol));
      }
      if c.protocol !in {"direct", "np-chain"} {
        return Some((i, BadOutProtocol));
      }
      if c.protocol == "np-chain" {
        if c.address == "" {
          return Some((i, NoAddress));
        }
        if c.transport == "quic" {
          return Some((i, QuicTransport));
        }
      }
      if c.name in seen {
        return Some((i, DuplicateName));
      }
      seen := seen + {c.name};
      i := i + 1;
    }
    e := None;
  }

  /** TCP inside TCP: the protocols and transports by name. */
  predicate BothTcp(inb: InboundConfig, out: OutboundConfig) {
    && (inb.protocol == "tcp" || inb.protocol == "np-chain" || inb.protocol == "tls" || inb.protocol == "ws")
    && (out.transport == "tcp" || (out.protocol == "np-chain" && out.transport == ""))
  }

  /** Everything a configuration has to satisfy, in one place. */
  ghost predicate SpelledOut(c: Config, splits: string -> bool) {
    && c.version != "" && c.node.id != ""
    && (c.node.kind == "ingress" || c.node.kind == "egress" || c.node.kind == "relay")
    && (forall i :: 0 <= i < |c.inbounds| ==>
      var x := c.inbounds[i];
      && (x.protocol == "tcp" || x.protocol == "tls" || x.protocol == "ws" || x.protocol == "quic"
          || x.protocol == "np-chain" || x.protocol == "forward")
      && x.listen != "" && splits(x.listen)
      && (x.protocol == "tls" || x.protocol == "quic" ==> x.tls.cert != "" && x.tls.key != "")
      && (x.protocol == "forward" ==> x.target != ""))
    && (forall i, j :: 0 <= i < j < |c.inbounds| ==> c.inbounds[i].listen != c.inbounds[j].listen)
    && (forall i :: 0 <= i < |c.outbounds| ==>
      var x := c.outbounds[i];
      && x.name != "" && (x.protocol == "direct" || x.protocol == "np-chain")
      && (x.protocol == "np-chain" ==> x.address != "" && x.transport != "quic"))
    && (forall i, j :: 0 <= i < j < |c.outbounds| ==> c.outbounds[i].name != c.outbounds[j].name)
    && !(exists i, j :: 0 <= i < |c.inbounds| && 0 <= j < |c.outbounds| && BothTcp(c.inbounds[i], c.outbounds[j]))
  }

  lemma AcceptableSpelledOut(c: Config, splits: string -> bool)
    ensures Acceptable(c, splits) <==> SpelledOut(c, splits)
  {
    UniqueListens(c.inbounds);
    UniqueNames(c.outbounds);
    if TcpBothWays(c) {
      var i :| 0 <= i < |c.inbounds| && TcpInbound(c.inbounds[i]);
      var j :| 0 <= j < |c.outbounds| && TcpOutbound(c.outbounds[j]);
      assert BothTcp(c.inbounds[i], c.outbounds[j]);
    } else {
      forall i, j | 0 <= i < |c.inbounds| && 0 <= j < |c.outbounds|
        ensures !BothTcp(c.inbounds[i], c.outbounds[j])
      {
        assert !TcpInbound(c.inbounds[i]) || !TcpOutbound(c.outbounds[j]);
      }
    }
  }

  lemma UniqueListens(es: seq<InboundConfig>)
    ensures Unique(es, ListenOf) <==> forall i, j :: 0 <= i < j < |es| ==> es[i].listen != es[j].listen
  {
    assert forall i :: 0 <= i < |es| ==> ListenOf(es[i]) == es[i].listen;
  }

  lemma UniqueNames(es: seq<OutboundConfig>)
    ensures Unique(es, NameOf) <==> forall i, j :: 0 <= i < j < |es| ==> es[i].name != es[j].name
  {
    assert forall i :: 0 <= i < |es| ==> NameOf(es[i]) == es[i].name;
  }

  /** The first error, or none exactly for an acceptable configuration. */
  method ValidateConfig(c: Config, splits: string -> bool) returns (e: Option<ConfigError>)
    ensures e.None? <==> Acceptable(c, splits)
    ensures e.None? <==> SpelledOut(c, splits)
    ensures e.Some? ==> Refuses(c, splits, e.value)
    ensures (exists i, j :: 0 <= i < |c.inbounds| && 0 <= j < |c.outbounds| && BothTcp(c.inbounds[i], c.outbounds[j]))
      ==> e.Some?
  {
    AcceptableSpelledOut(c, splits);
    e := ValidateHeader(c);
    if e.Some? {
      AcceptableExact(c, splits, e.value);
      return;
    }
    var inbound := ValidateInbounds(c.inbounds, splits);
    if inbound.Some? {
      e := Some(BadInbound(inbound.value.0, inbound.value.1));
      AcceptableExact(c, splits, e.value);
      return;
    }
    var outbound := ValidateOutbounds(c.outbounds);
    if outbound.Some? {
      e := Some(BadOutbound(outbound.value.0, outbound.value.1));
      AcceptableExact(c, splits, e.value);
      return;
    }
    var overTcp := DetectTcpOverTcp(c);
    e := if overTcp.Some? then Some(TcpOverTcp(overTcp.value)) else None;
    AcceptableExact(c, splits, if overTcp.Some? then e.value else NoVersion);
  }

  method DetectTcpOverTcp(c: Config) returns (name: Option<string>)
    ensures name.Some? <==> TcpBothWays(c)
    ensures name.Some? ==> OverTcp(c, name.value)
  {
    var hasTcp := false;
    var i := 0;
    while i < |c.inbounds| && !hasTcp
      invariant 0 <= i <= |c.inbounds|
      invariant hasTcp <==> exists j :: 0 <= j < i && TcpInbound(c.inbounds[j])
    {
      hasTcp := c.inbounds[i].protocol in {"tcp", "np-chain", "tls", "ws"};
      i := i + 1;
    }
    if !hasTcp {
      return None;
    }
    i := 0;
    while i < |c.outbounds|
      invariant 0 <= i <= |c.outbounds| && forall j :: 0 <= j < i ==> !TcpOutbound(c.outbounds[j])
    {
      var out := c.outbounds[i];
      if out.transport == "tcp" || (out.protocol == "np-chain" && out.transport == "") {
        assert FirstTcp(c.outbounds, i);
        return Some(c.outbounds[i].name);
      }
      i := i + 1;
    }
    name := None;
  }

  // ------------------------------------------------------------------ the reconciled configuration

  /** Old entries in their order: lost ones dropped, committed ones replaced by the new entry. */
  function Kept(es: seq<InboundConfig>, n: map<string, InboundConfig>, ok: set<string>, lost: set<string>)
    : seq<InboundConfig>
  {
    if es == [] then []
    else
      var e := es[|es| - 1];
      Kept(es[..|es| - 1], n, ok, lost) +
      (if e.listen in lost then [] else if e.listen in ok then (if e.listen in n then [n[e.listen]] else []) else [e])
  }

  function Reconcile(old_: Config, new_: Config, ok: set<string>, lost: set<string>): Config {
    old_.(inbounds := Kept(old_.inbounds, Index(new_.inbounds, ListenOf), ok, lost))
  }

  function Listens(es: seq<InboundConfig>): seq<string> {
    seq(|es|, i requires 0 <= i < |es| => es[i].listen)
  }

  function IndexKeys(c: Config): set<string> {
    Index(c.inbounds, ListenOf).Keys
  }

  /** The listens of es in their order, without those in either set. */
  function Remaining(es: seq<InboundConfig>, lost: set<string>, gone: set<string>): seq<string> {
    if es == [] then []
    else if es[0].listen in lost || es[0].listen in gone then Remaining(es[1..], lost, gone)
    else [es[0].listen] + Remaining(es[1..], lost, gone)
  }

  lemma {:induction false} RemainingSnoc(es: seq<InboundConfig>, e: InboundConfig, lost: set<string>, gone: set<string>)
    ensures Remaining(es + [e], lost, gone) ==
      Remaining(es, lost, gone) + if e.listen in lost || e.listen in gone then [] else [e.listen]
  {
    if es == [] {
      assert (es + [e])[1..] == [];
    } else {
      assert (es + [e])[1..] == es[1..] + [e];
      RemainingSnoc(es[1..], e, lost, gone);
    }
  }

  /** What is kept is in the order it had. */
  lemma {:induction false} KeptInOrder(es: seq<InboundConfig>, n: map<string, InboundConfig>, ok: set<string>,
                                       lost: set<string>)
    requires forall k :: k in n ==> n[k].listen == k
    ensures Listens(Kept(es, n, ok, lost)) == Remaining(es, lost, ok - n.Keys)
  {
    if es != [] {
      var front, e := es[..|es| - 1], es[|es| - 1];
      KeptInOrder(front, n, ok, lost);
      assert front + [e] == es;
      RemainingSnoc(front, e, lost, ok - n.Keys);
    }
  }

  method BuildReconciled(old_: Config, new_: Config, ok: set<string>, lost: set<string>) returns (c: Config)
    ensures c == Reconcile(old_, new_, ok, lost)
    ensures c.(inbounds := old_.inbounds) == old_
    ensures Listens(c.inbounds) == Remaining(old_.inbounds, lost, ok - IndexKeys(new_))
  {
    IndexKeyed(new_.inbounds, ListenOf);
    KeptInOrder(old_.inbounds, Index(new_.inbounds, ListenOf), ok, lost);
    var n := BuildIndex(new_.inbounds, ListenOf);
    var kept := [];
    var i := 0;
    while i < |old_.inbounds|
      invariant 0 <= i <= |old_.inbounds| && kept == Kept(old_.inbounds[..i], n, ok, lost)
    {
      assert old_.inbounds[..i + 1][..i] == old_.inbounds[..i];
      var e := old_.inbounds[i];
      if e.listen !in lost {
        if e.listen in ok {
          if e.listen in n {
            kept := kept + [n[e.listen]];
          }
        } else {
          kept := kept + [e];
        }
      }
      i := i + 1;
    }
    assert old_.inbounds[..i] == old_.inbounds;
    c := old_.(inbounds := kept);
  }

  /** What the running inbound map looks like after those updates. */
  function Landed(o: map<string, InboundConfig>, n: map<string, InboundConfig>, ok: set<string>, lost: set<string>)
    : map<string, InboundConfig>
    requires ok <= n.Keys
  {
    map k | k in o && k !in lost :: if k in ok then n[k] else o[k]
  }

  lemma {:induction false} KeptFrom(es: seq<InboundConfig>, n: map<string, InboundConfig>, ok: set<string>,
                                    lost: set<string>)
    requires forall k :: k in n ==> n[k].listen == k
    ensures forall x :: x in Kept(es, n, ok, lost) ==> exists i :: 0 <= i < |es| && es[i].listen == x.listen
  {
    if es != [] {
      KeptFrom(es[..|es| - 1], n, ok, lost);
      forall x | x in Kept(es[..|es| - 1], n, ok, lost)
        ensures exists i :: 0 <= i < |es| - 1 && es[i].listen == x.listen
      {
        var i :| 0 <= i < |es| - 1 && es[..|es| - 1][i].listen == x.listen;
        assert es[i].listen == x.listen;
      }
    }
  }

  lemma {:induction false} KeptKeys(es: seq<InboundConfig>, n: map<string, InboundConfig>, ok: set<string>,
                                   lost: set<string>)
    requires Unique(es, ListenOf) && forall k :: k in n ==> n[k].listen == k
    ensures Unique(Kept(es, n, ok, lost), ListenOf)
  {
    if es != [] {
      var front, e := es[..|es| - 1], es[|es| - 1];
      KeptKeys(front, n, ok, lost);
      KeptFrom(front, n, ok, lost);
      var kept := Kept(front, n, ok, lost);
      forall i | 0 <= i < |kept|
        ensures kept[i].listen != e.listen
      {
        assert kept[i] in kept;
        var j :| 0 <= j < |front| && front[j].listen == kept[i].listen;
        assert ListenOf(es[j]) != ListenOf(e);
      }
      assert Kept(es, n, ok, lost) == kept ||
        exists x: InboundConfig :: x.listen == e.listen && Kept(es, n, ok, lost) == kept + [x];
    }
  }

  lemma LandedStep(o: map<string, InboundConfig>, e: InboundConfig, n: map<string, InboundConfig>,
                   ok: set<string>, lost: set<string>)
    requires ok <= n.Keys && e.listen !in o
    ensures Landed(o[e.listen := e], n, ok, lost) ==
      if e.listen in lost then Landed(o, n, ok, lost)
      else Landed(o, n, ok, lost)[e.listen := if e.listen in ok then n[e.listen] else e]
  {
  }

  /** The reconciled entries are, as a map, what is running. */
  lemma {:induction false} KeptIndex(es: seq<InboundConfig>, n: map<string, InboundConfig>, ok: set<string>,
                                    lost: set<string>)
    requires Unique(es, ListenOf) && ok <= n.Keys && forall k :: k in n ==> n[k].listen == k
    ensures Index(Kept(es, n, ok, lost), ListenOf) == Landed(Index(es, ListenOf), n, ok, lost)
  {
    if es == [] {
      assert Landed(map[], n, ok, lost) == map[];
    } else {
      var e, front := es[|es| - 1], es[..|es| - 1];
      KeptIndex(front, n, ok, lost);
      FrontLacksLast(es);
      LandedStep(Index(front, ListenOf), e, n, ok, lost);
      var kept := Kept(front, n, ok, lost);
      assert kept + [] == kept;
      IndexAppend(kept, e, ListenOf);
      if e.listen in ok {
        IndexAppend(kept, n[e.listen], ListenOf);
      }
    }
  }

  lemma FrontLacksLast(es: seq<InboundConfig>)
    requires Unique(es, ListenOf) && es != []
    ensures es[|es| - 1].listen !in Index(es[..|es| - 1], ListenOf)
  {
    IndexKeyed(es[..|es| - 1], ListenOf);
  }

  /** What separates the landed map from the new one is what separated the old one, less what landed. */
  lemma LandedDelta(o: map<string, InboundConfig>, n: map<string, InboundConfig>, ok: set<string>, lost: set<string>)
    requires ok !! lost && ok + lost <= Updated(o, n).Keys
    ensures
      var l := Landed(o, n, ok, lost);
      && Added(l, n) == Added(o, n) + (map k | k in n && k in lost :: n[k])
      && Updated(l, n) == Updated(o, n) - (ok + lost)
      && l.Keys - n.Keys == o.Keys - n.Keys
  {
  }

  /** If an addition or an update is still to come, the landed map is not the new one. */
  lemma LandedFallsShort(o: map<string, InboundConfig>, n: map<string, InboundConfig>, ok: set<string>,
                         lost: set<string>)
    requires ok !! lost && ok + lost <= Updated(o, n).Keys
    ensures Added(o, n) != map[] || ok != Updated(o, n).Keys ==> Landed(o, n, ok, lost) != n
  {
    if l :| l in Added(o, n) {
      assert l in n && l !in Landed(o, n, ok, lost);
    } else if l :| l in Updated(o, n) && l !in ok {
      assert l in lost ==> l !in Landed(o, n, ok, lost);
      assert l !in lost ==> Landed(o, n, ok, lost)[l] == o[l] != n[l];
    }
  }

  /**
   d' is d less what landed: committed updates vanish, lost listens are added again, skipped updates
   stay, and everything else is as before.
   */
  ghost predicate IsUndone(new_: Config, d: ConfigDiff, d': ConfigDiff, ok: set<string>, lost: set<string>) {
    var n := Index(new_.inbounds, ListenOf);
    && Index(d'.inbounds.added, ListenOf) == Index(d.inbounds.added, ListenOf) + (map k | k in n && k in lost :: n[k])
    && Index(d'.inbounds.updated, ListenOf) == Index(d.inbounds.updated, ListenOf) - (ok + lost)
    && Elements(d'.inbounds.removed) == Elements(d.inbounds.removed)
    && Index(d'.outbounds.added, NameOf) == Index(d.outbounds.added, NameOf)
    && Index(d'.outbounds.updated, NameOf) == Index(d.outbounds.updated, NameOf)
    && Elements(d'.outbounds.removed) == Elements(d.outbounds.removed)
    && d'.nodeChanged == d.nodeChanged && d'.routingChanged == d.routingChanged
  }

  /** A reload of the same configuration after a partial one has exactly the undone work left. */
  lemma PartialReloadConverges(old_: Config, new_: Config, ok: set<string>, lost: set<string>, d: ConfigDiff,
                               d': ConfigDiff)
    requires Unique(old_.inbounds, ListenOf) && ok !! lost
    requires ok + lost <= Updated(Index(old_.inbounds, ListenOf), Index(new_.inbounds, ListenOf)).Keys
    requires IsDiff(old_, new_, d) && IsDiff(Reconcile(old_, new_, ok, lost), new_, d')
    ensures IsUndone(new_, d, d', ok, lost)
  {
    var o, n := Index(old_.inbounds, ListenOf), Index(new_.inbounds, ListenOf);
    IndexKeyed(new_.inbounds, ListenOf);
    KeptIndex(old_.inbounds, n, ok, lost);
    LandedDelta(o, n, ok, lost);
  }
}
