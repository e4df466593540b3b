/** Configurations, their validation, and the difference between two of them. */
module Configs {

  datatype TLSConfig = TLSConfig(enabled: bool, cert: string, key: string, ca: string, serverName: string)
  datatype UserAuth = UserAuth(username: string, password: string)
  datatype AuthConfig = AuthConfig(enabled: bool, users: seq<UserAuth>)
  datatype InboundConfig =
    InboundConfig(protocol: string, listen: string, target: string, auth: AuthConfig, tls: TLSConfig)
  datatype OutboundConfig =
    OutboundConfig(name: string, protocol: string, group: string, address: string, transport: string, tls: TLSConfig)
  datatype RoutingRule =
    RoutingRule(kind: string, pattern: string, outbound: string, outboundGroup: string, strategy: string)
  datatype NodeConfig = NodeConfig(id: string, kind: string, tags: map<string, string>)

  /** other stands for the sections DiffConfig does not look at. */
  datatype Config = Config(
    version: string, node: NodeConfig, inbounds: seq<InboundConfig>, outbounds: seq<OutboundConfig>,
    rules: seq<RoutingRule>, other: string)

  function ListenOf(c: InboundConfig): string { c.listen }

  function NameOf(c: OutboundConfig): string { c.name }

  // ------------------------------------------------------------------ entries by key

  /** The map the source builds from a list of entries; a later entry replaces an earlier one. */
  function Index<T>(es: seq<T>, key: T -> string): map<string, T> {
    if es == [] then map[]
    else Index(es[..|es| - 1], key)[key(es[|es| - 1]) := es[|es| - 1]]
  }

  predicate Unique<T>(es: seq<T>, key: T -> string) {
    forall i, j :: 0 <= i < j < |es| ==> key(es[i]) != key(es[j])
  }

  lemma {:induction false} IndexKeyed<T>(es: seq<T>, key: T -> string)
    ensures forall k :: k in Index(es, key) ==> key(Index(es, key)[k]) == k && Index(es, key)[k] in es
    ensures forall i :: 0 <= i < |es| ==> key(es[i]) in Index(es, key)
  {
    if es != [] {
      IndexKeyed(es[..|es| - 1], key);
    }
  }

  lemma {:induction false} IndexUnique<T>(es: seq<T>, key: T -> string)
    requires Unique(es, key)
    ensures forall i :: 0 <= i < |es| ==> key(es[i]) in Index(es, key) && Index(es, key)[key(es[i])] == es[i]
  {
    if es != [] {
      IndexUnique(es[..|es| - 1], key);
    }
  }

  lemma IndexAppend<T>(es: seq<T>, e: T, key: T -> string)
    ensures Index(es + [e], key) == Index(es, key)[key(e) := e]
    ensures Unique(es, key) && key(e) !in Index(es, key) ==> Unique(es + [e], key)
  {
    assert (es + [e])[..|es|] == es;
    IndexKeyed(es, key);
  }

  method BuildIndex<T>(es: seq<T>, key: T -> string) returns (m: map<string, T>)
    ensures m == Index(es, key)
  {
    m := map[];
    var i := 0;
    while i < |es|
      invariant 0 <= i <= |es| && m == Index(es[..i], key)
    {
      assert es[..i + 1][..i] == es[..i];
      m := m[key(es[i]) := es[i]];
      i := i + 1;
    }
    assert es[..i] == es;
  }

  // ------------------------------------------------------------------ the difference of two entry maps

  datatype Delta<T> = Delta(added: seq<T>, removed: seq<string>, updated: seq<T>)

  function Added<T>(o: map<string, T>, n: map<string, T>): map<string, T> {
    map k | k in n && k !in o :: n[k]
  }

  function Updated<T(==)>(o: map<string, T>, n: map<string, T>): map<string, T> {
    map k | k in n && k in o && o[k] != n[k] :: n[k]
  }

  function Elements(ks: seq<string>): set<string> {
    set k | k in ks
  }

  /** d lists, in some order and each once, what separates o from n. */
  ghost predicate IsDelta<T>(o: map<string, T>, n: map<string, T>, d: Delta<T>, key: T -> string) {
    && Unique(d.added, key) && Index(d.added, key) == Added(o, n)
    && Unique(d.updated, key) && Index(d.updated, key) == Updated(o, n)
    && Elements(d.removed) == o.Keys - n.Keys
    && (forall i, j :: 0 <= i < j < |d.removed| ==> d.removed[i] != d.removed[j])
  }

  /** One more key of the new map taken into account. */
  lemma DeltaStep<T>(o: map<string, T>, n: map<string, T>, todo: set<string>, k: string)
    requires k in todo && todo <= n.Keys
    ensures Added(o, n - (todo - {k})) == if k in o then Added(o, n - todo) else Added(o, n - todo)[k := n[k]]
    ensures Updated(o, n - (todo - {k})) ==
      if k in o && o[k] != n[k] then Updated(o, n - todo)[k := n[k]] else Updated(o, n - todo)
    ensures k !in Added(o, n - todo) && k !in Updated(o, n - todo)
  {
    assert forall j :: j in n - (todo - {k}) <==> j == k || j in n - todo;
  }

  lemma ElementsAppend(ks: seq<string>, k: string)
    ensures Elements(ks + [k]) == Elements(ks) + {k}
  {
    assert forall j :: j in ks + [k] <==> j in ks || j == k;
  }

  method RemovedKeys<T>(o: map<string, T>, n: map<string, T>) returns (removed: seq<string>)
    ensures Elements(removed) == o.Keys - n.Keys
    ensures forall i, j :: 0 <= i < j < |removed| ==> removed[i] != removed[j]
  {
    removed := [];
    var todo := o.Keys;
    while todo != {}
      invariant todo <= o.Keys
      invariant Elements(removed) == o.Keys - todo - n.Keys
      invariant forall i, j :: 0 <= i < j < |removed| ==> removed[i] != removed[j]
      decreases todo
    {
      var k :| k in todo;
      todo := todo - {k};
      if k !in n {
        assert k !in Elements(removed);
        ElementsAppend(removed, k);
        removed := removed + [k];
      }
    }
  }

  /** The map a delta turns o into. */
  function Patch<T>(o: map<string, T>, d: Delta<T>, key: T -> string): map<string, T> {
    (o - Elements(d.removed)) + Index(d.added, key) + Index(d.updated, key)
  }

  /** A delta is exact: it patches o to n, its parts are disjoint, and it is empty exactly when o is n. */
  lemma DeltaExact<T>(o: map<string, T>, n: map<string, T>, d: Delta<T>, key: T -> string)
    requires IsDelta(o, n, d, key)
    ensures Patch(o, d, key) == n
    ensures Index(d.added, key).Keys !! Index(d.updated, key).Keys
    ensures Elements(d.removed) !! Index(d.added, key).Keys + Index(d.updated, key).Keys
    ensures d.added == [] && d.removed == [] && d.updated == [] <==> o == n
  {
    NoDifference(o, n);
    IndexEmpty(d.added, key);
    IndexEmpty(d.updated, key);
    assert |d.removed| > 0 ==> d.removed[0] in Elements(d.removed);
  }

  lemma IndexEmpty<T>(es: seq<T>, key: T -> string)
    ensures Index(es, key) == map[] <==> es == []
  {
    if es != [] {
      assert key(es[|es| - 1]) in Index(es, key);
    }
  }

  lemma NoDifference<T>(o: map<string, T>, n: map<string, T>)
    ensures Added(o, n) == map[] && o.Keys - n.Keys == {} && Updated(o, n) == map[] <==> o == n
  {
    if Added(o, n) == map[] && o.Keys - n.Keys == {} && Updated(o, n) == map[] {
      forall k | k in n
        ensures k in o && o[k] == n[k]
      {
        assert k !in Added(o, n) && k !in Updated(o, n);
      }
      forall k | k in o
        ensures k in n
      {
        assert k !in o.Keys - n.Keys;
      }
    }
  }
}
