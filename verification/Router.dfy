/** The router: outbounds by name, the group index, and the routing decision. */
module Routing {
  import opened Configs
  import opened RoundRobin

  /** A handler carries the configuration it was built from and its identity. */
  datatype Handler<C> = Handler(cfg: C, id: nat)
  type Outbound = Handler<OutboundConfig>

  const U64_SPACE: int := 0x1_0000_0000_0000_0000

  function Members(groups: map<string, seq<Outbound>>, g: string): seq<Outbound> {
    if g in groups then groups[g] else []
  }

  /** groups[g] holds exactly the registered outbounds of group g, each once, for every non-empty g. */
  ghost predicate Indexed(outs: map<string, Outbound>, groups: map<string, seq<Outbound>>) {
    && (forall n :: n in outs ==> outs[n].cfg.name == n)
    && "" !in groups
    && (forall n :: n in outs && outs[n].cfg.group != "" ==> outs[n] in Members(groups, outs[n].cfg.group))
    && (forall g, i :: g in groups && 0 <= i < |groups[g]| ==>
      var o := groups[g][i]; o.cfg.group == g && o.cfg.name in outs && outs[o.cfg.name] == o)
    && (forall g, i, j :: g in groups && 0 <= i < j < |groups[g]| ==> groups[g][i].cfg.name != groups[g][j].cfg.name)
  }

  function AddToGroup(groups: map<string, seq<Outbound>>, out: Outbound): map<string, seq<Outbound>> {
    if out.cfg.group == "" then groups
    else groups[out.cfg.group := Members(groups, out.cfg.group) + [out]]
  }

  /** The list without its first member of that name. */
  function Without(os: seq<Outbound>, name: string): seq<Outbound> {
    if os == [] then []
    else if os[0].cfg.name == name then os[1..]
    else [os[0]] + Without(os[1..], name)
  }

  function RemoveFromGroup(outs: map<string, Outbound>, groups: map<string, seq<Outbound>>, name: string)
    : map<string, seq<Outbound>>
  {
    if name !in outs then groups
    else
      var g := outs[name].cfg.group;
      if g == "" || g !in groups then groups else groups[g := Without(groups[g], name)]
  }

  /** Under a name that is free, or held by an outbound of no group, an outbound joins its group and no other. */
  lemma FreshMember(outs: map<string, Outbound>, groups: map<string, seq<Outbound>>, out: Outbound)
    requires Indexed(outs, groups) && Free(outs, out.cfg.name)
    ensures Indexed(outs[out.cfg.name := out], AddToGroup(groups, out))
  {
    var g := out.cfg.group;
    var groups' := AddToGroup(groups, out);
    if g != "" {
      assert groups'[g][|groups'[g]| - 1] == out;
      assert forall i :: 0 <= i < |groups'[g]| - 1 ==> groups'[g][i] == Members(groups, g)[i];
    }
  }

  /** Adding an outbound keeps the index exactly when its name is new, or was held by an outbound of no group. */
  lemma AddKeepsIndex(outs: map<string, Outbound>, groups: map<string, seq<Outbound>>, out: Outbound)
    requires Indexed(outs, groups)
    ensures Indexed(outs[out.cfg.name := out], AddToGroup(groups, out)) <==> Free(outs, out.cfg.name)
  {
    if Free(outs, out.cfg.name) {
      FreshMember(outs, groups, out);
    } else {
      StaleMember(outs, groups, out);
    }
  }

  /** The handler that is replaced stays in its group. */
  lemma StaleMember(outs: map<string, Outbound>, groups: map<string, seq<Outbound>>, out: Outbound)
    requires Indexed(outs, groups) && !Free(outs, out.cfg.name)
    ensures Stale(outs[out.cfg.name := out], AddToGroup(groups, out), out.cfg.name)
    ensures !Indexed(outs[out.cfg.name := out], AddToGroup(groups, out))
  {
    var name := out.cfg.name;
    var stale := outs[name];
    var h := stale.cfg.group;
    var outs', groups' := outs[name := out], AddToGroup(groups, out);
    var i :| 0 <= i < |groups[h]| && groups[h][i] == stale;
    assert groups'[h][i] == stale;
    if stale == out {
      assert groups'[h][i].cfg.name == groups'[h][|groups[h]|].cfg.name;
      assert Twice(groups'[h], name);
    }
    StaleIsBroken(outs', groups', name);
  }

  predicate Free(outs: map<string, Outbound>, name: string) {
    name in outs ==> outs[name].cfg.group == ""
  }

  /** Some group holds a handler of that name that is not the registered one, or holds the name twice. */
  ghost predicate Stale(outs: map<string, Outbound>, groups: map<string, seq<Outbound>>, name: string) {
    exists g, i :: g in groups && 0 <= i < |groups[g]| && groups[g][i].cfg.name == name
                   && (name !in outs || outs[name] != groups[g][i] || Twice(groups[g], name))
  }

  ghost predicate Twice(os: seq<Outbound>, name: string) {
    exists i, j :: 0 <= i < j < |os| && os[i].cfg.name == name && os[j].cfg.name == name
  }

  lemma StaleIsBroken(outs: map<string, Outbound>, groups: map<string, seq<Outbound>>, name: string)
    requires Stale(outs, groups, name)
    ensures !Indexed(outs, groups)
  {
  }

  /** Registering other names does not mend it. */
  lemma StaleStays(outs: map<string, Outbound>, groups: map<string, seq<Outbound>>, name: string, out: Outbound)
    requires Stale(outs, groups, name) && out.cfg.name != name
    ensures Stale(outs[out.cfg.name := out], AddToGroup(groups, out), name)
  {
    var g, i :| g in groups && 0 <= i < |groups[g]| && groups[g][i].cfg.name == name
      && (name !in outs || outs[name] != groups[g][i] || Twice(groups[g], name));
    var outs', groups' := outs[out.cfg.name := out], AddToGroup(groups, out);
    assert groups'[g][..|groups[g]|] == groups[g];
    assert groups'[g][i] == groups[g][i];
    if Twice(groups[g], name) {
      var j, k :| 0 <= j < k < |groups[g]| && groups[g][j].cfg.name == name && groups[g][k].cfg.name == name;
      assert groups'[g][j] == groups[g][j] && groups'[g][k] == groups[g][k];
      assert Twice(groups'[g], name);
    }
  }

  /** With the first i entries placed over outs0, the index is right, or some name that was not free is stale. */
  ghost predicate IndexAgrees(outs: map<string, Outbound>, groups: map<string, seq<Outbound>>,
                              outs0: map<string, Outbound>, entries: seq<OutboundConfig>, i: nat)
    requires i <= |entries|
  {
    if forall j :: 0 <= j < i ==> Free(outs0, entries[j].name) then Indexed(outs, groups)
    else exists j :: 0 <= j < i && Stale(outs, groups, entries[j].name)
  }

  lemma IndexAgreesStep(outs: map<string, Outbound>, groups: map<string, seq<Outbound>>,
                        outs0: map<string, Outbound>, entries: seq<OutboundConfig>, i: nat, out: Outbound)
    requires i < |entries| && Unique(entries, NameOf) && out.cfg == entries[i]
    requires Free(outs, out.cfg.name) <==> Free(outs0, out.cfg.name)
    ensures IndexAgrees(outs, groups, outs0, entries, i) ==>
      IndexAgrees(outs[out.cfg.name := out], AddToGroup(groups, out), outs0, entries, i + 1)
  {
    if !IndexAgrees(outs, groups, outs0, entries, i) {
      return;
    }
    if forall j :: 0 <= j < i ==> Free(outs0, entries[j].name) {
      AddKeepsIndex(outs, groups, out);
      if !Free(outs, out.cfg.name) {
        StaleMember(outs, groups, out);
      }
    } else {
      var j :| 0 <= j < i && Stale(outs, groups, entries[j].name);
      assert NameOf(entries[j]) != NameOf(entries[i]);
      StaleStays(outs, groups, entries[j].name, out);
    }
  }

  lemma IndexAgreesExact(outs: map<string, Outbound>, groups: map<string, seq<Outbound>>,
                         outs0: map<string, Outbound>, entries: seq<OutboundConfig>)
    requires IndexAgrees(outs, groups, outs0, entries, |entries|)
    ensures Indexed(outs, groups) <==> forall c :: c in entries ==> Free(outs0, c.name)
  {
    if j :| 0 <= j < |entries| && Stale(outs, groups, entries[j].name) {
      StaleIsBroken(outs, groups, entries[j].name);
    }
  }

  lemma {:induction false} WithoutIs(os: seq<Outbound>, name: string)
    requires forall i, j :: 0 <= i < j < |os| ==> os[i].cfg.name != os[j].cfg.name
    ensures forall o :: o in Without(os, name) <==> o in os && o.cfg.name != name
    ensures forall i, j :: 0 <= i < j < |Without(os, name)| ==>
      Without(os, name)[i].cfg.name != Without(os, name)[j].cfg.name
  {
    if os != [] {
      WithoutIs(os[1..], name);
    }
  }

  /** left is os without its first member of that name, if it has one, in the order they had. */
  ghost predicate LeftBehind(os: seq<Outbound>, name: string, left: seq<Outbound>) {
    && ((forall o :: o in os ==> o.cfg.name != name) ==> left == os)
    && (forall i :: 0 <= i < |os| && os[i].cfg.name == name && (forall j :: 0 <= j < i ==> os[j].cfg.name != name) ==>
      left == os[..i] + os[i + 1..])
  }

  lemma {:induction false} WithoutAt(os: seq<Outbound>, name: string, i: nat)
    requires i < |os| && os[i].cfg.name == name && forall j :: 0 <= j < i ==> os[j].cfg.name != name
    ensures Without(os, name) == os[..i] + os[i + 1..]
  {
    if i > 0 {
      var rest := os[1..];
      assert rest[i - 1] == os[i] && forall j :: 0 <= j < i - 1 ==> rest[j] == os[j + 1];
      WithoutAt(rest, name, i - 1);
      assert [os[0]] + rest[..i - 1] == os[..i] && rest[i..] == os[i + 1..];
    }
  }

  lemma {:induction false} WithoutNone(os: seq<Outbound>, name: string)
    requires forall o :: o in os ==> o.cfg.name != name
    ensures Without(os, name) == os
  {
    if os != [] {
      assert os[0] in os && forall o :: o in os[1..] ==> o in os;
      WithoutNone(os[1..], name);
      assert [os[0]] + os[1..] == os;
    }
  }

  lemma WithoutLeaves(os: seq<Outbound>, name: string)
    ensures LeftBehind(os, name, Without(os, name))
  {
    if forall o :: o in os ==> o.cfg.name != name {
      WithoutNone(os, name);
    }
    forall i | 0 <= i < |os| && os[i].cfg.name == name && forall j :: 0 <= j < i ==> os[j].cfg.name != name
      ensures Without(os, name) == os[..i] + os[i + 1..]
    {
      WithoutAt(os, name, i);
    }
  }

  lemma GroupWithout(outs: map<string, Outbound>, groups: map<string, seq<Outbound>>, name: string)
    requires Indexed(outs, groups) && name in outs && outs[name].cfg.group != ""
    ensures
      var g := outs[name].cfg.group;
      && g in groups && Indexed(outs - {name}, groups[g := Without(groups[g], name)])
  {
    var g := outs[name].cfg.group;
    WithoutIs(groups[g], name);
    var left := Without(groups[g], name);
    var outs': map<string, Outbound> := outs - {name};
    var groups': map<string, seq<Outbound>> := groups[g := left];
    forall h: string, i: int | h in groups' && 0 <= i < |groups'[h]|
      ensures var o: Outbound := groups'[h][i]; o.cfg.group == h && o.cfg.name in outs' && outs'[o.cfg.name] == o
    {
      StillMember(outs, groups, name, h, groups'[h][i]);
    }
  }

  lemma StillMember(outs: map<string, Outbound>, groups: map<string, seq<Outbound>>, name: string, h: string,
                    o: Outbound)
    requires Indexed(outs, groups) && name in outs && h in groups && o in groups[h]
    requires h == outs[name].cfg.group ==> o.cfg.name != name
    ensures o.cfg.group == h && o.cfg.name in outs && outs[o.cfg.name] == o && o.cfg.name != name
  {
  }

  lemma RemoveKeepsIndex(outs: map<string, Outbound>, groups: map<string, seq<Outbound>>, name: string)
    requires Indexed(outs, groups)
    ensures Indexed(outs - {name}, RemoveFromGroup(outs, groups, name))
  {
    if name in outs && outs[name].cfg.group != "" {
      GroupWithout(outs, groups, name);
    }
  }

  // ------------------------------------------------------------------ the routing decision

  /** The pattern tests for one session; domain, address and user matching are library work. */
  datatype Matcher = Matcher(domain: string -> bool, ip: string -> bool, user: string -> bool)

  function Matches(m: Matcher, r: RoutingRule): bool {
    match r.kind
    case "domain" => m.domain(r.pattern)
    case "ip" => m.ip(r.pattern)
    case "user" => m.user(r.pattern)
    case "default" => true
    case _ => false
  }

  datatype Decision = Direct(out: Outbound) | FromGroup(group: string, strategy: string) | NoRule

  /** The first matching rule that names a registered outbound, or else a group, decides. */
  function Decide(rules: seq<RoutingRule>, outs: map<string, Outbound>, m: Matcher): Decision {
    if rules == [] then NoRule
    else
      var r := rules[0];
      if Matches(m, r) && r.outbound != "" && r.outbound in outs then Direct(outs[r.outbound])
      else if Matches(m, r) && r.outbound == "" && r.outboundGroup != "" then FromGroup(r.outboundGroup, r.strategy)
      else Decide(rules[1..], outs, m)
  }

  /** The rule is for this session, spelled out kind by kind. */
  predicate Applies(m: Matcher, r: RoutingRule) {
    || (r.kind == "domain" && m.domain(r.pattern))
    || (r.kind == "ip" && m.ip(r.pattern))
    || (r.kind == "user" && m.user(r.pattern))
    || r.kind == "default"
  }

  /** It decides: its outbound is registered, or it names no outbound but a group. */
  predicate Deciding(m: Matcher, r: RoutingRule, outs: map<string, Outbound>) {
    Applies(m, r) && if r.outbound != "" then r.outbound in outs else r.outboundGroup != ""
  }

  ghost predicate IsFirst(m: Matcher, rules: seq<RoutingRule>, outs: map<string, Outbound>, i: int) {
    0 <= i < |rules| && Deciding(m, rules[i], outs) && forall j :: 0 <= j < i ==> !Deciding(m, rules[j], outs)
  }

  lemma {:induction false} FirstDecides(rules: seq<RoutingRule>, outs: map<string, Outbound>, m: Matcher)
    ensures forall i :: IsFirst(m, rules, outs, i) ==>
      Decide(rules, outs, m) ==
        if rules[i].outbound != "" then Direct(outs[rules[i].outbound])
        else FromGroup(rules[i].outboundGroup, rules[i].strategy)
    ensures (forall i :: 0 <= i < |rules| ==> !Deciding(m, rules[i], outs)) ==> Decide(rules, outs, m) == NoRule
  {
    if rules != [] {
      FirstDecides(rules[1..], outs, m);
      assert Applies(m, rules[0]) <==> Matches(m, rules[0]);
      forall i | IsFirst(m, rules, outs, i) && i > 0
        ensures IsFirst(m, rules[1..], outs, i - 1) && rules[i] == rules[1..][i - 1]
      {
        forall j | 0 <= j < i - 1
          ensures !Deciding(m, rules[1..][j], outs)
        {
          assert rules[1..][j] == rules[j + 1];
        }
      }
      if forall i :: 0 <= i < |rules| ==> !Deciding(m, rules[i], outs) {
        assert forall i :: 0 <= i < |rules[1..]| ==> rules[1..][i] == rules[i + 1];
      }
    }
  }

  datatype RouteResult = Routed(out: Outbound) | NoAvailableOutbound

  function Counter(counters: map<string, int>, g: string): int {
    if g in counters then counters[g] else 0
  }

  /** The index that the k-th round-robin selection from now takes: a uint64 counter is incremented first. */
  function Pick(counter: int, k: nat, n: int): int
    requires n > 0
  {
    ((counter + 1 + k) % U64_SPACE) % n
  }

  /** A pick in numbers: the counter goes up by one modulo 2^64 before it is reduced. */
  lemma PickIs(counters: map<string, int>, group: string, n: int)
    requires n > 0
    ensures Pick(Counter(counters, group), 0, n) ==
      ((if group in counters then counters[group] + 1 else 1) % 0x1_0000_0000_0000_0000) % n
  {
  }

  /** The i-th pick from c is the first one after the counter has advanced i times. */
  lemma PickAfter(c: nat, i: nat, n: int)
    requires n > 0
    ensures Pick((c + i) % U64_SPACE, 0, n) == Pick(c, i, n)
    ensures ((c + i) % U64_SPACE + 1) % U64_SPACE == (c + i + 1) % U64_SPACE
  {
  }

  /** n selections from c are undisturbed by the wrap of the counter: it is not reached, or n divides it. */
  predicate Undisturbed(c: nat, n: int) {
    n == 0 || c + n < U64_SPACE || (n > 0 && U64_SPACE % n == 0)
  }

  lemma ModOfMod(x: nat, u: int, n: int)
    requires n > 0 && u > 0 && u % n == 0
    ensures (x % u) % n == x % n
  {
    var q, r := x / u, x % u;
    assert u == (u / n) * n && r == (r / n) * n + r % n && x == q * u + r;
    assert q * ((u / n) * n) == (q * (u / n)) * n;
    assert x == (q * (u / n) + r / n) * n + r % n;
    DivUnique(x, n, q * (u / n) + r / n, r % n);
  }

  lemma PickIgnoresWrap(c: nat, k: nat, n: int)
    requires k < n && Undisturbed(c, n)
    ensures Pick(c, k, n) == (c + 1 + k) % n
  {
    if U64_SPACE % n == 0 {
      ModOfMod(c + 1 + k, U64_SPACE, n);
    } else {
      assert (c + 1 + k) % U64_SPACE == c + 1 + k;
    }
  }

  /** Where the k-th choice falls, counted from where the first one does. */
  function Rotated(start: int, k: nat, n: int): int {
    if start + k < n then start + k else start + k - n
  }

  lemma RotatedMod(x: nat, k: nat, n: int)
    requires k < n
    ensures 0 <= x % n < n && (x + k) % n == Rotated(x % n, k, n)
  {
    DivUnique(k, n, 0, k);
    DivSum(x, k, n);
  }

  lemma PickIsRotated(c: nat, k: nat, n: int)
    requires k < n && Undisturbed(c, n)
    ensures 0 <= (c + 1) % n < n && Pick(c, k, n) == Rotated((c + 1) % n, k, n)
  {
    PickIgnoresWrap(c, k, n);
    RotatedMod(c + 1, k, n);
  }

  predicate EachOnce(c: nat, n: int) {
    forall j, k :: 0 <= j < k < n ==> Pick(c, j, n) != Pick(c, k, n)
  }

  /** Wherever the counter stands, n consecutive selections take n different members, exactly when n divides 2^64. */
  lemma RoundRobinExact(n: int)
    requires n > 0
    ensures (forall c: nat :: c < U64_SPACE ==> EachOnce(c, n)) <==> U64_SPACE % n == 0
  {
    if U64_SPACE % n == 0 {
      forall c: nat, j, k | c < U64_SPACE && 0 <= j < k < n
        ensures Pick(c, j, n) != Pick(c, k, n)
      {
        PickIsRotated(c, j, n);
        PickIsRotated(c, k, n);
      }
    } else {
      WrapRepeats(U64_SPACE - 2, n);
    }
  }

  /** Selections that start just ahead of the wrap come to the first index again before they have been everywhere. */
  lemma WrapRepeats(c: nat, n: int)
    requires n > 0 && U64_SPACE % n != 0 && c == U64_SPACE - 2
    ensures !EachOnce(c, n)
  {
    var r := U64_SPACE % n;
    var q := U64_SPACE / n;
    assert U64_SPACE == q * n + r;
    DivUnique(U64_SPACE - 1, n, q, r - 1);
    assert r <= U64_SPACE by {
      MulAtLeast(q, n);
    }
    assert (c + 1 + 0) % U64_SPACE == U64_SPACE - 1;
    assert (c + 1 + r) % U64_SPACE == r - 1;
    DivUnique(r - 1, n, 0, r - 1);
    assert Pick(c, 0, n) == Pick(c, r, n);
  }

  class Router {
    var outbounds: map<string, Outbound>
    var groups: map<string, seq<Outbound>>
    var rules: seq<RoutingRule>
    var rrCounters: map<string, int>

    ghost predicate Valid()
      reads this
    {
      Indexed(outbounds, groups) && forall g :: g in rrCounters ==> 0 <= rrCounters[g] < U64_SPACE
    }

    constructor ()
      ensures Valid() && outbounds == map[] && groups == map[] && rules == [] && rrCounters == map[]
    {
      outbounds, groups, rules, rrCounters := map[], map[], [], map[];
    }

    /** Any outbound may be added; the index survives exactly when the name is free or held outside the groups. */
    method AddOutbound(out: Outbound)
      modifies this`outbounds, this`groups
      ensures outbounds == old(outbounds)[out.cfg.name := out] && groups == AddToGroup(old(groups), out)
      ensures
        var g := out.cfg.group;
        if g == "" then groups == old(groups)
        else groups == old(groups)[g := (if g in old(groups) then old(groups)[g] else []) + [out]]
      ensures old(Valid()) ==> (Valid() <==> Free(old(outbounds), out.cfg.name))
    {
      if Indexed(outbounds, groups) {
        AddKeepsIndex(outbounds, groups, out);
      }
      outbounds := outbounds[out.cfg.name := out];
      var group := out.cfg.group;
      if group != "" {
        groups := groups[group := Members(groups, group) + [out]];
      }
    }

    method RemoveOutbound(name: string)
      requires Valid()
      modifies this`outbounds, this`groups
      ensures Valid() && outbounds == old(outbounds) - {name}
      ensures groups == RemoveFromGroup(old(outbounds), old(groups), name)
      ensures name !in old(outbounds) ==> groups == old(groups)
      ensures name in old(outbounds) ==>
        var g := old(outbounds)[name].cfg.group;
        && groups.Keys == old(groups).Keys && (forall h :: h in groups && h != g ==> groups[h] == old(groups)[h])
        && (g in groups ==> LeftBehind(old(groups)[g], name, groups[g]))
    {
      RemoveKeepsIndex(outbounds, groups, name);
      if name !in outbounds {
        return;
      }
      var out := outbounds[name];
      outbounds := outbounds - {name};
      var group := out.cfg.group;
      if group != "" && group in groups {
        WithoutLeaves(groups[group], name);
        var left := DropFirst(groups[group], name);
        groups := groups[group := left];
      }
    }

    method UpdateRules(rules: seq<RoutingRule>)
      modifies this`rules
      ensures this.rules == rules
    {
      this.rules := rules;
    }

    method SelectRoundRobin(group: string, outs: seq<Outbound>) returns (out: Outbound)
      requires Valid() && |outs| > 0
      modifies this`rrCounters
      ensures Valid() && out == outs[Pick(Counter(old(rrCounters), group), 0, |outs|)]
      ensures rrCounters == old(rrCounters)[group := (Counter(old(rrCounters), group) + 1) % U64_SPACE]
    {
      var counter := Counter(rrCounters, group);
      counter := (counter + 1) % U64_SPACE;
      rrCounters := rrCounters[group := counter];
      out := outs[counter % |outs|];
    }

    /** score is what HealthCheck answers. */
    method SelectFromGroup(group: string, strategy: string, score: Outbound -> real) returns (r: RouteResult)
      requires Valid()
      modifies this`rrCounters
      ensures Valid()
      ensures r.NoAvailableOutbound? <==> Members(groups, group) == []
      ensures r.Routed? ==> r.out in Members(groups, group)
      ensures r.Routed? && strategy == "round-robin" ==>
        r.out == Members(groups, group)[Pick(Counter(old(rrCounters), group), 0, |Members(groups, group)|)]
      ensures r.Routed? && strategy == "least-load" ==>
        forall o :: o in Members(groups, group) ==> score(o) <= score(r.out)
      ensures r.Routed? && strategy !in {"random", "round-robin", "least-load"} ==> r.out == Members(groups, group)[0]
      ensures strategy != "round-robin" ==> rrCounters == old(rrCounters)
    {
      if group !in groups || |groups[group]| == 0 {
        return NoAvailableOutbound;
      }
      var healthy := groups[group];
      if strategy == "random" {
        var i: nat := *;
        r := Routed(healthy[i % |healthy|]);
      } else if strategy == "round-robin" {
        var out := SelectRoundRobin(group, healthy);
        r := Routed(out);
      } else if strategy == "least-load" {
        var out := SelectLeastLoad(healthy, score);
        r := Routed(out);
      } else {
        r := Routed(healthy[0]);
      }
    }

    /**
     Only registered outbounds are ever returned, and the first deciding rule is the one obeyed: a rule
     that matches and names a registered outbound, or names none but a group. A rule that names an outbound
     that is not registered decides nothing.
     */
    method Route(m: Matcher, score: Outbound -> real) returns (r: RouteResult)
      requires Valid()
      modifies this`rrCounters
      ensures Valid()
      ensures r.Routed? ==> r.out.cfg.name in outbounds && outbounds[r.out.cfg.name] == r.out
      ensures match Decide(rules, outbounds, m)
        case NoRule => r == NoAvailableOutbound
        case Direct(out) => r == Routed(out)
        case FromGroup(g, strategy) =>
          && (r.NoAvailableOutbound? <==> Members(groups, g) == [])
          && (r.Routed? ==> r.out in Members(groups, g))
          && (r.Routed? && strategy == "round-robin" ==>
              r.out == Members(groups, g)[Pick(Counter(old(rrCounters), g), 0, |Members(groups, g)|)])
      ensures forall i :: IsFirst(m, rules, outbounds, i) ==>
        if rules[i].outbound != "" then r == Routed(outbounds[rules[i].outbound])
        else if rules[i].outboundGroup in groups && |groups[rules[i].outboundGroup]| > 0 then
          r.Routed? && r.out in groups[rules[i].outboundGroup]
        else r == NoAvailableOutbound
      ensures (forall i :: 0 <= i < |rules| ==> !Deciding(m, rules[i], outbounds)) ==> r == NoAvailableOutbound
    {
      FirstDecides(rules, outbounds, m);
      var i := 0;
      while i < |rules|
        invariant 0 <= i <= |rules| && Valid() && rrCounters == old(rrCounters)
        invariant Decide(rules, outbounds, m) == Decide(rules[i..], outbounds, m)
      {
        var rule := rules[i];
        assert rules[i..][1..] == rules[i + 1..];
        if Matches(m, rule) {
          if rule.outbound != "" {
            if rule.outbound in outbounds {
              return Routed(outbounds[rule.outbound]);
            }
          } else if rule.outboundGroup != "" {
            r := SelectFromGroup(rule.outboundGroup, rule.strategy, score);
            return;
          }
        }
        i := i + 1;
      }
      r := NoAvailableOutbound;
    }
  }

  /** n picks are the list started elsewhere. */
  lemma PicksRotate(outs: seq<Outbound>, picked: seq<Outbound>, c: nat)
    requires |picked| == |outs| > 0 && Undisturbed(c, |outs|) && Picks(outs, picked, c)
    ensures
      var start := (c + 1) % |outs|;
      0 <= start < |outs| && picked == outs[start..] + outs[..start]
    ensures multiset(picked) == multiset(outs)
  {
    var n := |outs|;
    var start := (c + 1) % n;
    var rotated := outs[start..] + outs[..start];
    forall k | 0 <= k < n
      ensures picked[k] == rotated[k]
    {
      PickIsRotated(c, k, n);
    }
    assert picked == rotated;
    assert outs == outs[..start] + outs[start..];
  }

  /** What has been picked since the counter stood at c. */
  ghost predicate Picks(outs: seq<Outbound>, picked: seq<Outbound>, c: nat) {
    |picked| <= |outs| && forall k :: 0 <= k < |picked| ==> picked[k] == outs[Pick(c, k, |outs|)]
  }

  method SelectNext(router: Router, group: string, outs: seq<Outbound>, picked: seq<Outbound>, ghost c: nat)
    returns (more: seq<Outbound>)
    requires router.Valid() && |picked| < |outs| && Picks(outs, picked, c)
    requires Counter(router.rrCounters, group) == (c + |picked|) % U64_SPACE
    modifies router`rrCounters
    ensures router.Valid() && |more| == |picked| + 1 && Picks(outs, more, c)
    ensures Counter(router.rrCounters, group) == (c + |more|) % U64_SPACE
  {
    PickAfter(c, |picked|, |outs|);
    var out := router.SelectRoundRobin(group, outs);
    more := picked + [out];
  }

  /**
   As many round-robin selections as an unchanged group has members are the picks from where the counter
   stands; undisturbed by its wrap they return exactly the members, each once, in their order from some
   member on.
   */
  method SelectionRound(router: Router, group: string) returns (picked: seq<Outbound>, ghost start: nat)
    requires router.Valid()
    modifies router`rrCounters
    ensures router.Valid()
    ensures
      var outs, c := Members(router.groups, group), Counter(old(router.rrCounters), group);
      && |picked| == |outs| && Picks(outs, picked, c)
      && (Undisturbed(c, |outs|) ==>
            multiset(picked) == multiset(outs) && start <= |outs| && picked == outs[start..] + outs[..start])
  {
    var outs := Members(router.groups, group);
    var n := |outs|;
    ghost var c := Counter(router.rrCounters, group);
    picked, start := [], 0;
    while |picked| < n
      invariant router.Valid() && Counter(router.rrCounters, group) == (c + |picked|) % U64_SPACE
      invariant Picks(outs, picked, c)
    {
      picked := SelectNext(router, group, outs, picked, c);
    }
    if n > 0 && Undisturbed(c, n) {
      PicksRotate(outs, picked, c);
      start := (c + 1) % n;
    }
  }

  method DropFirst(os: seq<Outbound>, name: string) returns (left: seq<Outbound>)
    ensures left == Without(os, name)
  {
    var i := 0;
    while i < |os|
      invariant 0 <= i <= |os|
      invariant Without(os, name) == os[..i] + Without(os[i..], name)
    {
      assert os[i..][1..] == os[i + 1..];
      if os[i].cfg.name == name {
        return os[..i] + os[i + 1..];
      }
      assert os[..i] + [os[i]] == os[..i + 1];
      i := i + 1;
    }
    assert os[..i] + [] == os;
    left := os;
  }

  method SelectLeastLoad(outs: seq<Outbound>, score: Outbound -> real) returns (best: Outbound)
    requires |outs| > 0
    ensures best in outs && forall o :: o in outs ==> score(o) <= score(best)
    ensures exists k :: 0 <= k < |outs| && best == outs[k] && forall j :: 0 <= j < k ==> score(outs[j]) < score(best)
  {
    best := outs[0];
    ghost var k := 0;
    var i := 1;
    while i < |outs|
      invariant 0 <= k < i <= |outs| && best == outs[k]
      invariant forall j :: 0 <= j < i ==> score(outs[j]) <= score(best)
      invariant forall j :: 0 <= j < k ==> score(outs[j]) < score(best)
    {
      if score(outs[i]) > score(best) {
        best := outs[i];
        k := i;
      }
      i := i + 1;
    }
  }
}
