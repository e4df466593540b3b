/**
 The agent: start-up and transactional reload. Creating, starting and stopping a handler may fail
 at any time; the environment's answers and Go's map order are nondeterministic choices.
 */
module Agents {
  import opened Bytes
  import opened Configs
  import opened ConfigDiffs
  import opened Routing

  type Inbound = Handler<InboundConfig>

  /** The configurations the running handlers were built from. */
  function Cfgs<C>(hs: map<string, Handler<C>>): map<string, C> {
    map k | k in hs :: hs[k].cfg
  }

  function Ids<C>(hs: map<string, Handler<C>>): set<nat> {
    set k | k in hs :: hs[k].id
  }

  ghost predicate Distinct<C>(hs: map<string, Handler<C>>) {
    forall j, k :: j in hs && k in hs && j != k ==> hs[j].id != hs[k].id
  }

  /** Handlers made since the counter stood at lo, no two with the same identity. */
  ghost predicate Fresh<C>(hs: map<string, Handler<C>>, lo: nat, hi: nat) {
    Distinct(hs) && forall k :: k in hs ==> lo <= hs[k].id < hi
  }

  lemma IdsWith<C>(hs: map<string, Handler<C>>, k: string, h: Handler<C>)
    requires Distinct(hs) && k in hs && h.id !in Ids(hs)
    ensures Distinct(hs[k := h]) && Ids(hs[k := h]) == Ids(hs) - {hs[k].id} + {h.id}
  {
    assert hs[k := h][k] == h;
    assert forall j :: j in hs && j != k ==> hs[k := h][j] == hs[j];
  }

  lemma IdsWithout<C>(hs: map<string, Handler<C>>, k: string)
    requires Distinct(hs) && k in hs
    ensures Distinct(hs - {k}) && Ids(hs - {k}) == Ids(hs) - {hs[k].id}
  {
    assert forall j :: j in hs && j != k ==> j in hs - {k} && (hs - {k})[j] == hs[j];
  }

  lemma IdsPlus<C>(a: map<string, Handler<C>>, b: map<string, Handler<C>>)
    requires Distinct(a) && Distinct(b) && a.Keys !! b.Keys && Ids(a) !! Ids(b)
    ensures Distinct(a + b) && Ids(a + b) == Ids(a) + Ids(b)
  {
    assert forall j :: j in a ==> j in a + b && (a + b)[j] == a[j];
    assert forall j :: j in b ==> j in a + b && (a + b)[j] == b[j];
    forall j, k | j in a + b && k in a + b && j != k
      ensures (a + b)[j].id != (a + b)[k].id
    {
      assert (a + b)[j].id in (if j in a then Ids(a) else Ids(b));
      assert (a + b)[k].id in (if k in a then Ids(a) else Ids(b));
    }
  }

  datatype Prepared = Prepared(
    removeInbounds: seq<string>, newInbounds: map<string, Inbound>,
    removeOutbounds: seq<string>, newOutbounds: map<string, Outbound>,
    routingChanged: bool, rules: seq<RoutingRule>)

  ghost predicate PreparedFor(p: Prepared, d: ConfigDiff, cfg: Config) {
    && p.removeInbounds == d.inbounds.removed && p.removeOutbounds == d.outbounds.removed
    && Cfgs(p.newInbounds) == Index(d.inbounds.updated, ListenOf) + Index(d.inbounds.added, ListenOf)
    && Cfgs(p.newOutbounds) == Index(d.outbounds.updated, NameOf) + Index(d.outbounds.added, NameOf)
    && p.routingChanged == d.routingChanged && p.rules == cfg.rules
  }

  /** What the prepared objects amount to for the maps of the two configurations. */
  ghost predicate Plan(p: Prepared, oldCfg: Config, newCfg: Config) {
    var o, n := Index(oldCfg.inbounds, ListenOf), Index(newCfg.inbounds, ListenOf);
    var oOut, nOut := Index(oldCfg.outbounds, NameOf), Index(newCfg.outbounds, NameOf);
    && Elements(p.removeInbounds) == o.Keys - n.Keys && Cfgs(p.newInbounds) == Updated(o, n) + Added(o, n)
    && Elements(p.removeOutbounds) == oOut.Keys - nOut.Keys
    && Cfgs(p.newOutbounds) == Updated(oOut, nOut) + Added(oOut, nOut)
    && p.routingChanged == (oldCfg.rules != newCfg.rules) && p.rules == newCfg.rules
  }

  lemma PreparedIsPlan(p: Prepared, d: ConfigDiff, oldCfg: Config, newCfg: Config)
    requires IsDiff(oldCfg, newCfg, d) && PreparedFor(p, d, newCfg)
    ensures Plan(p, oldCfg, newCfg)
  {
  }

  /** cfg has the running inbounds and everything else of the old configuration; the inbounds are not the new ones. */
  ghost predicate StillToDo(cfg: Config, oldCfg: Config, newCfg: Config, running: map<string, InboundConfig>) {
    && Unique(cfg.inbounds, ListenOf) && Index(cfg.inbounds, ListenOf) == running
    && cfg.outbounds == oldCfg.outbounds && cfg.rules == oldCfg.rules
    && running != Index(newCfg.inbounds, ListenOf)
  }

  /**
   What the environment has answered since an operation began, as far as the operation goes by it:
   whether a handler could not be created, which ones came up or did not, which ones could be stopped or
   not. A Stop whose error is only logged is not among them.
   */
  datatype Answers = Answers(refused: bool, up: set<nat>, down: set<nat>, stopped: set<nat>, unstopped: set<nat>)

  function Nothing(): Answers {
    Answers(false, {}, {}, {}, {})
  }

  /** A Start that did not come up, or a Stop that failed where it had to succeed. */
  predicate Failure(a: Answers) {
    a.down != {} || a.unstopped != {}
  }

  /** A handler older than lo was stopped, or one made since could not be. */
  predicate Damage(a: Answers, lo: nat) {
    (exists i :: i in a.stopped && i < lo) || (exists i :: i in a.unstopped && i >= lo)
  }

  /** How a commit of handlers made since lo ends: success without a failure, else partial exactly with damage. */
  predicate Verdict(r: CommitResult, a: Answers, lo: nat) {
    match r
    case Committed => !Failure(a)
    case PlainError => Failure(a) && !Damage(a, lo)
    case PartialError => Failure(a) && Damage(a, lo)
  }

  /** All of ids were asked to stop; all says that all of them did. */
  ghost predicate AskedToStop(a0: Answers, a: Answers, ids: set<nat>, all: bool) {
    && a.refused == a0.refused && a.up == a0.up && a.down == a0.down
    && (forall i :: i in a.stopped <==> i in a0.stopped || (i in ids && i in a.stopped))
    && (forall i :: i in a.unstopped <==> i in a0.unstopped || (i in ids && i in a.unstopped))
    && (forall i :: i in ids ==> i in a.stopped || i in a.unstopped)
    && (all ==> a.unstopped == a0.unstopped) && (!all ==> exists i :: i in ids && i in a.unstopped)
  }

  /** What the updates so far have been answered: see Updating for todo, ok and lost. */
  ghost predicate Answered(todo: set<string>, upd: map<string, Inbound>, ok: set<string>, lost: set<string>, a: Answers,
                           lo: nat)
  {
    && (forall k :: k in todo ==> k in upd && upd[k].id !in a.up && upd[k].id !in a.down)
    && (forall k :: k in upd && k !in todo ==> (k in ok <==> upd[k].id in a.up) && (k in lost <==> upd[k].id in a.down))
    && (a.down == {} <==> lost == {}) && (a.stopped == {} <==> ok == {} && lost == {})
    && (a.unstopped == {} <==> forall k :: k in upd && k !in todo ==> k in ok || k in lost)
    && (forall i :: i in a.stopped || i in a.unstopped ==> i < lo) && !a.refused
  }

  /** The same, for a loop that only hands it on. */
  ghost predicate AnsweredSoFar(todo: set<string>, upd: map<string, Inbound>, ok: set<string>, lost: set<string>,
                                a: Answers, lo: nat)
  {
    forall t: set<string> | t == todo :: Answered(t, upd, ok, lost, a, lo)
  }

  /** What one update adds to the answers. */
  function AfterAnswer(a: Answers, outcome: CommitResult, was: nat, new_: nat): Answers {
    match outcome
    case Committed => a.(stopped := a.stopped + {was}, up := a.up + {new_})
    case PlainError => a.(unstopped := a.unstopped + {was})
    case PartialError => a.(stopped := a.stopped + {was}, down := a.down + {new_})
  }

  lemma AnsweredStep(l: string, todo: set<string>, upd: map<string, Inbound>, ok: set<string>, lost: set<string>,
                     a: Answers, lo: nat, outcome: CommitResult, was: nat)
    requires l in todo && todo <= upd.Keys && Distinct(upd) && was < lo && l !in ok && l !in lost
    requires Answered(todo, upd, ok, lost, a, lo)
    ensures
      var ok' := if outcome.Committed? then ok + {l} else ok;
      var lost' := if outcome.PartialError? then lost + {l} else lost;
      Answered(todo - {l}, upd, ok', lost', AfterAnswer(a, outcome, was, upd[l].id), lo)
  {
    var ok' := if outcome.Committed? then ok + {l} else ok;
    var lost' := if outcome.PartialError? then lost + {l} else lost;
    var a' := AfterAnswer(a, outcome, was, upd[l].id);
    assert l in ok' || l in lost' || was in a'.unstopped;
    assert outcome.Committed? ==> was in a'.stopped && l in ok';
    assert outcome.PartialError? ==> was in a'.stopped && l in lost' && upd[l].id in a'.down;
    if outcome.PlainError? {
      assert l in upd && l !in todo - {l} && l !in ok' && l !in lost';
    }
  }

  /** Of the updates in keys, those in ok are the ones whose new handler came up, those in lost whose did not. */
  ghost predicate Matched(made: map<string, Inbound>, keys: set<string>, ok: set<string>, lost: set<string>,
                          a: Answers)
  {
    forall k :: k in keys ==> k in made && (k in ok <==> made[k].id in a.up) && (k in lost <==> made[k].id in a.down)
  }

  lemma RollBackVerdict(updated: map<string, Inbound>, ok: set<string>, lost: set<string>, a0: Answers, a: Answers,
                        added: map<string, Inbound>, all: bool, lo: nat)
    requires Answered({}, updated, ok, lost, a0, lo) && ok + lost <= updated.Keys && ok != updated.Keys
    requires AskedToStop(a0, a, Ids(added), all) && forall k :: k in added ==> lo <= added[k].id
    ensures Failure(a) && (Damage(a, lo) <==> ok != {} || lost != {} || !all)
  {
    var k :| k in updated && k !in ok;
    if k !in lost {
      assert a0.unstopped != {};
      var i :| i in a0.unstopped;
      assert i in a.unstopped;
    }
    if ok != {} || lost != {} {
      var i :| i in a0.stopped;
      assert i in a.stopped && i < lo;
    } else {
      assert forall i :: i in a.stopped ==> i >= lo;
    }
  }

  /** Phase 1 failed: no update was tried. */
  lemma NoneStarted(added: map<string, Inbound>, updated: map<string, Inbound>, a: Answers, lo: nat)
    requires a.up + a.down + a.stopped + a.unstopped <= Ids(added) && a.down != {} && Ids(added) !! Ids(updated)
    requires forall k :: k in added ==> lo <= added[k].id
    ensures Failure(a) && (Damage(a, lo) <==> a.unstopped != {})
    ensures Matched(updated, updated.Keys, {}, {}, a)
  {
    assert forall k :: k in updated ==> updated[k].id in Ids(updated);
  }

  /** The updates are part of what was made. */
  lemma MatchedPartOfMade(inb: map<string, Inbound>, made: map<string, Inbound>, updated: map<string, Inbound>,
                          ok: set<string>, lost: set<string>, a: Answers)
    requires updated == made - (made.Keys - inb.Keys) && Matched(updated, updated.Keys, ok, lost, a)
    ensures Matched(made, updated.Keys, ok, lost, a)
  {
  }

  lemma AfterPartOfMade(inb: map<string, Inbound>, made: map<string, Inbound>, updated: map<string, Inbound>,
                        ok: set<string>, lost: set<string>)
    requires updated == made - (made.Keys - inb.Keys) && ok + lost <= updated.Keys
    ensures AfterUpdates(inb, updated, ok, lost) == AfterUpdates(inb, made, ok, lost)
  {
  }

  /** What the agent was before a reload, or is after it. */
  datatype Snapshot = Snapshot(
    config: Config, inbounds: map<string, Inbound>, outbounds: map<string, Outbound>, live: set<nat>)

  /** What a reload made, and which updates of it went through or lost their handler. */
  datatype Trail = Trail(ok: set<string>, lost: set<string>, made: map<string, Inbound>, madeOut: map<string, Outbound>)

  ghost predicate MadeFor(oldCfg: Config, newCfg: Config, t: Trail) {
    var o, n := Index(oldCfg.inbounds, ListenOf), Index(newCfg.inbounds, ListenOf);
    var oOut, nOut := Index(oldCfg.outbounds, NameOf), Index(newCfg.outbounds, NameOf);
    Cfgs(t.made) == Updated(o, n) + Added(o, n) && Cfgs(t.madeOut) == Updated(oOut, nOut) + Added(oOut, nOut)
  }

  /**
   What a reload that ended with r has done to an agent that was as was says and is as now says. Reloaded
   swaps in what was made and keeps every other handler. Every outcome but Reloaded and PartiallyReloaded
   leaves configuration, maps and live handlers as they were; PartiallyReloaded never does, and stores
   the configuration of what runs: the old handler for an update that was skipped, the new one exactly
   where it came up, none where it did not. A commit that failed, in part or in whole, leaves inbounds to
   be changed.
   */
  ghost predicate Outcome(r: ReloadResult, was: Snapshot, now: Snapshot, a: Answers, newCfg: Config, t: Trail) {
    var o, n := Index(was.config.inbounds, ListenOf), Index(newCfg.inbounds, ListenOf);
    match r
    case Reloaded =>
      now.config == newCfg && MadeFor(was.config, newCfg, t) && Swapped(was, now, newCfg, t)
    case PartiallyReloaded =>
      && now.outbounds == was.outbounds && (now.inbounds != was.inbounds || now.live != was.live)
      && now.config == Reconcile(was.config, newCfg, t.ok, t.lost)
      && t.ok !! t.lost && t.ok + t.lost <= Updated(o, n).Keys
      && MadeFor(was.config, newCfg, t) && Matched(t.made, Updated(o, n).Keys, t.ok, t.lost, a)
      && now.inbounds == AfterUpdates(was.inbounds, t.made, t.ok, t.lost)
      && Index(now.config.inbounds, ListenOf) != n
    case _ =>
      && now.outbounds == was.outbounds && now.config == was.config
      && now.inbounds == was.inbounds && now.live == was.live
      && (r.CommitFailed? ==> Index(now.config.inbounds, ListenOf) != n)
  }

  /** The same, for a method that only hands it on. */
  ghost predicate Accounted(r: ReloadResult, was: Snapshot, now: Snapshot, a: Answers, newCfg: Config, t: Trail) {
    forall c: Config | c == newCfg :: Outcome(r, was, now, a, c, t)
  }

  /** What phases 1 and 2 have done, for the added and the updated handlers. */
  ghost predicate Stepped(r: CommitResult, was: Snapshot, now: Snapshot, added: map<string, Inbound>,
                          updated: map<string, Inbound>, newCfg: Config, ok: set<string>, lost: set<string>)
  {
    && ok !! lost && ok + lost <= updated.Keys && now.outbounds == was.outbounds
    && now.inbounds == AfterUpdates(was.inbounds, updated, ok, lost)
    && match r
       case Committed => now.config == was.config && ok == updated.Keys && lost == {}
       case PlainError =>
         && now.config == was.config && ok == {} && lost == {} && now.live == was.live
         && (added != map[] || ok != updated.Keys)
       case PartialError =>
         && now.config == Reconcile(was.config, newCfg, ok, lost) && (ok != {} || lost != {} || now.live != was.live)
         && (added != map[] || ok != updated.Keys)
  }

  /** Phases 1 and 2 went through: what phase 3 goes on from. */
  ghost predicate Halfway(was: Snapshot, now: Snapshot, p: Prepared, newCfg: Config, added: map<string, Inbound>) {
    var o, n := Index(was.config.inbounds, ListenOf), Index(newCfg.inbounds, ListenOf);
    && now.config == was.config && now.outbounds == was.outbounds
    && now.inbounds == AfterUpdates(was.inbounds, p.newInbounds, Updated(o, n).Keys, {})
    && Cfgs(now.inbounds) == Landed(o, n, Updated(o, n).Keys, {})
    && added == p.newInbounds - was.inbounds.Keys && Cfgs(added) == Added(o, n)
  }

  /** They did not: the outcome of the reload, and a stored configuration that is that of what runs. */
  ghost predicate Stopped(r: CommitResult, was: Snapshot, now: Snapshot, a: Answers, newCfg: Config, t: Trail) {
    && Accounted(Reported(r), was, now, a, newCfg, t)
    && Unique(now.config.inbounds, ListenOf) && Cfgs(now.inbounds) == Index(now.config.inbounds, ListenOf)
    && now.config.outbounds == was.config.outbounds && now.config.rules == was.config.rules
    && now.outbounds == was.outbounds
  }

  lemma ReachedHalfway(was: Snapshot, now: Snapshot, p: Prepared, newCfg: Config, added: map<string, Inbound>,
                       updated: map<string, Inbound>, ok: set<string>, lost: set<string>)
    requires Plan(p, was.config, newCfg) && Cfgs(was.inbounds) == Index(was.config.inbounds, ListenOf)
    requires added == p.newInbounds - was.inbounds.Keys
    requires updated == p.newInbounds - (p.newInbounds.Keys - was.inbounds.Keys)
    requires Stepped(Committed, was, now, added, updated, newCfg, ok, lost)
    ensures Halfway(was, now, p, newCfg, added)
  {
    var o, n := Index(was.config.inbounds, ListenOf), Index(newCfg.inbounds, ListenOf);
    SplitPrepared(o, n, was.inbounds, p.newInbounds);
    CfgsLanded(o, n, was.inbounds, updated, ok, lost);
    AfterPartOfMade(was.inbounds, p.newInbounds, updated, ok, lost);
  }

  lemma StoppedFacts(r: CommitResult, was: Snapshot, now: Snapshot, p: Prepared, newCfg: Config,
                     added: map<string, Inbound>, updated: map<string, Inbound>, ok: set<string>, lost: set<string>,
                     a: Answers, lo: nat)
    requires !r.Committed? && Plan(p, was.config, newCfg) && Unique(was.config.inbounds, ListenOf)
    requires Cfgs(was.inbounds) == Index(was.config.inbounds, ListenOf)
    requires added == p.newInbounds - was.inbounds.Keys
    requires updated == p.newInbounds - (p.newInbounds.Keys - was.inbounds.Keys)
    requires forall l :: l in was.inbounds ==> was.inbounds[l].id < lo
    requires forall l :: l in updated ==> lo <= updated[l].id
    requires Stepped(r, was, now, added, updated, newCfg, ok, lost) && Matched(updated, updated.Keys, ok, lost, a)
    ensures
      var o, n := Index(was.config.inbounds, ListenOf), Index(newCfg.inbounds, ListenOf);
      && updated.Keys == Updated(o, n).Keys && Matched(p.newInbounds, Updated(o, n).Keys, ok, lost, a)
      && now.inbounds == AfterUpdates(was.inbounds, p.newInbounds, ok, lost)
      && (now.inbounds == was.inbounds <==> ok == {} && lost == {})
      && now.config == Reconcile(was.config, newCfg, ok, lost)
      && StillToDo(now.config, was.config, newCfg, Cfgs(now.inbounds))
  {
    var o, n := Index(was.config.inbounds, ListenOf), Index(newCfg.inbounds, ListenOf);
    SplitPrepared(o, n, was.inbounds, p.newInbounds);
    CfgsLanded(o, n, was.inbounds, updated, ok, lost);
    UpdatesShow(was.inbounds, updated, ok, lost, lo);
    StoppedShort(was.config, newCfg, added, updated, ok, lost);
    AfterPartOfMade(was.inbounds, p.newInbounds, updated, ok, lost);
    MatchedPartOfMade(was.inbounds, p.newInbounds, updated, ok, lost, a);
  }

  lemma StoppedOutcome(r: CommitResult, was: Snapshot, now: Snapshot, p: Prepared, newCfg: Config,
                       added: map<string, Inbound>, updated: map<string, Inbound>, ok: set<string>, lost: set<string>,
                       a: Answers, lo: nat)
    requires !r.Committed? && Plan(p, was.config, newCfg) && Unique(was.config.inbounds, ListenOf)
    requires Cfgs(was.inbounds) == Index(was.config.inbounds, ListenOf)
    requires added == p.newInbounds - was.inbounds.Keys
    requires updated == p.newInbounds - (p.newInbounds.Keys - was.inbounds.Keys)
    requires forall l :: l in was.inbounds ==> was.inbounds[l].id < lo
    requires forall l :: l in updated ==> lo <= updated[l].id
    requires Stepped(r, was, now, added, updated, newCfg, ok, lost) && Matched(updated, updated.Keys, ok, lost, a)
    ensures Stopped(r, was, now, a, newCfg, Trail(ok, lost, p.newInbounds, p.newOutbounds))
  {
    StoppedFacts(r, was, now, p, newCfg, added, updated, ok, lost, a, lo);
    StoppedSummary(r, was, now, a, newCfg, Trail(ok, lost, p.newInbounds, p.newOutbounds));
  }

  lemma StoppedSummary(r: CommitResult, was: Snapshot, now: Snapshot, a: Answers, newCfg: Config, t: Trail)
    requires !r.Committed? && MadeFor(was.config, newCfg, t) && now.outbounds == was.outbounds
    requires
      var o, n := Index(was.config.inbounds, ListenOf), Index(newCfg.inbounds, ListenOf);
      && t.ok !! t.lost && t.ok + t.lost <= Updated(o, n).Keys
      && Matched(t.made, Updated(o, n).Keys, t.ok, t.lost, a)
      && now.inbounds == AfterUpdates(was.inbounds, t.made, t.ok, t.lost)
      && now.config == Reconcile(was.config, newCfg, t.ok, t.lost)
      && StillToDo(now.config, was.config, newCfg, Cfgs(now.inbounds))
    requires r.PlainError? ==> now.config == was.config && now.inbounds == was.inbounds && now.live == was.live
    requires r.PartialError? ==> now.inbounds != was.inbounds || now.live != was.live
    ensures Stopped(r, was, now, a, newCfg, t)
  {
    assert Outcome(Reported(r), was, now, a, newCfg, t);
  }

  lemma NothingDone(r: ReloadResult, was: Snapshot, a: Answers, newCfg: Config, t: Trail)
    requires r.PrepareFailed? || r.NoChange? || r.NotRunning? || r.Invalid?
    ensures Accounted(r, was, was, a, newCfg, t)
  {
  }

  /** The maps have what was made in place of what was removed or replaced, and all else as it was. */
  ghost predicate Swapped(was: Snapshot, now: Snapshot, newCfg: Config, t: Trail) {
    var o, n := Index(was.config.inbounds, ListenOf), Index(newCfg.inbounds, ListenOf);
    var oOut, nOut := Index(was.config.outbounds, NameOf), Index(newCfg.outbounds, NameOf);
    && now.inbounds == (was.inbounds - (o.Keys - n.Keys)) + t.made
    && now.outbounds == (was.outbounds - (oOut.Keys - nOut.Keys)) + t.madeOut
  }

  /** All is done but storing the new configuration, or the outcome is what it is. */
  ghost predicate Committing(r: CommitResult, was: Snapshot, now: Snapshot, a: Answers, newCfg: Config, t: Trail) {
    if r.Committed? then MadeFor(was.config, newCfg, t) && Swapped(was, now, newCfg, t)
    else Accounted(Reported(r), was, now, a, newCfg, t)
  }

  /** The same, for a method that only hands it on. */
  ghost predicate ReadyToSettle(r: CommitResult, was: Snapshot, now: Snapshot, a: Answers, newCfg: Config, t: Trail) {
    forall c: Config | c == newCfg :: Committing(r, was, now, a, c, t)
  }

  /** Nothing was prepared exactly when a creation was refused; otherwise the commit's verdict. */
  predicate ReloadVerdict(r: ReloadResult, a: Answers, lo: nat) {
    match r
    case PrepareFailed => a.refused
    case Reloaded => !a.refused && !Failure(a)
    case CommitFailed => !a.refused && Failure(a) && !Damage(a, lo)
    case PartiallyReloaded => !a.refused && Failure(a) && Damage(a, lo)
    case _ => false
  }

  datatype StartResult = Started | RolledBack | RollbackIncomplete
  datatype CommitResult = Committed | PlainError | PartialError

  function Reported(r: CommitResult): ReloadResult {
    match r
    case Committed => Reloaded
    case PlainError => CommitFailed
    case PartialError => PartiallyReloaded
  }

  datatype ReloadResult =
    | Reloaded | NotRunning | Invalid(error: ConfigError) | NoChange | PrepareFailed | CommitFailed | PartiallyReloaded

  /** The inbound map after the updates in ok went through and the handlers in lost went away. */
  function AfterUpdates(inb: map<string, Inbound>, upd: map<string, Inbound>, ok: set<string>, lost: set<string>)
    : map<string, Inbound>
  {
    (inb - lost) + (map l | l in upd && l in ok :: upd[l])
  }

  lemma CfgsWith<C>(hs: map<string, Handler<C>>, k: string, h: Handler<C>)
    ensures Cfgs(hs).Keys == hs.Keys && Cfgs(hs[k := h]) == Cfgs(hs)[k := h.cfg]
  {
  }

  lemma FreshWith<C>(hs: map<string, Handler<C>>, k: string, h: Handler<C>, lo: nat)
    requires lo <= h.id && Fresh(hs, lo, h.id)
    ensures Fresh(hs[k := h], lo, h.id + 1)
  {
    var hs' := hs[k := h];
    assert forall j :: j in hs' ==> hs'[j] == if j == k then h else hs[j];
  }

  lemma OneMore<C>(hs: map<string, Handler<C>>, base: map<string, C>, index: map<string, C>, k: string, h: Handler<C>,
                   lo: nat)
    requires lo <= h.id && Fresh(hs, lo, h.id) && Cfgs(hs) == base + index
    ensures Fresh(hs[k := h], lo, h.id + 1)
    ensures Cfgs(hs[k := h]) == base + index[k := h.cfg]
  {
    FreshWith(hs, k, h, lo);
    CfgsWith(hs, k, h);
    MapPlusOne(base, index, k, h.cfg);
  }

  lemma MapPlusOne<C>(base: map<string, C>, index: map<string, C>, k: string, c: C)
    ensures (base + index)[k := c] == base + index[k := c]
  {
  }

  lemma AfterOneUpdate(inb: map<string, Inbound>, upd: map<string, Inbound>, ok: set<string>, lost: set<string>,
                       l: string)
    requires l in upd && l in inb && l !in ok && l !in lost
    ensures l in AfterUpdates(inb, upd, ok, lost)
    ensures AfterUpdates(inb, upd, ok + {l}, lost) == AfterUpdates(inb, upd, ok, lost)[l := upd[l]]
    ensures AfterUpdates(inb, upd, ok, lost + {l}) == AfterUpdates(inb, upd, ok, lost) - {l}
  {
  }

  /** Which updates are still to come, which went through, which lost their handler, and what that left. */
  ghost predicate Updating(todo: set<string>, upd: map<string, Inbound>, before: map<string, Inbound>, was: set<nat>,
                           inb: map<string, Inbound>, live: set<nat>, ok: set<string>, lost: set<string>, failed: bool)
  {
    && (forall k :: k in todo ==> k in upd && k !in ok && k !in lost && upd[k].id !in live)
    && (forall k :: k in ok ==> k in upd && k !in lost)
    && (forall k :: k in lost ==> k in upd)
    && (!failed ==> forall k :: k in upd ==> k in todo || k in ok)
    && (failed ==> exists k :: k in upd && k !in todo && k !in ok)
    && inb == AfterUpdates(before, upd, ok, lost)
    && (ok == {} && lost == {} ==> live == was)
  }

  lemma UpdatingStep(l: string, todo: set<string>, upd: map<string, Inbound>, before: map<string, Inbound>,
                     was: set<nat>, inb: map<string, Inbound>, live: set<nat>,
                     ok: set<string>, lost: set<string>, failed: bool,
                     inb': map<string, Inbound>, live': set<nat>, outcome: CommitResult)
    requires l in todo && upd.Keys <= before.Keys && Distinct(upd)
    requires Updating(todo, upd, before, was, inb, live, ok, lost, failed)
    requires live' <= live + {upd[l].id} && (outcome.PlainError? ==> live' == live)
    requires inb' == match outcome
      case Committed => inb[l := upd[l]]
      case PlainError => inb
      case PartialError => inb - {l}
    ensures
      var ok' := if outcome.Committed? then ok + {l} else ok;
      var lost' := if outcome.PartialError? then lost + {l} else lost;
      Updating(todo - {l}, upd, before, was, inb', live', ok', lost', failed || !outcome.Committed?)
  {
    AfterOneUpdate(before, upd, ok, lost, l);
    if !outcome.Committed? {
      assert l in upd && l !in todo - {l} && l !in ok;
    }
  }

  class Agent {
    var config: Config
    var inbounds: map<string, Inbound>
    var outbounds: map<string, Outbound>
    const router: Router
    var running: bool
    var nextId: nat
    /** Identities of handlers that were started and not successfully stopped since. */
    ghost var live: set<nat>
    /** Identities of handlers that a Stop has failed on. */
    ghost var leaked: set<nat>
    /** Identities of handlers that have come up. */
    ghost var came: set<nat>
    /** The environment's answers since the last reload, start or stop began. */
    ghost var asked: Answers

    /** Handlers, names, rules and group index are those of cfg. */
    ghost predicate Mirrors(cfg: Config)
      reads this`inbounds, this`outbounds, router
    {
      && Unique(cfg.inbounds, ListenOf) && Unique(cfg.outbounds, NameOf)
      && Cfgs(inbounds) == Index(cfg.inbounds, ListenOf)
      && OutboundsMirror(cfg)
    }

    ghost predicate OutboundsMirror(cfg: Config)
      reads this`outbounds, router
    {
      && Cfgs(outbounds) == Index(cfg.outbounds, NameOf)
      && router.outbounds == outbounds && router.rules == cfg.rules && router.Valid()
    }

    ghost predicate Numbered()
      reads this`inbounds, this`live, this`nextId
    {
      (forall l :: l in inbounds ==> inbounds[l].id < nextId) && (forall i :: i in live ==> i < nextId)
    }

    /**
     Every inbound in the map, and every one in extra, has come up and has not been stopped since;
     whatever else is still live is there because its Stop failed.
     */
    ghost predicate Tracked(extra: set<nat>)
      reads this`inbounds, this`live, this`leaked, this`came
    {
      && Distinct(inbounds)
      && (forall i :: i in Ids(inbounds) ==> i in live && i in came && i !in extra)
      && (forall i :: i in extra ==> i in live && i in came)
      && (forall i :: i in live ==> i in Ids(inbounds) || i in extra || i in leaked)
    }

    /**
     An agent that does not run: whatever is live is there because its Stop failed, and what earlier
     starts left in the maps goes by names of the configuration. The group index may be out of step.
     */
    ghost predicate Resting()
      reads this`config, this`inbounds, this`outbounds, this`live, this`leaked, router
    {
      && Unique(config.inbounds, ListenOf) && Unique(config.outbounds, NameOf)
      && (forall i :: i in live ==> i in leaked)
      && inbounds.Keys <= Index(config.inbounds, ListenOf).Keys
      && outbounds.Keys <= Index(config.outbounds, NameOf).Keys && router.outbounds == outbounds
    }

    ghost predicate Valid()
      reads this, router
    {
      Numbered() && if running then Tracked({}) && Mirrors(config) else Resting()
    }

    constructor (cfg: Config)
      ensures Unique(cfg.inbounds, ListenOf) && Unique(cfg.outbounds, NameOf) ==> Valid()
      ensures !running && config == cfg && inbounds == map[] && outbounds == map[] && live == {} && leaked == {}
      ensures fresh(router) && router.Valid() && router.outbounds == map[] && router.groups == map[]
    {
      config, inbounds, outbounds, running, nextId := cfg, map[], map[], false, 0;
      live, leaked, came, asked := {}, {}, {}, Nothing();
      router := new Router();
    }

    // ---------------------------------------------------------------- the environment

    /** inbound.New and outbound.New: they may refuse. */
    method NewHandler<C>(cfg: C) returns (h: Option<Handler<C>>)
      modifies this`nextId, this`asked
      ensures h.Some? ==> h.value == Handler(cfg, old(nextId)) && nextId == old(nextId) + 1 && asked == old(asked)
      ensures h.None? ==> nextId == old(nextId) && asked == old(asked).(refused := true)
    {
      var refused: bool := *;
      if refused {
        asked := asked.(refused := true);
        return None;
      }
      h := Some(Handler(cfg, nextId));
      nextId := nextId + 1;
    }

    /** Start and WaitReady: the listener may or may not come up. */
    method TryStart<C>(h: Handler<C>) returns (up: bool)
      modifies this`live, this`came, this`asked
      ensures live == old(live) + {h.id} && came == old(came) + if up then {h.id} else {}
      ensures asked ==
        if up then old(asked).(up := old(asked).up + {h.id}) else old(asked).(down := old(asked).down + {h.id})
    {
      up := *;
      live := live + {h.id};
      if up {
        came := came + {h.id};
        asked := asked.(up := asked.up + {h.id});
      } else {
        asked := asked.(down := asked.down + {h.id});
      }
    }

    /** A Stop that the caller goes by. */
    method TryStop<C>(h: Handler<C>) returns (stopped: bool)
      modifies this`live, this`leaked, this`asked
      ensures live == if stopped then old(live) - {h.id} else old(live)
      ensures leaked == if stopped then old(leaked) else old(leaked) + {h.id}
      ensures asked ==
        if stopped then old(asked).(stopped := old(asked).stopped + {h.id})
        else old(asked).(unstopped := old(asked).unstopped + {h.id})
    {
      stopped := Discard(h);
      if stopped {
        asked := asked.(stopped := asked.stopped + {h.id});
      } else {
        asked := asked.(unstopped := asked.unstopped + {h.id});
      }
    }

    /** A Stop whose error is only logged. */
    method Discard<C>(h: Handler<C>) returns (stopped: bool)
      modifies this`live, this`leaked
      ensures live == if stopped then old(live) - {h.id} else old(live)
      ensures leaked == if stopped then old(leaked) else old(leaked) + {h.id}
    {
      stopped := *;
      if stopped {
        live := live - {h.id};
      } else {
        leaked := leaked + {h.id};
      }
    }

    // ---------------------------------------------------------------- prepareDiff

    method CreateAll<C>(cfgs: seq<C>, key: C -> string, into: map<string, Handler<C>>, ghost lo: nat)
      returns (hs: Option<map<string, Handler<C>>>)
      requires lo <= nextId && Fresh(into, lo, nextId) && !asked.refused
      modifies this`nextId, this`asked
      ensures nextId >= old(nextId) && asked == old(asked).(refused := hs.None?)
      ensures hs.Some? ==> Cfgs(hs.value) == Cfgs(into) + Index(cfgs, key) && Fresh(hs.value, lo, nextId)
    {
      var made := into;
      var i := 0;
      assert Cfgs(into) + map[] == Cfgs(into);
      while i < |cfgs|
        invariant 0 <= i <= |cfgs| && nextId >= old(nextId) && asked == old(asked)
        invariant Cfgs(made) == Cfgs(into) + Index(cfgs[..i], key) && Fresh(made, lo, nextId)
      {
        var h := NewHandler(cfgs[i]);
        if h.None? {
          return None;
        }
        IndexAppend(cfgs[..i], cfgs[i], key);
        assert cfgs[..i + 1] == cfgs[..i] + [cfgs[i]];
        OneMore(made, Cfgs(into), Index(cfgs[..i], key), key(cfgs[i]), h.value, lo);
        made := made[key(cfgs[i]) := h.value];
        i := i + 1;
      }
      assert cfgs[..i] == cfgs;
      hs := Some(made);
    }

    /** The updated entries first, then the added ones. */
    method CreateBoth<C>(d: Delta<C>, key: C -> string) returns (hs: Option<map<string, Handler<C>>>)
      requires !asked.refused
      modifies this`nextId, this`asked
      ensures nextId >= old(nextId) && asked == old(asked).(refused := hs.None?)
      ensures hs.Some? ==>
        Cfgs(hs.value) == Index(d.updated, key) + Index(d.added, key) && Fresh(hs.value, old(nextId), nextId)
    {
      ghost var lo := nextId;
      var updated := CreateAll(d.updated, key, map[], lo);
      if updated.None? {
        return None;
      }
      assert Cfgs(updated.value) == Index(d.updated, key);
      hs := CreateAll(d.added, key, updated.value, lo);
    }

    /** Creates every new handler of the diff; a refusal leaves the running state alone. */
    method PrepareDiff(d: ConfigDiff, ghost oldCfg: Config, cfg: Config) returns (p: Option<Prepared>)
      requires IsDiff(oldCfg, cfg, d) && Numbered() && !asked.refused
      modifies this`nextId, this`asked
      ensures Numbered() && Older(old(nextId)) && nextId >= old(nextId)
      ensures asked == old(asked).(refused := p.None?)
      ensures p.Some? ==> Plan(p.value, oldCfg, cfg) && Fresh(p.value.newInbounds, old(nextId), nextId)
    {
      var newIn := CreateBoth(d.inbounds, ListenOf);
      if newIn.None? {
        return None;
      }
      var newOut := CreateBoth(d.outbounds, NameOf);
      if newOut.None? {
        return None;
      }
      p := Some(Prepared(
        d.inbounds.removed, newIn.value, d.outbounds.removed, newOut.value, d.routingChanged, cfg.rules));
      PreparedIsPlan(p.value, d, oldCfg, cfg);
    }

    // ---------------------------------------------------------------- starting and rolling back

    method StopAll(hs: map<string, Inbound>, ghost lo: nat) returns (allStopped: bool)
      requires Fresh(hs, lo, nextId)
      modifies this`live, this`leaked, this`asked
      ensures old(live) - Ids(hs) <= live <= old(live)
      ensures live <= (old(live) - Ids(hs)) + leaked && old(leaked) <= leaked
      ensures allStopped ==> live == old(live) - Ids(hs)
      ensures !allStopped ==> exists k :: k in hs && (hs[k].id in old(live) ==> hs[k].id in live)
      ensures AskedToStop(old(asked), asked, Ids(hs), allStopped)
    {
      allStopped := true;
      var todo := hs.Keys;
      ghost var done: set<nat> := {};
      while todo != {}
        invariant todo <= hs.Keys && done == set k | k in hs && k !in todo :: hs[k].id
        invariant old(live) - done <= live <= old(live) && live <= (old(live) - done) + leaked && old(leaked) <= leaked
        invariant allStopped ==> live == old(live) - done
        invariant !allStopped ==> exists k :: k in hs && k !in todo && (hs[k].id in old(live) ==> hs[k].id in live)
        invariant AskedToStop(old(asked), asked, done, allStopped)
        decreases todo
      {
        var k :| k in todo;
        todo := todo - {k};
        done := done + {hs[k].id};
        var stopped := TryStop(hs[k]);
        if !stopped {
          allStopped := false;
        }
      }
      assert Ids(hs) == done;
    }

    /** Starts all of them; if one does not come up, stops all of them. */
    method StartAndWait(hs: map<string, Inbound>, ghost lo: nat) returns (r: StartResult)
      requires Fresh(hs, lo, nextId) && Ids(hs) !! live && asked == Nothing()
      modifies this`live, this`leaked, this`came, this`asked
      ensures r.Started? ==> live == old(live) + Ids(hs) && leaked == old(leaked)
      ensures !r.Started? ==> live <= old(live) + leaked && old(leaked) <= leaked
      ensures r.RolledBack? ==> live == old(live)
      ensures r.RollbackIncomplete? ==> live != old(live)
      ensures old(live) <= live <= old(live) + Ids(hs) && came == old(came) + asked.up
      ensures !asked.refused && asked.up + asked.down == Ids(hs) && asked.stopped + asked.unstopped <= Ids(hs)
      ensures r.Started? <==> asked.down == {}
      ensures r.Started? ==> asked == Nothing().(up := Ids(hs))
      ensures r.RollbackIncomplete? <==> asked.unstopped != {}
    {
      var anyFailed := false;
      var todo := hs.Keys;
      ghost var done: set<nat> := {};
      while todo != {}
        invariant todo <= hs.Keys && done == set k | k in hs && k !in todo :: hs[k].id
        invariant live == old(live) + done && leaked == old(leaked) && came == old(came) + asked.up
        invariant asked == Nothing().(up := asked.up, down := asked.down) && asked.up + asked.down == done
        invariant anyFailed <==> asked.down != {}
        decreases todo
      {
        var k :| k in todo;
        todo := todo - {k};
        done := done + {hs[k].id};
        var up := TryStart(hs[k]);
        anyFailed := anyFailed || !up;
      }
      assert Ids(hs) == done;
      if !anyFailed {
        return Started;
      }
      var allStopped := StopAll(hs, lo);
      r := if allStopped then RolledBack else RollbackIncomplete;
    }

    // ---------------------------------------------------------------- commitDiff

    /** Phase 2: stop the old handler, start the new one, for each updated listen. */
    method UpdateInbounds(upd: map<string, Inbound>, ghost lo: nat, ghost extra: set<nat>)
      returns (ok: set<string>, lost: set<string>, failed: bool)
      requires Fresh(upd, lo, nextId) && Ids(upd) !! live && upd.Keys <= inbounds.Keys && Numbered() && Tracked(extra)
      requires (forall l :: l in inbounds ==> inbounds[l].id < lo) && Ids(upd) !! extra
      requires asked == Nothing().(up := extra)
      modifies this`inbounds, this`live, this`leaked, this`came, this`asked
      ensures Numbered() && Tracked(extra) && ok !! lost && ok + lost <= upd.Keys
      ensures failed <==> ok != upd.Keys
      ensures inbounds == AfterUpdates(old(inbounds), upd, ok, lost)
      ensures ok == {} && lost == {} ==> live == old(live)
      ensures Answered({}, upd, ok, lost, asked, lo)
    {
      ok, lost, failed := {}, {}, false;
      var todo := upd.Keys;
      while todo != {}
        invariant Numbered() && Tracked(extra)
        invariant Updating(todo, upd, old(inbounds), old(live), inbounds, live, ok, lost, failed)
        invariant AnsweredSoFar(todo, upd, ok, lost, asked, lo)
        decreases todo
      {
        var l :| l in todo;
        ok, lost, failed := UpdateNext(l, todo, upd, ok, lost, failed, old(inbounds), old(live), lo, extra);
        todo := todo - {l};
      }
    }

    /** One of them; ok, lost and failed take it into account. */
    method UpdateNext(l: string, ghost todo: set<string>, upd: map<string, Inbound>, ok0: set<string>,
                      lost0: set<string>, failed0: bool, ghost before: map<string, Inbound>, ghost was: set<nat>,
                      ghost lo: nat, ghost extra: set<nat>)
      returns (ok: set<string>, lost: set<string>, failed: bool)
      requires Numbered() && Tracked(extra) && l in todo && upd.Keys <= before.Keys && Fresh(upd, lo, nextId)
      requires Updating(todo, upd, before, was, inbounds, live, ok0, lost0, failed0)
      requires AnsweredSoFar(todo, upd, ok0, lost0, asked, lo) && before[l].id < lo
      modifies this`inbounds, this`live, this`leaked, this`came, this`asked
      ensures Numbered() && Tracked(extra)
      ensures Updating(todo - {l}, upd, before, was, inbounds, live, ok, lost, failed)
      ensures AnsweredSoFar(todo - {l}, upd, ok, lost, asked, lo)
    {
      assert Answered(todo, upd, ok0, lost0, asked, lo);
      ghost var inb0, live0, asked0 := inbounds, live, asked;
      ok, lost, failed := ok0, lost0, failed0;
      AfterOneUpdate(before, upd, ok, lost, l);
      var outcome := UpdateOne(l, upd[l], extra);
      match outcome {
        case Committed => ok := ok + {l};
        case PlainError => failed := true;
        case PartialError => lost := lost + {l}; failed := true;
      }
      UpdatingStep(l, todo, upd, before, was, inb0, live0, ok0, lost0, failed0, inbounds, live, outcome);
      AnsweredStep(l, todo, upd, ok0, lost0, asked0, lo, outcome, before[l].id);
    }

    /** Committed: the new handler came up. PlainError: the old one could not be stopped. PartialError: neither runs. */
    method UpdateOne(l: string, newIb: Inbound, ghost extra: set<nat>) returns (outcome: CommitResult)
      requires Numbered() && Tracked(extra) && l in inbounds && newIb.id < nextId && newIb.id !in live
      modifies this`inbounds, this`live, this`leaked, this`came, this`asked
      ensures Numbered() && Tracked(extra) && live <= old(live) + {newIb.id}
      ensures inbounds == match outcome
        case Committed => old(inbounds)[l := newIb]
        case PlainError => old(inbounds)
        case PartialError => old(inbounds) - {l}
      ensures outcome.PlainError? ==> live == old(live)
      ensures asked == AfterAnswer(old(asked), outcome, old(inbounds)[l].id, newIb.id)
    {
      var stopped := TryStop(inbounds[l]);
      if !stopped {
        var _ := Discard(newIb);
        return PlainError;
      }
      outcome := Replace(l, newIb, extra);
    }

    /** The handler under l has been stopped; now the new one has to come up. */
    method Replace(l: string, newIb: Inbound, ghost extra: set<nat>) returns (outcome: CommitResult)
      requires Numbered() && l in inbounds && TrackedBut(inbounds[l].id, extra)
      requires newIb.id < nextId && newIb.id !in live && newIb.id != inbounds[l].id
      modifies this`inbounds, this`live, this`leaked, this`came, this`asked
      ensures Numbered() && Tracked(extra) && live <= old(live) + {newIb.id} && !outcome.PlainError?
      ensures inbounds == if outcome.Committed? then old(inbounds)[l := newIb] else old(inbounds) - {l}
      ensures asked ==
        if outcome.Committed? then old(asked).(up := old(asked).up + {newIb.id})
        else old(asked).(down := old(asked).down + {newIb.id})
    {
      IdsWith(inbounds, l, newIb);
      IdsWithout(inbounds, l);
      var up := TryStart(newIb);
      if !up {
        var _ := Discard(newIb);
        inbounds := inbounds - {l};
        return PartialError;
      }
      inbounds := inbounds[l := newIb];
      outcome := Committed;
    }

    /** Tracked, but for the inbound with this identity, which has just been stopped. */
    ghost predicate TrackedBut(id: nat, extra: set<nat>)
      reads this`inbounds, this`live, this`leaked, this`came
    {
      && Distinct(inbounds) && id !in live && id !in extra
      && (forall i :: i in Ids(inbounds) && i != id ==> i in live && i in came && i !in extra)
      && (forall i :: i in extra ==> i in live && i in came)
      && (forall i :: i in live ==> i in Ids(inbounds) || i in extra || i in leaked)
    }

    /** Phase 3a. */
    method RemoveInbounds(listens: seq<string>, ghost extra: set<nat>)
      requires Numbered() && Tracked(extra)
      modifies this`inbounds, this`live, this`leaked
      ensures Numbered() && Tracked(extra) && inbounds == old(inbounds) - Elements(listens)
    {
      var i := 0;
      while i < |listens|
        invariant 0 <= i <= |listens| && Numbered() && Tracked(extra)
        invariant inbounds == old(inbounds) - Elements(listens[..i])
      {
        assert listens[..i + 1] == listens[..i] + [listens[i]];
        ElementsAppend(listens[..i], listens[i]);
        RemoveInbound(listens[i], extra);
        i := i + 1;
      }
      assert listens[..i] == listens;
    }

    /** The handler goes whether or not its Stop succeeds. */
    method RemoveInbound(l: string, ghost extra: set<nat>)
      requires Numbered() && Tracked(extra)
      modifies this`inbounds, this`live, this`leaked
      ensures Numbered() && Tracked(extra) && inbounds == old(inbounds) - {l}
    {
      if l in inbounds {
        IdsWithout(inbounds, l);
        var _ := Discard(inbounds[l]);
        inbounds := inbounds - {l};
      }
    }

    /** Phase 3b. */
    method RegisterInbounds(added: map<string, Inbound>)
      modifies this`inbounds
      ensures inbounds == old(inbounds) + added
    {
      var todo := added.Keys;
      while todo != {}
        invariant todo <= added.Keys && inbounds == old(inbounds) + (added - todo)
        decreases todo
      {
        var l :| l in todo;
        todo := todo - {l};
        inbounds := inbounds[l := added[l]];
      }
      assert added - todo == added;
    }

    /** Phase 3c: the removed names. */
    method RemoveOutbounds(names: seq<string>)
      requires router.Valid() && router.outbounds == outbounds
      modifies this`outbounds, router
      ensures router.Valid() && router.outbounds == outbounds && router.rules == old(router.rules)
      ensures outbounds == old(outbounds) - Elements(names)
    {
      var i := 0;
      while i < |names|
        invariant 0 <= i <= |names| && outbounds == old(outbounds) - Elements(names[..i])
        invariant router.Valid() && router.outbounds == outbounds && router.rules == old(router.rules)
      {
        assert names[..i + 1] == names[..i] + [names[i]];
        ElementsAppend(names[..i], names[i]);
        router.RemoveOutbound(names[i]);
        outbounds := outbounds - {names[i]};
        i := i + 1;
      }
      assert names[..i] == names;
    }

    /** Then those about to be replaced. */
    method RemoveReplaced(replaced: set<string>)
      requires router.Valid() && router.outbounds == outbounds
      modifies this`outbounds, router
      ensures router.Valid() && router.outbounds == outbounds && router.rules == old(router.rules)
      ensures outbounds == old(outbounds) - replaced
    {
      var todo := replaced;
      while todo != {}
        invariant todo <= replaced && outbounds == old(outbounds) - (replaced - todo)
        invariant router.Valid() && router.outbounds == outbounds && router.rules == old(router.rules)
        decreases todo
      {
        var name :| name in todo;
        assert replaced - (todo - {name}) == (replaced - todo) + {name};
        todo := todo - {name};
        if name in outbounds {
          router.RemoveOutbound(name);
          outbounds := outbounds - {name};
        }
      }
    }

    /** A handler under a name that is free goes into the map and the router. */
    method Register(h: Outbound)
      requires router.Valid() && router.outbounds == outbounds && h.cfg.name !in outbounds
      modifies this`outbounds, router
      ensures router.Valid() && router.outbounds == outbounds && router.rules == old(router.rules)
      ensures outbounds == old(outbounds)[h.cfg.name := h]
    {
      outbounds := outbounds[h.cfg.name := h];
      router.AddOutbound(h);
    }

    /** Phase 3d. */
    method RegisterOutbounds(hs: map<string, Outbound>)
      requires router.Valid() && router.outbounds == outbounds && hs.Keys !! outbounds.Keys
      requires forall name :: name in hs ==> hs[name].cfg.name == name
      modifies this`outbounds, router
      ensures router.Valid() && router.outbounds == outbounds && router.rules == old(router.rules)
      ensures outbounds == old(outbounds) + hs
    {
      var todo := hs.Keys;
      while todo != {}
        invariant todo <= hs.Keys && outbounds == old(outbounds) + (hs - todo)
        invariant router.Valid() && router.outbounds == outbounds && router.rules == old(router.rules)
        decreases todo
      {
        var name :| name in todo;
        todo := todo - {name};
        Register(hs[name]);
      }
      assert hs - todo == hs;
    }

    /** Phases 3c to 3e bring outbounds, names, groups and rules to the new configuration. */
    method ApplyOutbounds(p: Prepared, ghost oldCfg: Config, ghost newCfg: Config)
      requires OutboundsMirror(oldCfg) && Plan(p, oldCfg, newCfg)
      modifies this`outbounds, router
      ensures OutboundsMirror(newCfg)
      ensures outbounds == (old(outbounds) - Elements(p.removeOutbounds) - p.newOutbounds.Keys) + p.newOutbounds
    {
      OutboundsPatched(Index(oldCfg.outbounds, NameOf), newCfg.outbounds, outbounds, p.newOutbounds,
                       Elements(p.removeOutbounds));
      RemoveOutbounds(p.removeOutbounds);
      RemoveReplaced(p.newOutbounds.Keys);
      RegisterOutbounds(p.newOutbounds);
      if p.routingChanged {
        router.UpdateRules(p.rules);
      }
    }

    /** Which prepared handlers are new, and which replace a running one. */
    method Partition(hs: map<string, Inbound>) returns (added: map<string, Inbound>, updated: map<string, Inbound>)
      ensures added == hs - inbounds.Keys && updated == hs - (hs.Keys - inbounds.Keys)
    {
      added, updated := map[], map[];
      var todo := hs.Keys;
      while todo != {}
        invariant todo <= hs.Keys
        invariant added == hs - todo - inbounds.Keys && updated == hs - todo - (hs.Keys - inbounds.Keys)
        decreases todo
      {
        var l :| l in todo;
        todo := todo - {l};
        if l in inbounds {
          updated := updated[l := hs[l]];
        } else {
          added := added[l := hs[l]];
        }
      }
      assert hs - todo == hs;
    }

    /** Everything that exists is older than the handlers just prepared. */
    ghost predicate Older(lo: nat)
      reads this
    {
      (forall l :: l in inbounds ==> inbounds[l].id < lo) && (forall i :: i in live ==> i < lo)
    }

    /** The rollback of phase 1 after failed updates; returns whether anything has changed. */
    method RollBack(added: map<string, Inbound>, oldCfg: Config, newCfg: Config, ok: set<string>, lost: set<string>,
                    ghost updated: map<string, Inbound>, ghost lo: nat)
      returns (partial: bool)
      requires Fresh(added, lo, nextId) && Tracked(Ids(added))
      requires Answered({}, updated, ok, lost, asked, lo) && ok + lost <= updated.Keys && ok != updated.Keys
      modifies this`config, this`live, this`leaked, this`asked
      ensures Tracked({})
      ensures old(live) - Ids(added) <= live <= old(live)
      ensures !partial ==> ok == {} && lost == {} && config == old(config) && live == old(live) - Ids(added)
      ensures partial ==> config == Reconcile(oldCfg, newCfg, ok, lost)
      ensures partial ==>
        ok != {} || lost != {} || exists k :: k in added && (added[k].id in old(live) ==> added[k].id in live)
      ensures Verdict(if partial then PartialError else PlainError, asked, lo)
      ensures asked.up == old(asked).up && asked.down == old(asked).down && !asked.refused
    {
      ghost var asked0 := asked;
      var allStopped := StopAll(added, lo);
      partial := ok != {} || lost != {} || !allStopped;
      RollBackVerdict(updated, ok, lost, asked0, asked, added, allStopped, lo);
      if partial {
        config := BuildReconciled(oldCfg, newCfg, ok, lost);
      }
    }

    /** Phase 2 and what follows a failure in it; before is what was live ahead of phase 1. */
    method CommitUpdates(added: map<string, Inbound>, updated: map<string, Inbound>, oldCfg: Config, newCfg: Config,
                         ghost lo: nat, ghost before: set<nat>)
      returns (r: CommitResult, ghost ok: set<string>, ghost lost: set<string>)
      requires Numbered() && Tracked(Ids(added)) && updated.Keys <= inbounds.Keys
      requires Fresh(added, lo, nextId) && Fresh(updated, lo, nextId)
      requires Ids(updated) !! live && Ids(updated) !! Ids(added)
      requires live == before + Ids(added) && before !! Ids(added)
      requires asked == Nothing().(up := Ids(added)) && forall l :: l in inbounds ==> inbounds[l].id < lo
      modifies this`config, this`inbounds, this`live, this`leaked, this`came, this`asked
      ensures Numbered() && Tracked(if r.Committed? then Ids(added) else {}) && ok !! lost && ok + lost <= updated.Keys
      ensures inbounds == AfterUpdates(old(inbounds), updated, ok, lost)
      ensures r.Committed? ==> config == old(config) && ok == updated.Keys && lost == {}
      ensures r.PlainError? ==> config == old(config) && ok == {} && lost == {} && live == before
      ensures r.PartialError? ==> config == Reconcile(oldCfg, newCfg, ok, lost)
      ensures r.PartialError? ==> ok != {} || lost != {} || live != before
      ensures !r.Committed? ==> ok != updated.Keys
      ensures Verdict(r, asked, lo) && Matched(updated, updated.Keys, ok, lost, asked) && !asked.refused
    {
      var done, gone, failed := UpdateInbounds(updated, lo, Ids(added));
      ok, lost := done, gone;
      if failed {
        var partial := RollBack(added, oldCfg, newCfg, done, gone, updated, lo);
        r := if partial then PartialError else PlainError;
        return;
      }
      r := Committed;
    }

    /** Phase 1. */
    method StartAdded(added: map<string, Inbound>, ghost lo: nat) returns (r: StartResult)
      requires Numbered() && Tracked({}) && Fresh(added, lo, nextId) && Ids(added) !! live && asked == Nothing()
      modifies this`live, this`leaked, this`came, this`asked
      ensures Numbered() && Tracked(if r.Started? then Ids(added) else {})
      ensures r.Started? ==> live == old(live) + Ids(added)
      ensures r.RolledBack? ==> live == old(live)
      ensures r.RollbackIncomplete? ==> live != old(live)
      ensures !r.Started? ==> added != map[]
      ensures !asked.refused && asked.up + asked.down + asked.stopped + asked.unstopped <= Ids(added)
      ensures r.Started? ==> asked == Nothing().(up := Ids(added))
      ensures (r.Started? <==> asked.down == {}) && (r.RollbackIncomplete? <==> asked.unstopped != {})
    {
      r := Started;
      if |added| > 0 {
        r := StartAndWait(added, lo);
      } else {
        assert added == map[];
      }
    }

    ghost function Now(): Snapshot
      reads this`config, this`inbounds, this`outbounds, this`live
    {
      Snapshot(config, inbounds, outbounds, live)
    }

    /** Phases 1 and 2. */
    method CommitInbounds(added: map<string, Inbound>, updated: map<string, Inbound>, oldCfg: Config, newCfg: Config,
                          ghost lo: nat)
      returns (r: CommitResult, ghost ok: set<string>, ghost lost: set<string>)
      requires Numbered() && Tracked({}) && Older(lo) && config == oldCfg && updated.Keys <= inbounds.Keys
      requires Fresh(added, lo, nextId) && Fresh(updated, lo, nextId) && Ids(added) !! Ids(updated)
      requires asked == Nothing()
      modifies this`config, this`inbounds, this`live, this`leaked, this`came, this`asked
      ensures Numbered() && Tracked(if r.Committed? then Ids(added) else {})
      ensures Stepped(r, old(Now()), Now(), added, updated, newCfg, ok, lost)
      ensures Verdict(r, asked, lo) && Matched(updated, updated.Keys, ok, lost, asked) && !asked.refused
    {
      ghost var before, was := live, Now();
      assert Ids(added) !! live && Ids(updated) !! live;
      var started := StartAdded(added, lo);
      if !started.Started? {
        ok, lost := {}, {};
        r := if started.RollbackIncomplete? then PartialError else PlainError;
        SteppedNowhere(r, was, Now(), added, updated, newCfg);
        NoneStarted(added, updated, asked, lo);
        return;
      }
      r, ok, lost := CommitUpdates(added, updated, oldCfg, newCfg, lo, before);
    }

    /** Phases 3a and 3b bring the inbound map to the new configuration. */
    method ApplyInbounds(listens: seq<string>, added: map<string, Inbound>, ghost o: map<string, InboundConfig>,
                         ghost n: map<string, InboundConfig>, ghost lo: nat)
      requires Numbered() && Tracked(Ids(added)) && Fresh(added, lo, nextId)
      requires Cfgs(inbounds) == Landed(o, n, Updated(o, n).Keys, {}) && Cfgs(added) == Added(o, n)
      requires Elements(listens) == o.Keys - n.Keys
      modifies this`inbounds, this`live, this`leaked
      ensures Numbered() && Tracked({}) && Cfgs(inbounds) == n
      ensures inbounds == (old(inbounds) - Elements(listens)) + added
    {
      InboundsPatched(o, n, inbounds, added, Elements(listens));
      RemoveInbounds(listens, Ids(added));
      RegisterStarted(added, lo);
    }

    /** What was started beside the map is now in it. */
    method RegisterStarted(added: map<string, Inbound>, ghost lo: nat)
      requires Numbered() && Tracked(Ids(added)) && Fresh(added, lo, nextId) && inbounds.Keys !! added.Keys
      modifies this`inbounds
      ensures Numbered() && Tracked({}) && inbounds == old(inbounds) + added
    {
      IdsPlus(inbounds, added);
      RegisterInbounds(added);
    }

    /** Phases 1 and 2 over the prepared inbounds, in terms of configurations. */
    method CommitPlanned(p: Prepared, newCfg: Config, ghost lo: nat)
      returns (r: CommitResult, added: map<string, Inbound>, ghost t: Trail)
      requires Numbered() && Tracked({}) && Older(lo) && asked == Nothing()
      requires Plan(p, config, newCfg) && Fresh(p.newInbounds, lo, nextId)
      requires Unique(config.inbounds, ListenOf) && Cfgs(inbounds) == Index(config.inbounds, ListenOf)
      modifies this`config, this`inbounds, this`live, this`leaked, this`came, this`asked
      ensures Numbered() && Tracked(if r.Committed? then Ids(added) else {}) && Fresh(added, lo, nextId)
      ensures Verdict(r, asked, lo) && !asked.refused && t.made == p.newInbounds && t.madeOut == p.newOutbounds
      ensures
        if r.Committed? then Halfway(old(Now()), Now(), p, newCfg, added)
        else Stopped(r, old(Now()), Now(), asked, newCfg, t)
    {
      ghost var was := Now();
      var updated;
      added, updated := Partition(p.newInbounds);
      SplitFresh(p.newInbounds, inbounds.Keys, lo, nextId);
      ghost var ok, lost;
      r, ok, lost := CommitInbounds(added, updated, config, newCfg, lo);
      t := Trail(ok, lost, p.newInbounds, p.newOutbounds);
      if r.Committed? {
        ReachedHalfway(was, Now(), p, newCfg, added, updated, ok, lost);
      } else {
        StoppedOutcome(r, was, Now(), p, newCfg, added, updated, ok, lost, asked, lo);
      }
    }

    /**
     The whole commit. A plain error leaves everything as it was; a partial error has changed the
     inbound map or left a started handler behind, and the stored configuration says what runs.
     */
    method CommitDiff(p: Prepared, oldCfg: Config, newCfg: Config, ghost lo: nat)
      returns (r: CommitResult, ghost t: Trail)
      requires Numbered() && Tracked({}) && Older(lo) && Mirrors(oldCfg) && config == oldCfg && Plan(p, oldCfg, newCfg)
      requires Fresh(p.newInbounds, lo, nextId) && Unique(newCfg.inbounds, ListenOf) && Unique(newCfg.outbounds, NameOf)
      requires asked == Nothing()
      modifies this`config, this`inbounds, this`outbounds, this`live, this`leaked, this`came, this`asked, router
      ensures Numbered() && Tracked({}) && Verdict(r, asked, lo) && !asked.refused
      ensures if r.Committed? then Mirrors(newCfg) else Mirrors(config) && unchanged(router)
      ensures ReadyToSettle(r, old(Now()), Now(), asked, newCfg, t)
    {
      ghost var was := Now();
      var added;
      r, added, t := CommitPlanned(p, newCfg, lo);
      if r.Committed? {
        ghost var landed := inbounds;
        Apply(p, added, oldCfg, newCfg, lo);
        SwappedIn(was, Now(), p, oldCfg, newCfg, landed, t);
      }
    }

    /** Phase 3. */
    method Apply(p: Prepared, added: map<string, Inbound>, ghost oldCfg: Config, ghost newCfg: Config, ghost lo: nat)
      requires Numbered() && Tracked(Ids(added)) && Fresh(added, lo, nextId)
      requires OutboundsMirror(oldCfg) && Plan(p, oldCfg, newCfg)
      requires Unique(newCfg.inbounds, ListenOf) && Unique(newCfg.outbounds, NameOf)
      requires
        var o, n := Index(oldCfg.inbounds, ListenOf), Index(newCfg.inbounds, ListenOf);
        Cfgs(inbounds) == Landed(o, n, Updated(o, n).Keys, {}) && Cfgs(added) == Added(o, n)
      modifies this`inbounds, this`outbounds, this`live, this`leaked, router
      ensures Numbered() && Tracked({}) && Mirrors(newCfg)
      ensures inbounds == (old(inbounds) - Elements(p.removeInbounds)) + added
      ensures outbounds == (old(outbounds) - Elements(p.removeOutbounds) - p.newOutbounds.Keys) + p.newOutbounds
    {
      ApplyInbounds(p.removeInbounds, added, Index(oldCfg.inbounds, ListenOf), Index(newCfg.inbounds, ListenOf), lo);
      ApplyOutbounds(p, oldCfg, newCfg);
    }

    // ---------------------------------------------------------------- ReloadConfig

    ghost predicate Differs(newCfg: Config)
      reads this`config
    {
      !(SameNode(config.node, newCfg.node) && config.rules == newCfg.rules
        && Index(config.inbounds, ListenOf) == Index(newCfg.inbounds, ListenOf)
        && Index(config.outbounds, NameOf) == Index(newCfg.outbounds, NameOf))
    }

    method Changes(newCfg: Config) returns (d: Option<ConfigDiff>)
      ensures d.Some? <==> Differs(newCfg)
      ensures d.Some? ==> IsDiff(config, newCfg, d.value)
    {
      var diff := DiffConfig(config, newCfg);
      HasChangesExact(config, newCfg, diff);
      d := if HasChanges(diff) then Some(diff) else None;
    }

    method PrepareAndCommit(newCfg: Config, d: ConfigDiff) returns (r: ReloadResult, ghost t: Trail)
      requires Numbered() && Tracked({}) && Mirrors(config) && IsDiff(config, newCfg, d) && asked == Nothing()
      requires Unique(newCfg.inbounds, ListenOf) && Unique(newCfg.outbounds, NameOf)
      modifies this`config, this`inbounds, this`outbounds, this`nextId, this`live, this`leaked, this`came, this`asked,
        router
      ensures Numbered() && Tracked({}) && Mirrors(config)
      ensures !r.Reloaded? ==> unchanged(router)
      ensures Accounted(r, old(Now()), Now(), asked, newCfg, t) && ReloadVerdict(r, asked, old(nextId))
    {
      var oldCfg := config;
      ghost var lo, was := nextId, Now();
      var prepared := PrepareDiff(d, oldCfg, newCfg);
      if prepared.None? {
        NothingDone(PrepareFailed, was, asked, newCfg, Trail({}, {}, map[], map[]));
        return PrepareFailed, Trail({}, {}, map[], map[]);
      }
      r, t := Commit(prepared.value, newCfg, lo);
    }

    method Commit(p: Prepared, newCfg: Config, ghost lo: nat) returns (r: ReloadResult, ghost t: Trail)
      requires Numbered() && Tracked({}) && Older(lo) && Mirrors(config) && Plan(p, config, newCfg)
      requires Fresh(p.newInbounds, lo, nextId) && Unique(newCfg.inbounds, ListenOf) && Unique(newCfg.outbounds, NameOf)
      requires asked == Nothing()
      modifies this`config, this`inbounds, this`outbounds, this`live, this`leaked, this`came, this`asked, router
      ensures Numbered() && Tracked({}) && Mirrors(config)
      ensures !r.Reloaded? ==> unchanged(router)
      ensures Accounted(r, old(Now()), Now(), asked, newCfg, t) && ReloadVerdict(r, asked, lo)
    {
      ghost var was := Now();
      var outcome;
      outcome, t := CommitDiff(p, config, newCfg, lo);
      Settle(outcome, newCfg, was, t, lo);
      r := Reported(outcome);
    }

    /** A committed configuration becomes the stored one. */
    method Settle(outcome: CommitResult, newCfg: Config, ghost was: Snapshot, ghost t: Trail, ghost lo: nat)
      requires Verdict(outcome, asked, lo) && !asked.refused
      requires if outcome.Committed? then Mirrors(newCfg) else Mirrors(config)
      requires ReadyToSettle(outcome, was, Now(), asked, newCfg, t)
      modifies this`config
      ensures Mirrors(config) && Accounted(Reported(outcome), was, Now(), asked, newCfg, t)
      ensures ReloadVerdict(Reported(outcome), asked, lo)
    {
      assert Committing(outcome, was, Now(), asked, newCfg, t);
      if outcome.Committed? {
        config := newCfg;
      }
    }

    /**
     Whatever Start, Stop and creation answer, maps, router and stored configuration agree afterwards,
     and the handlers that run are those in the map, up to failed Stops. What the reload reports follows
     from the answers: see ReloadVerdict.
     */
    method ReloadConfig(newCfg: Config, splits: string -> bool) returns (r: ReloadResult, ghost t: Trail)
      requires Valid()
      modifies this, router
      ensures Valid() && running == old(running)
      ensures r.NotRunning? <==> !old(running)
      ensures r.Invalid? <==> old(running) && !Acceptable(newCfg, splits)
      ensures r.Invalid? ==> Refuses(newCfg, splits, r.error)
      ensures r.NoChange? <==> old(running) && Acceptable(newCfg, splits) && !old(Differs(newCfg))
      ensures !r.Reloaded? ==> unchanged(router)
      ensures Accounted(r, old(Now()), Now(), asked, newCfg, t)
      ensures
        if r.NotRunning? || r.Invalid? || r.NoChange? then asked == Nothing()
        else ReloadVerdict(r, asked, old(nextId))
    {
      asked := Nothing();
      t := Trail({}, {}, map[], map[]);
      if !running {
        NothingDone(NotRunning, Now(), asked, newCfg, t);
        return NotRunning, t;
      }
      r, t := ReloadRunning(newCfg, splits);
    }

    method ReloadRunning(newCfg: Config, splits: string -> bool) returns (r: ReloadResult, ghost t: Trail)
      requires Numbered() && Tracked({}) && Mirrors(config) && asked == Nothing()
      modifies this`config, this`inbounds, this`outbounds, this`nextId, this`live, this`leaked, this`came, this`asked,
        router
      ensures Numbered() && Tracked({}) && Mirrors(config) && !r.NotRunning?
      ensures r.Invalid? <==> !Acceptable(newCfg, splits)
      ensures r.Invalid? ==> Refuses(newCfg, splits, r.error)
      ensures r.NoChange? <==> Acceptable(newCfg, splits) && !old(Differs(newCfg))
      ensures !r.Reloaded? ==> unchanged(router)
      ensures Accounted(r, old(Now()), Now(), asked, newCfg, t)
      ensures if r.Invalid? || r.NoChange? then asked == Nothing() else ReloadVerdict(r, asked, old(nextId))
    {
      var error := ValidateConfig(newCfg, splits);
      if error.Some? {
        t := Trail({}, {}, map[], map[]);
        NothingDone(Invalid(error.value), Now(), asked, newCfg, t);
        return Invalid(error.value), t;
      }
      r, t := Reconfigure(newCfg);
    }

    /** The reload of a running agent to an acceptable configuration. */
    method Reconfigure(newCfg: Config) returns (r: ReloadResult, ghost t: Trail)
      requires Numbered() && Tracked({}) && Mirrors(config) && asked == Nothing()
      requires Unique(newCfg.inbounds, ListenOf) && Unique(newCfg.outbounds, NameOf)
      modifies this`config, this`inbounds, this`outbounds, this`nextId, this`live, this`leaked, this`came, this`asked,
        router
      ensures Numbered() && Tracked({}) && Mirrors(config) && !r.NotRunning? && !r.Invalid?
      ensures r.NoChange? <==> !old(Differs(newCfg))
      ensures !r.Reloaded? ==> unchanged(router)
      ensures Accounted(r, old(Now()), Now(), asked, newCfg, t)
      ensures if r.NoChange? then asked == Nothing() else ReloadVerdict(r, asked, old(nextId))
    {
      var d := Changes(newCfg);
      if d.None? {
        NothingDone(NoChange, Now(), asked, newCfg, Trail({}, {}, map[], map[]));
        return NoChange, Trail({}, {}, map[], map[]);
      }
      r, t := PrepareAndCommit(newCfg, d.value);
    }

    // ---------------------------------------------------------------- Start

    /** One outbound of the configuration takes its place, whoever held it. */
    method Place(out: Outbound, ghost outs0: map<string, Outbound>, ghost entries: seq<OutboundConfig>, ghost i: nat)
      requires i < |entries| && Unique(entries, NameOf) && out.cfg == entries[i] && router.outbounds == outbounds
      requires Cfgs(outbounds) == Cfgs(outs0) + Index(entries[..i], NameOf)
      modifies this`outbounds, router`outbounds, router`groups
      ensures router.outbounds == outbounds && Cfgs(outbounds) == Cfgs(outs0) + Index(entries[..i + 1], NameOf)
      ensures old(IndexAgrees(outbounds, router.groups, outs0, entries, i)) ==>
        IndexAgrees(outbounds, router.groups, outs0, entries, i + 1)
    {
      PlacedCfgs(outbounds, outs0, entries, i, out);
      IndexAgreesStep(outbounds, router.groups, outs0, entries, i, out);
      outbounds := outbounds[out.cfg.name := out];
      router.AddOutbound(out);
    }

    method PlaceAll(entries: seq<OutboundConfig>) returns (ok: bool)
      requires Numbered() && Unique(entries, NameOf) && router.outbounds == outbounds && !asked.refused
      modifies this`outbounds, this`nextId, this`asked, router`outbounds, router`groups
      ensures Numbered() && router.outbounds == outbounds && asked == old(asked).(refused := !ok)
      ensures outbounds.Keys <= old(outbounds).Keys + Index(entries, NameOf).Keys
      ensures ok ==> Cfgs(outbounds) == Cfgs(old(outbounds)) + Index(entries, NameOf)
      ensures ok && old(Indexed(outbounds, router.groups)) ==>
        (Indexed(outbounds, router.groups) <==> forall c :: c in entries ==> Free(old(outbounds), c.name))
    {
      ghost var sound := Indexed(outbounds, router.groups);
      ghost var outs0 := outbounds;
      assert Cfgs(outs0) + map[] == Cfgs(outs0);
      var i := 0;
      while i < |entries|
        invariant 0 <= i <= |entries| && Numbered() && router.outbounds == outbounds && asked == old(asked)
        invariant Cfgs(outbounds) == Cfgs(outs0) + Index(entries[..i], NameOf)
        invariant sound ==> IndexAgrees(outbounds, router.groups, outs0, entries, i)
      {
        var h := NewHandler(entries[i]);
        if h.None? {
          PrefixKeys(outbounds, outs0, entries, i);
          return false;
        }
        Place(h.value, outs0, entries, i);
        i := i + 1;
      }
      PrefixKeys(outbounds, outs0, entries, i);
      assert entries[..i] == entries;
      if sound {
        IndexAgreesExact(outbounds, router.groups, outs0, entries);
      }
      ok := true;
    }

    /**
     The outbounds of the configuration, and the rules. What was registered before stays in the maps
     unless its name is taken; the group index survives exactly when every name was free.
     */
    method InitOutbounds(cfg: Config) returns (ok: bool)
      requires Numbered() && Unique(cfg.outbounds, NameOf) && router.outbounds == outbounds && !asked.refused
      modifies this`outbounds, this`nextId, this`asked, router`outbounds, router`groups, router`rules
      ensures Numbered() && router.outbounds == outbounds && asked == old(asked).(refused := !ok)
      ensures outbounds.Keys <= old(outbounds).Keys + Index(cfg.outbounds, NameOf).Keys
      ensures ok ==> Cfgs(outbounds) == Cfgs(old(outbounds)) + Index(cfg.outbounds, NameOf)
      ensures ok ==> router.rules == cfg.rules
      ensures ok && old(router.Valid()) ==>
        (router.Valid() <==> forall c :: c in cfg.outbounds ==> Free(old(outbounds), c.name))
    {
      ok := PlaceAll(cfg.outbounds);
      if ok {
        router.UpdateRules(cfg.rules);
      }
    }

    /** All inbounds of the configuration are started and in the map, or the map is as it was. */
    method InitInbounds(cfg: Config) returns (ok: bool)
      requires Numbered() && inbounds.Keys <= Index(cfg.inbounds, ListenOf).Keys
      requires (forall i :: i in live ==> i in leaked) && asked == Nothing()
      modifies this`inbounds, this`nextId, this`live, this`leaked, this`came, this`asked
      ensures Numbered() && (ok <==> !asked.refused && asked.down == {})
      ensures ok ==> Tracked({}) && Cfgs(inbounds) == Index(cfg.inbounds, ListenOf)
      ensures !ok ==> inbounds == old(inbounds) && forall i :: i in live ==> i in leaked
    {
      ghost var lo := nextId;
      var made := CreateAll(cfg.inbounds, ListenOf, map[], lo);
      if made.None? {
        return false;
      }
      assert Cfgs(made.value) == Index(cfg.inbounds, ListenOf);
      assert Cfgs(made.value).Keys == made.value.Keys;
      var started := StartAndWait(made.value, lo);
      if !started.Started? {
        return false;
      }
      assert inbounds + made.value == made.value;
      RegisterInbounds(made.value);
      ok := true;
    }

    /** Everything Mirrors says but the group index, and the handlers in the map are those that run. */
    ghost predicate Shows(cfg: Config)
      reads this`inbounds, this`outbounds, this`live, this`leaked, this`came, router
    {
      && Tracked({}) && Cfgs(inbounds) == Index(cfg.inbounds, ListenOf)
      && Cfgs(outbounds) == Index(cfg.outbounds, NameOf) && router.outbounds == outbounds && router.rules == cfg.rules
    }

    method Launch() returns (ok: bool)
      requires Numbered() && Resting() && asked == Nothing()
      modifies this`inbounds, this`outbounds, this`nextId, this`live, this`leaked, this`came, this`asked
      modifies router`outbounds, router`groups, router`rules
      ensures (ok <==> !asked.refused && asked.down == {}) && Numbered() && if ok then Shows(config) else Resting()
      ensures ok && old(router.Valid()) ==>
        (router.Valid() <==> forall c :: c in config.outbounds ==> Free(old(outbounds), c.name))
    {
      ghost var outs0 := outbounds;
      ok := InitOutbounds(config);
      if !ok {
        return;
      }
      KeysTaken(outbounds, outs0, Index(config.outbounds, NameOf));
      ok := InitInbounds(config);
    }

    /**
     Any start: of a new agent, again after one that failed, or again after Stop. It succeeds exactly
     when every handler can be created and every inbound comes up. A started agent has the inbounds,
     outbounds, names and rules of its configuration; the group index is right exactly when no name was
     held by a member of a group.
     */
    method Start() returns (ok: bool)
      requires Valid()
      modifies this, router
      ensures config == old(config) && running == (old(running) || ok)
      ensures ok <==> !old(running) && !asked.refused && asked.down == {}
      ensures if ok then Shows(config) else Valid()
      ensures ok && old(router.Valid()) ==>
        (Valid() <==> forall c :: c in config.outbounds ==> Free(old(outbounds), c.name))
    {
      asked := Nothing();
      if running {
        return false;
      }
      ok := Launch();
      Declare(ok);
    }

    method Declare(up: bool)
      requires Numbered() && Unique(config.inbounds, ListenOf) && Unique(config.outbounds, NameOf)
      requires if up then Shows(config) else Resting()
      modifies this`running
      ensures running == up && (up ==> Shows(config)) && (Valid() <==> !up || router.Valid())
    {
      running := up;
    }

    /** Stops every inbound; the maps and the router keep what they hold. */
    method Stop() returns (ok: bool)
      requires Valid()
      modifies this`running, this`live, this`leaked, this`asked
      ensures Valid() && !running
      ensures !old(running) ==> live == old(live)
      ensures ok <==> old(running) && asked.unstopped == {}
      ensures old(running) ==> asked.stopped + asked.unstopped == Ids(inbounds)
      ensures ok ==> forall l :: l in inbounds ==> inbounds[l].id !in live
    {
      asked := Nothing();
      if !running {
        return false;
      }
      assert Cfgs(inbounds).Keys == inbounds.Keys && Cfgs(outbounds).Keys == outbounds.Keys;
      ok := StopAll(inbounds, 0);
      running := false;
    }
  }

  lemma NameIsNew(es: seq<OutboundConfig>, i: nat)
    requires i < |es| && Unique(es, NameOf)
    ensures es[i].name !in Index(es[..i], NameOf)
  {
    IndexKeyed(es[..i], NameOf);
  }

  /**
   New, one Start, then any reloads: after every one of them a running agent has exactly the inbounds,
   outbounds, names, groups and rules of the configuration it has stored, and that is still the first
   one unless some reload was, at least in part, carried out.
   */
  method Lifecycle(cfg: Config, reloads: seq<Config>, splits: string -> bool)
    returns (a: Agent?, results: seq<ReloadResult>)
    ensures a == null <==> !Acceptable(cfg, splits)
    ensures a != null ==> |results| == |reloads| && a.Valid() && (a.running ==> a.Mirrors(a.config))
    ensures a != null && (forall r :: r in results ==> !r.Reloaded? && !r.PartiallyReloaded?) ==> a.config == cfg
  {
    results := [];
    var error := ValidateConfig(cfg, splits);
    if error.Some? {
      return null, [];
    }
    a := new Agent(cfg);
    var started := a.Start();
    var i := 0;
    while i < |reloads|
      invariant 0 <= i <= |reloads| && |results| == i && fresh(a) && fresh(a.router)
      invariant a.Valid()
      invariant (forall r :: r in results ==> !r.Reloaded? && !r.PartiallyReloaded?) ==> a.config == cfg
    {
      var r := ReloadOnce(a, reloads[i], splits);
      results := results + [r];
      i := i + 1;
    }
  }

  /** Only a reload that was carried out, at least in part, stores a configuration. */
  method ReloadOnce(a: Agent, newCfg: Config, splits: string -> bool) returns (r: ReloadResult)
    requires a.Valid()
    modifies a, a.router
    ensures a.Valid() && a.running == old(a.running)
    ensures r.NotRunning? <==> !old(a.running)
    ensures r.Invalid? <==> old(a.running) && !Acceptable(newCfg, splits)
    ensures r.Reloaded? ==> a.config == newCfg
    ensures !r.Reloaded? && !r.PartiallyReloaded? ==> a.config == old(a.config)
    ensures r.NoChange? <==> old(a.running) && Acceptable(newCfg, splits) && !old(a.Differs(newCfg))
  {
    ghost var was := a.Now();
    ghost var t;
    r, t := a.ReloadConfig(newCfg, splits);
    assert Outcome(r, was, a.Now(), a.asked, newCfg, t);
  }

  /** Reloading a configuration that was just reloaded finds nothing to do. */
  method ReloadAgain(a: Agent, newCfg: Config, splits: string -> bool)
    returns (first: ReloadResult, second: ReloadResult)
    requires a.Valid()
    modifies a, a.router
    ensures a.Valid()
    ensures first.Reloaded? || first.NoChange? ==> second.NoChange?
    ensures first.Reloaded? ==> a.config == newCfg
  {
    first := ReloadOnce(a, newCfg, splits);
    second := ReloadOnce(a, newCfg, splits);
  }

  /**
   What a second reload of the same configuration has to do: after a commit that failed it is never
   nothing, and after a partial one it is what the first reload had to do less what landed.
   */
  method ReloadAfterFailure(a: Agent, newCfg: Config, splits: string -> bool)
    returns (first: ReloadResult, before: ConfigDiff, after: ConfigDiff, second: ReloadResult,
             ghost t: Trail)
    requires a.Valid() && a.running
    modifies a, a.router
    ensures a.Valid()
    ensures IsDiff(old(a.config), newCfg, before)
    ensures first.PartiallyReloaded? || first.CommitFailed? ==> HasChanges(after) && !second.NoChange?
    ensures first.PartiallyReloaded? ==> IsUndone(newCfg, before, after, t.ok, t.lost)
  {
    ghost var oldCfg := a.config;
    before := DiffConfig(a.config, newCfg);
    ghost var was := a.Now();
    first, t := a.ReloadConfig(newCfg, splits);
    assert Outcome(first, was, a.Now(), a.asked, newCfg, t);
    after := DiffConfig(a.config, newCfg);
    HasChangesExact(a.config, newCfg, after);
    if first.PartiallyReloaded? {
      PartialReloadConverges(oldCfg, newCfg, t.ok, t.lost, before, after);
    }
    ghost var t2;
    second, t2 := a.ReloadConfig(newCfg, splits);
  }

  /** Stop and Start again: a valid agent comes out exactly when no outbound belongs to a group. */
  method Restart(a: Agent) returns (stopped: bool, ok: bool)
    requires a.Valid() && a.running
    modifies a, a.router
    ensures a.config == old(a.config) && a.running == ok
    ensures ok ==> (a.Valid() <==> forall c :: c in a.config.outbounds ==> c.group == "")
  {
    stopped := a.Stop();
    FreeIsUngrouped(a.outbounds, a.config.outbounds);
    ok := a.Start();
  }

  lemma FreeIsUngrouped(outs: map<string, Outbound>, entries: seq<OutboundConfig>)
    requires Unique(entries, NameOf) && Cfgs(outs) == Index(entries, NameOf)
    ensures forall c :: c in entries ==> (Free(outs, c.name) <==> c.group == "")
  {
    IndexUnique(entries, NameOf);
    forall c | c in entries
      ensures Free(outs, c.name) <==> c.group == ""
    {
      var i :| 0 <= i < |entries| && entries[i] == c;
      assert NameOf(entries[i]) in Cfgs(outs) && Cfgs(outs)[c.name] == c;
    }
  }

  /** The configurations after the i-th outbound took its place; its name is as free as it was at first. */
  lemma PlacedCfgs(outs: map<string, Outbound>, outs0: map<string, Outbound>, entries: seq<OutboundConfig>, i: nat,
                   out: Outbound)
    requires i < |entries| && Unique(entries, NameOf) && out.cfg == entries[i]
    requires Cfgs(outs) == Cfgs(outs0) + Index(entries[..i], NameOf)
    ensures Cfgs(outs[out.cfg.name := out]) == Cfgs(outs0) + Index(entries[..i + 1], NameOf)
    ensures Free(outs, out.cfg.name) <==> Free(outs0, out.cfg.name)
  {
    NameIsNew(entries, i);
    assert entries[..i + 1] == entries[..i] + [entries[i]];
    IndexAppend(entries[..i], entries[i], NameOf);
    CfgsWith(outs, out.cfg.name, out);
    SameFreedom(outs, outs0, Index(entries[..i], NameOf), out.cfg.name);
  }

  lemma SameFreedom(outs: map<string, Outbound>, outs0: map<string, Outbound>, index: map<string, OutboundConfig>,
                    name: string)
    requires Cfgs(outs) == Cfgs(outs0) + index && name !in index
    ensures Free(outs, name) <==> Free(outs0, name)
  {
    assert name in Cfgs(outs) <==> name in Cfgs(outs0);
    assert name in Cfgs(outs) ==> Cfgs(outs)[name] == Cfgs(outs0)[name];
  }

  lemma PrefixKeys(outs: map<string, Outbound>, outs0: map<string, Outbound>, entries: seq<OutboundConfig>, i: nat)
    requires i <= |entries| && Cfgs(outs) == Cfgs(outs0) + Index(entries[..i], NameOf)
    ensures outs.Keys <= outs0.Keys + Index(entries, NameOf).Keys
  {
    IndexKeyed(entries[..i], NameOf);
    IndexKeyed(entries, NameOf);
    forall name | name in outs
      ensures name in outs0.Keys + Index(entries, NameOf).Keys
    {
      assert name in Cfgs(outs);
    }
  }

  lemma KeysTaken(outs: map<string, Outbound>, outs0: map<string, Outbound>, index: map<string, OutboundConfig>)
    requires Cfgs(outs) == Cfgs(outs0) + index && outs0.Keys <= index.Keys
    ensures Cfgs(outs) == index
  {
  }

  lemma SplitFresh(hs: map<string, Inbound>, ks: set<string>, lo: nat, hi: nat)
    requires Fresh(hs, lo, hi)
    ensures Fresh(hs - ks, lo, hi) && Fresh(hs - (hs.Keys - ks), lo, hi)
    ensures Ids(hs - ks) !! Ids(hs - (hs.Keys - ks))
  {
  }

  /** The running configurations after updates are the landed map. */
  lemma CfgsLanded(o: map<string, InboundConfig>, n: map<string, InboundConfig>, inb: map<string, Inbound>,
                   upd: map<string, Inbound>, ok: set<string>, lost: set<string>)
    requires Cfgs(inb) == o && Cfgs(upd) == Updated(o, n) && ok !! lost && ok + lost <= upd.Keys
    ensures upd.Keys <= inb.Keys && upd.Keys == Updated(o, n).Keys
    ensures ok <= n.Keys && Cfgs(AfterUpdates(inb, upd, ok, lost)) == Landed(o, n, ok, lost)
  {
    assert Cfgs(inb).Keys == inb.Keys && Cfgs(upd).Keys == upd.Keys;
  }

  /** A commit that stopped in phase 1 or 2 has not reached the new inbounds. */
  lemma StoppedShort(oldCfg: Config, newCfg: Config, added: map<string, Inbound>, updated: map<string, Inbound>,
                     ok: set<string>, lost: set<string>)
    requires Unique(oldCfg.inbounds, ListenOf)
    requires
      var o, n := Index(oldCfg.inbounds, ListenOf), Index(newCfg.inbounds, ListenOf);
      Cfgs(added) == Added(o, n) && Cfgs(updated) == Updated(o, n) && ok !! lost && ok + lost <= Updated(o, n).Keys
    ensures Reconcile(oldCfg, newCfg, {}, {}) == oldCfg
    ensures
      var o, n := Index(oldCfg.inbounds, ListenOf), Index(newCfg.inbounds, ListenOf);
      added != map[] || ok != updated.Keys ==>
        StillToDo(Reconcile(oldCfg, newCfg, ok, lost), oldCfg, newCfg, Landed(o, n, ok, lost))
  {
    var o, n := Index(oldCfg.inbounds, ListenOf), Index(newCfg.inbounds, ListenOf);
    assert Cfgs(added).Keys == added.Keys && Cfgs(updated).Keys == updated.Keys;
    LandedFallsShort(o, n, ok, lost);
    LandedMirrors(oldCfg, newCfg, ok, lost);
  }

  lemma LandedMirrors(oldCfg: Config, newCfg: Config, ok: set<string>, lost: set<string>)
    requires Unique(oldCfg.inbounds, ListenOf) && ok <= Index(newCfg.inbounds, ListenOf).Keys
    ensures
      var c := Reconcile(oldCfg, newCfg, ok, lost);
      var o, n := Index(oldCfg.inbounds, ListenOf), Index(newCfg.inbounds, ListenOf);
      && Unique(c.inbounds, ListenOf) && Index(c.inbounds, ListenOf) == Landed(o, n, ok, lost)
      && c.outbounds == oldCfg.outbounds && c.rules == oldCfg.rules
      && Reconcile(oldCfg, newCfg, {}, {}) == oldCfg
  {
    var n := Index(newCfg.inbounds, ListenOf);
    IndexKeyed(newCfg.inbounds, ListenOf);
    KeptIndex(oldCfg.inbounds, n, ok, lost);
    KeptKeys(oldCfg.inbounds, n, ok, lost);
    KeptNothing(oldCfg.inbounds, n);
  }

  /** A committed or lost update shows in the map. */
  lemma UpdatesShow(inb: map<string, Inbound>, upd: map<string, Inbound>, ok: set<string>, lost: set<string>, lo: nat)
    requires ok !! lost && ok + lost <= upd.Keys && upd.Keys <= inb.Keys
    requires forall l :: l in inb ==> inb[l].id < lo
    requires forall l :: l in upd ==> lo <= upd[l].id
    ensures AfterUpdates(inb, upd, ok, lost) == inb <==> ok == {} && lost == {}
  {
    var after := AfterUpdates(inb, upd, ok, lost);
    if l :| l in ok {
      assert after[l].id >= lo > inb[l].id;
    } else if l :| l in lost {
      assert l in inb && l !in after;
    } else {
      assert after == inb;
    }
  }

  lemma InboundsPatched(o: map<string, InboundConfig>, n: map<string, InboundConfig>, inb: map<string, Inbound>,
                        added: map<string, Inbound>, removed: set<string>)
    requires Cfgs(inb) == Landed(o, n, Updated(o, n).Keys, {}) && Cfgs(added) == Added(o, n)
    requires removed == o.Keys - n.Keys
    ensures Cfgs((inb - removed) + added) == n && inb.Keys !! added.Keys
  {
    assert Cfgs(inb).Keys == inb.Keys && Cfgs(added).Keys == added.Keys;
    CfgsMinus(inb, removed);
    CfgsPlus(inb - removed, added);
    assert (Landed(o, n, Updated(o, n).Keys, {}) - removed) + Added(o, n) == n;
  }

  lemma SteppedNowhere(r: CommitResult, was: Snapshot, now: Snapshot, added: map<string, Inbound>,
                       updated: map<string, Inbound>, newCfg: Config)
    requires now == was.(live := now.live) && !r.Committed? && added != map[]
    requires if r.PlainError? then now.live == was.live else now.live != was.live
    ensures Stepped(r, was, now, added, updated, newCfg, {}, {})
  {
    NothingLanded(was.config, newCfg, was.inbounds, updated);
  }

  /** Replacing the updates, dropping what is removed and adding the rest puts in all that was made. */
  lemma WholeMade(inb: map<string, Inbound>, made: map<string, Inbound>, updated: set<string>, removed: set<string>)
    requires updated == made.Keys * inb.Keys && removed !! made.Keys
    ensures (AfterUpdates(inb, made, updated, {}) - removed) + (made - inb.Keys) == (inb - removed) + made
  {
  }

  lemma SwappedIn(was: Snapshot, now: Snapshot, p: Prepared, oldCfg: Config, newCfg: Config,
                  landed: map<string, Inbound>, t: Trail)
    requires was.config == oldCfg && Plan(p, oldCfg, newCfg) && Cfgs(was.inbounds) == Index(oldCfg.inbounds, ListenOf)
    requires Cfgs(was.outbounds) == Index(oldCfg.outbounds, NameOf)
    requires t.made == p.newInbounds && t.madeOut == p.newOutbounds
    requires
      var o, n := Index(oldCfg.inbounds, ListenOf), Index(newCfg.inbounds, ListenOf);
      landed == AfterUpdates(was.inbounds, p.newInbounds, Updated(o, n).Keys, {})
    requires now.inbounds == (landed - Elements(p.removeInbounds)) + (p.newInbounds - was.inbounds.Keys)
    requires now.outbounds ==
      (was.outbounds - Elements(p.removeOutbounds) - p.newOutbounds.Keys) + p.newOutbounds
    ensures Swapped(was, now, newCfg, t)
  {
    var o, n := Index(oldCfg.inbounds, ListenOf), Index(newCfg.inbounds, ListenOf);
    assert Cfgs(was.inbounds).Keys == was.inbounds.Keys && Cfgs(p.newInbounds).Keys == p.newInbounds.Keys;
    assert Updated(o, n).Keys == p.newInbounds.Keys * was.inbounds.Keys;
    WholeMade(was.inbounds, p.newInbounds, Updated(o, n).Keys, Elements(p.removeInbounds));
    ReplaceAll(was.outbounds, p.newOutbounds, Elements(p.removeOutbounds));
  }

  lemma ReplaceAll(outs: map<string, Outbound>, made: map<string, Outbound>, removed: set<string>)
    ensures (outs - removed - made.Keys) + made == (outs - removed) + made
  {
  }

  lemma NothingLanded(oldCfg: Config, newCfg: Config, inb: map<string, Inbound>, upd: map<string, Inbound>)
    ensures Reconcile(oldCfg, newCfg, {}, {}) == oldCfg && AfterUpdates(inb, upd, {}, {}) == inb
  {
    KeptNothing(oldCfg.inbounds, Index(newCfg.inbounds, ListenOf));
    assert AfterUpdates(inb, upd, {}, {}) == inb;
  }

  lemma {:induction false} KeptNothing(es: seq<InboundConfig>, n: map<string, InboundConfig>)
    ensures Kept(es, n, {}, {}) == es
  {
    if es != [] {
      KeptNothing(es[..|es| - 1], n);
    }
  }

  /** The prepared handlers for running listens are the updates, the others the additions. */
  lemma SplitPrepared(o: map<string, InboundConfig>, n: map<string, InboundConfig>, inb: map<string, Inbound>,
                      hs: map<string, Inbound>)
    requires Cfgs(inb) == o && Cfgs(hs) == Updated(o, n) + Added(o, n)
    ensures Cfgs(hs - inb.Keys) == Added(o, n)
    ensures Cfgs(hs - (hs.Keys - inb.Keys)) == Updated(o, n)
  {
    assert Cfgs(inb).Keys == inb.Keys && Cfgs(hs).Keys == hs.Keys;
    CfgsMinus(hs, inb.Keys);
    CfgsMinus(hs, hs.Keys - inb.Keys);
    assert (Updated(o, n) + Added(o, n)) - o.Keys == Added(o, n);
    assert (Updated(o, n) + Added(o, n)) - (hs.Keys - o.Keys) == Updated(o, n);
  }

  lemma OutboundsPatched(o: map<string, OutboundConfig>, entries: seq<OutboundConfig>, outs: map<string, Outbound>,
                         hs: map<string, Outbound>, removed: set<string>)
    requires
      var n := Index(entries, NameOf);
      Cfgs(outs) == o && removed == o.Keys - n.Keys && Cfgs(hs) == Updated(o, n) + Added(o, n)
    ensures Cfgs((outs - removed - hs.Keys) + hs) == Index(entries, NameOf)
    ensures forall k :: k in hs ==> hs[k].cfg.name == k
  {
    var n := Index(entries, NameOf);
    IndexKeyed(entries, NameOf);
    KeyedCfgs(hs);
    var kept := outs - removed - hs.Keys;
    CfgsMinus(outs, removed);
    CfgsMinus(outs - removed, hs.Keys);
    CfgsPlus(kept, hs);
    ReplacedIsNew(o, n, Cfgs(hs), Cfgs(kept));
  }

  lemma CfgsMinus<C>(hs: map<string, Handler<C>>, ks: set<string>)
    ensures Cfgs(hs - ks) == Cfgs(hs) - ks
  {
  }

  lemma CfgsPlus<C>(a: map<string, Handler<C>>, b: map<string, Handler<C>>)
    ensures Cfgs(a + b) == Cfgs(a) + Cfgs(b) && Cfgs(b).Keys == b.Keys
  {
  }

  lemma KeyedCfgs(hs: map<string, Outbound>)
    requires forall k :: k in Cfgs(hs) ==> Cfgs(hs)[k].name == k
    ensures forall k :: k in hs ==> hs[k].cfg.name == k
  {
    forall k | k in hs
      ensures hs[k].cfg.name == k
    {
      assert k in Cfgs(hs);
    }
  }

  /** Dropping what is removed or replaced and putting in what is new gives the new map. */
  lemma ReplacedIsNew<T>(o: map<string, T>, n: map<string, T>, new_: map<string, T>, kept: map<string, T>)
    requires new_ == Updated(o, n) + Added(o, n) && kept == o - (o.Keys - n.Keys) - new_.Keys
    ensures kept + new_ == n
  {
    forall k | k in n
      ensures k in kept + new_ && (kept + new_)[k] == n[k]
    {
      if k in o && o[k] == n[k] {
        assert k !in new_;
      }
    }
  }
}
