/** The session table: parsing a frame, finding or creating its session, and keeping sessions apart. */
module Reassembly {
  import opened Bytes
  import opened Framing
  import opened SessionProtocol
  import opened SessionBuffers
  import opened Streams

  /** Process's header parse, field by field, from a cursor over the frame. */
  method ReadFrame(data: seq<byte>) returns (p: Parsed)
    ensures p == ParseFrame(data)
  {
    var r := new Reader(data);
    var sid := r.ReadField(16, 0);
    if sid.None? {
      return Bad(NoSessionId);
    }
    var num := r.ReadField(4, 16);
    if num.None? {
      return Bad(NoSequence);
    }
    var size := r.ReadField(2, 20);
    if size.None? {
      return Bad(NoSize);
    }
    var flags := r.ReadField(1, 22);
    if flags.None? {
      return Bad(NoFlags);
    }
    var reserved := r.ReadField(1, 23);
    if reserved.None? {
      return Bad(NoReserved);
    }
    var chunk := r.ReadField(GetU16(size.value), HEADER_SIZE);
    if chunk.None? {
      return Bad(NoData);
    }
    p := Frm(sid.value, GetU32(num.value), chunk.value, flags.value[0] % 2 == 1);
  }

  /**
   What one Process call does to a session in state s0: it stores; if the session was not done, others
   then have their turn, and the call ends with a section of its own, in which it gives up its pending
   entry and after which there is nothing left that it could send.
   */
  ghost predicate IsCall(s0: State, store: Event, es: seq<Event>, others: seq<Event>, mine: seq<Event>, alone: bool) {
    && Legal(s0, es)
    && (s0.done ==> es == [store])
    && (!s0.done ==>
      && es == [store] + others + mine && (alone ==> others == []) && IsSection(mine, alone)
      && Legal(s0, [store] + others) && Run(s0, [store] + others).pending == Run(s0, es).pending + 1
      && Drained(Run(s0, es)))
  }

  class Reassembler {
    var sessions: map<seq<byte>, SessionBuffer>

    /** Two ids never share a buffer, nor a flow controller. */
    ghost predicate Valid()
      reads this
    {
      && (forall j, k :: j in sessions && k in sessions && j != k ==>
        sessions[j] != sessions[k] && sessions[j].flowCtrl != sessions[k].flowCtrl)
    }

    /** The session a call works on can be entered: it is in the table, and its lock is free. */
    ghost predicate Ready(sid: seq<byte>)
      reads this, Parts(sid)
    {
      sid in sessions ==> sessions[sid].Valid() && LockFree(sessions[sid].st) && !sessions[sid].st.removed
    }

    ghost function Parts(sid: seq<byte>): set<object>
      reads this
    {
      if sid in sessions then {sessions[sid], sessions[sid].flowCtrl} else {}
    }

    constructor ()
      ensures Valid() && sessions == map[]
    {
      sessions := map[];
    }

    /** sessions.LoadOrStore: an existing session is left alone, a new one is fresh. */
    method LoadOrStore(sid: seq<byte>) returns (sb: SessionBuffer)
      requires Valid() && Ready(sid)
      modifies this
      ensures Valid() && sessions == old(sessions)[sid := sb]
      ensures sid in old(sessions) ==> sb == old(sessions)[sid]
      ensures sid !in old(sessions) ==> fresh(sb) && fresh(sb.flowCtrl) && IsInitial(sb.st)
      ensures sb.Valid() && LockFree(sb.st) && !sb.st.removed
    {
      if sid !in sessions {
        sb := new SessionBuffer();
        sessions := sessions[sid := sb];
      } else {
        sb := sessions[sid];
      }
    }

    /**
     The two critical sections of one Process call. Between them the lock is free, and anybody may move
     unless the caller is alone; a session that is done before the first has no second.
     */
    static method Accept(sb: SessionBuffer, num: nat, chunk: Chunk, fin: bool, alone: bool)
      returns (ghost es: seq<Event>, ghost others: seq<Event>, ghost mine: seq<Event>)
      requires sb.Valid() && LockFree(sb.st) && num < U32_SPACE
      modifies sb, sb.flowCtrl
      ensures sb.Valid() && LockFree(sb.st)
      ensures IsCall(old(sb.st), Store(num, chunk, fin), es, others, mine, alone) && sb.st == Run(old(sb.st), es)
      ensures alone ==> sb.removed == old(sb.removed)
    {
      ghost var s0 := sb.st;
      es, others, mine := [Store(num, chunk, fin)], [], [];
      RunOne(s0, Store(num, chunk, fin));
      var wasDone := sb.done;
      sb.Store(num, chunk, fin);
      if !wasDone {
        if !alone {
          others := sb.OthersMove(1, sb.st, []);
        }
        RunConcat(s0, es, others);
        ghost var before := es + others;
        mine := sb.TryReassemble(alone);
        RunConcat(s0, before, mine);
        es := before + mine;
      }
    }

    /**
     A bad frame changes nothing. A good one is stored in its own session, created when it is new; then,
     unless that session was done, others may move, and may remove it from the table, and then the call
     itself sends what can be sent. The frame condition says that no other session changes. alone is the
     scheduler's choice: nobody else gets to move during the call.
     */
    method Process(data: seq<byte>, alone: bool)
      returns (error: Option<ParseError>, ghost s0: State, ghost es: seq<Event>, ghost others: seq<Event>,
               ghost mine: seq<Event>)
      requires Valid() && (ParseFrame(data).Frm? ==> Ready(ParseFrame(data).sid))
      modifies this, if ParseFrame(data).Frm? then Parts(ParseFrame(data).sid) else {}
      ensures Valid()
      ensures ParseFrame(data).Bad? ==> error == Some(ParseFrame(data).error) && sessions == old(sessions)
      ensures
        var p := ParseFrame(data);
        p.Frm? ==>
          && error == None && Ready(p.sid)
          && (if p.sid in old(sessions) then s0 == old(sessions[p.sid].st) else IsInitial(s0))
          && IsCall(s0, Store(p.num, p.chunk, p.fin), es, others, mine, alone)
          && Settles(old(sessions), p.sid, s0, es, alone)
      ensures
        var p := ParseFrame(data);
        p.Frm? && p.sid !in old(sessions) && p.sid in sessions ==>
          fresh(sessions[p.sid]) && fresh(sessions[p.sid].flowCtrl)
    {
      var p := ReadFrame(data);
      if p.Bad? {
        error, s0, es, others, mine := Some(p.error), *, [], [], [];
        return;
      }
      error := None;
      s0, es, others, mine := ProcessGood(p.sid, p.num, p.chunk, p.fin, alone);
    }

    /** The session has gone along es from s0; it is the one it was, or has been removed by somebody else. */
    ghost predicate Settles(was: map<seq<byte>, SessionBuffer>, sid: seq<byte>, s0: State, es: seq<Event>, alone: bool)
      reads this, Parts(sid)
    {
      Legal(s0, es) &&
      if sid in sessions then
        && sessions == was[sid := sessions[sid]] && (sid in was ==> sessions[sid] == was[sid])
        && sessions[sid].st == Run(s0, es)
      else !alone && sessions == was - {sid} && Run(s0, es).removed
    }

    method ProcessGood(sid: seq<byte>, num: nat, chunk: Chunk, fin: bool, alone: bool)
      returns (ghost s0: State, ghost es: seq<Event>, ghost others: seq<Event>, ghost mine: seq<Event>)
      requires Valid() && Ready(sid) && num < U32_SPACE
      modifies this, Parts(sid)
      ensures Valid() && Ready(sid)
      ensures if sid in old(sessions) then s0 == old(sessions[sid].st) else IsInitial(s0)
      ensures IsCall(s0, Store(num, chunk, fin), es, others, mine, alone)
      ensures Settles(old(sessions), sid, s0, es, alone)
      ensures sid !in old(sessions) && sid in sessions ==> fresh(sessions[sid]) && fresh(sessions[sid].flowCtrl)
    {
      var sb := LoadOrStore(sid);
      s0 := sb.st;
      es, others, mine := Accept(sb, num, chunk, fin, alone);
      Conclude(sid, sb, old(sessions), s0, es, alone);
    }

    /** A session that was removed meanwhile is no longer in the table. */
    method Conclude(sid: seq<byte>, sb: SessionBuffer, ghost was: map<seq<byte>, SessionBuffer>, ghost s0: State,
                    ghost es: seq<Event>, ghost alone: bool)
      requires Valid() && sessions == was[sid := sb] && (sid in was ==> sb == was[sid])
      requires sb.Valid() && LockFree(sb.st) && Legal(s0, es) && sb.st == Run(s0, es) && (alone ==> !sb.removed)
      modifies this
      ensures Valid() && Ready(sid) && Settles(was, sid, s0, es, alone)
      ensures sid in sessions ==> sessions[sid] == sb
    {
      if sb.removed {
        Forget(sid);
      }
    }

    /** What RemoveSession does to the table before it closes the session. */
    method Forget(sid: seq<byte>)
      requires Valid()
      modifies this
      ensures Valid() && sessions == old(sessions) - {sid}
    {
      sessions := sessions - {sid};
    }

    /** A session that is no longer in the table is not told. */
    method OnConsumed(sid: seq<byte>, n: int)
      requires Valid() && Ready(sid)
      modifies Parts(sid)
      ensures Valid() && sessions == old(sessions)
      ensures sid in sessions ==> sessions[sid].Valid() && sessions[sid].st == Apply(old(sessions[sid].st), Ack(n))
    {
      if sid in sessions {
        sessions[sid].OnConsumed(n);
      }
    }

    /** LoadAndDelete, then the shutdown of the buffer. */
    method RemoveSession(sid: seq<byte>)
      requires Valid() && Ready(sid)
      modifies this, Parts(sid)
      ensures Valid() && sessions == old(sessions) - {sid}
      ensures sid in old(sessions) ==>
        var sb := old(sessions)[sid];
        sb.Valid() && sb.st == Apply(old(sb.st), Event.Remove) && sb.done && (sb.outputClosed || sb.retrying)
    {
      if sid in sessions {
        var sb := sessions[sid];
        Forget(sid);
        sb.Remove();
      }
    }
  }
}
