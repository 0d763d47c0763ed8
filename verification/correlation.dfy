/** One reply per send, end to end: sends, publish failures, sweeps, registry changes and the handlers of
    broker echoes interleaved arbitrarily. Each lock-protected section is one step, so a handler takes the
    pending record in one and looks the sender up in another, and several handlers may be in between. */
module Correlation {
  import opened Common
  import opened OnlineConnection
  import opened Sessions
  import opened PendingSends
  import opened FanOut

  /** What a handler holds between its two sections: the echo it handles, the copy of the record it took, that
      record's serial number, and how many insertions there had been when it took it. */
  datatype Held = Held(echo: Event, taken: PendingSend, serial: nat, seen: nat)

  /** A response frame, and the handler that sent it. */
  datatype Reply = Reply(taker: Held, conn: OnlineConn, frame: Frame)

  datatype System = System(reg: Registry, table: Table, handlers: map<nat, Held>, replies: seq<Reply>)

  datatype Move =
    | Pend(op: PendingSends.Op)
    | Register(change: Sessions.Op)
    | TakeRecord(handler: nat, echo: Event)
    | Route(handler: nat)

  const START := System(map[], EMPTY, map[], [])

  /** The only connection a response can go to: the one under the sender named by the echo and the
      device recorded at insertion. */
  function Responder(r: Registry, p: Event, taken: PendingSend): Option<OnlineConn> {
    if p.senderId in r && taken.senderDeviceId in r[p.senderId] && r[p.senderId][taken.senderDeviceId].hasSession
    then Some(r[p.senderId][taken.senderDeviceId]) else None
  }

  /** The dispatcher's frames agree: a connection gains a response exactly if it is the responder, and then
      gains nothing else. */
  lemma ResponseGoesToResponder(r: Registry, p: Event, taken: PendingSend, c: OnlineConn)
    requires Keyed(r)
    ensures Reachable(r, c) && (exists f | f in ChatFrames(p, Some(taken), c) :: f.SendResp?) <==> Responder(r, p, taken) == Some(c)
    ensures Responder(r, p, taken) == Some(c) ==>
              ChatFrames(p, Some(taken), c) == [SendResp(taken.hasSeq, taken.seqNo, p.clientMsgId, p.messageId)]
  {
    if Responder(r, p, taken) == Some(c) {
      assert SendResp(taken.hasSeq, taken.seqNo, p.clientMsgId, p.messageId) in ChatFrames(p, Some(taken), c);
    }
  }

  /** The handler's first section: TakePending. Without a record it has no one to answer. */
  function RecordTaken(s: System, h: nat, e: Event): System {
    var t := Erased(s.table, e.clientMsgId, Taken);
    if e.clientMsgId in s.table.slot && s.table.slot[e.clientMsgId] < |s.table.records| then
      var n := s.table.slot[e.clientMsgId];
      s.(table := t, handlers := s.handlers[h := Held(e, s.table.records[n].p, n, |s.table.records|)])
    else s.(table := t)
  }

  /** Its second: GetByUser on the registry of that moment, and the responses it leads to. */
  function Replies(r: Registry, taker: Held): seq<Reply> {
    match Responder(r, taker.echo, taker.taken)
    case None => []
    case Some(c) => [Reply(taker, c, SendResp(taker.taken.hasSeq, taker.taken.seqNo, taker.echo.clientMsgId, taker.echo.messageId))]
  }

  ghost predicate Moves(s: System, m: Move, limit: nat, ttlMs: int, s': System) {
    match m
    case Pend(op) => !op.Take? && s' == s.(table := Apply(s.table, ttlMs, op))
    case Register(op) => Applies(s.reg, op, limit, s'.reg) && s' == s.(reg := s'.reg)
    case TakeRecord(h, e) => h !in s.handlers && s' == RecordTaken(s, h, e)
    case Route(h) =>
      && h in s.handlers
      && s' == s.(handlers := s.handlers - {h}, replies := s.replies + Replies(s.reg, s.handlers[h]))
  }

  ghost predicate Run(ss: seq<System>, ms: seq<Move>, limit: nat, ttlMs: int) {
    && |ss| == |ms| + 1 && ss[0] == START
    && forall i | 0 <= i < |ms| :: Moves(ss[i], ms[i], limit, ttlMs, ss[i + 1])
  }

  // ---------- The invariant ----------

  /** What a handler holds is a taken record of its echo's key, the newest insertion under that key at the
      time. */
  ghost predicate HoldsTaken(t: Table, taker: Held) {
    && taker.serial < taker.seen <= |t.records|
    && t.records[taker.serial] == Record(taker.echo.clientMsgId, taker.taken, Taken)
    && (forall m | taker.serial < m < taker.seen :: t.records[m].cid != taker.echo.clientMsgId)
  }

  /** A reply went to the connection under the echo's sender and the recorded device, with the record's seq. */
  ghost predicate WellSent(q: Reply) {
    && q.frame == SendResp(q.taker.taken.hasSeq, q.taker.taken.seqNo, q.taker.echo.clientMsgId, q.taker.echo.messageId)
    && q.conn.userId == q.taker.echo.senderId && q.conn.deviceId == q.taker.taken.senderDeviceId && q.conn.hasSession
  }

  /** The pending record of a key is its newest insertion. */
  ghost predicate NewestHolds(t: Table) {
    forall k, m | k in t.slot && t.slot[k] < m < |t.records| :: t.records[m].cid != k
  }

  ghost predicate TableFits(t: Table) {
    Consistent(t) && NewestHolds(t)
  }

  /** No two handlers in flight or replies sent share a record. */
  ghost predicate Distinct(s: System) {
    && (forall g, h | g in s.handlers && h in s.handlers && g != h :: s.handlers[g].serial != s.handlers[h].serial)
    && (forall h, i | h in s.handlers && 0 <= i < |s.replies| :: s.handlers[h].serial != s.replies[i].taker.serial)
    && (forall i, j | 0 <= i < j < |s.replies| :: s.replies[i].taker.serial != s.replies[j].taker.serial)
  }

  ghost predicate Correlated(s: System) {
    && Keyed(s.reg) && TableFits(s.table)
    && (forall h | h in s.handlers :: HoldsTaken(s.table, s.handlers[h]))
    && (forall i | 0 <= i < |s.replies| :: HoldsTaken(s.table, s.replies[i].taker) && WellSent(s.replies[i]))
    && Distinct(s)
  }

  lemma HeldSurvives(t: Table, ttlMs: int, op: PendingSends.Op, taker: Held)
    requires Consistent(t) && HoldsTaken(t, taker)
    ensures HoldsTaken(Apply(t, ttlMs, op), taker)
  {
    StepKeepsFate(t, ttlMs, op, taker.serial);
    forall m | taker.serial < m < taker.seen ensures Apply(t, ttlMs, op).records[m].cid != taker.echo.clientMsgId {
      StepKeepsFate(t, ttlMs, op, m);
    }
  }

  lemma OpKeepsTableFits(t: Table, ttlMs: int, op: PendingSends.Op)
    requires TableFits(t)
    ensures TableFits(Apply(t, ttlMs, op))
  {
    ApplyKeepsConsistent(t, ttlMs, op);
    var t' := Apply(t, ttlMs, op);
    forall k, m | k in t'.slot && t'.slot[k] < m < |t'.records| ensures t'.records[m].cid != k {
      if m < |t.records| {
        StepKeepsFate(t, ttlMs, op, m);
      }
    }
  }

  lemma OpKeepsCorrelated(s: System, ttlMs: int, op: PendingSends.Op)
    requires Correlated(s)
    ensures Correlated(s.(table := Apply(s.table, ttlMs, op)))
  {
    OpKeepsTableFits(s.table, ttlMs, op);
    forall taker | HoldsTaken(s.table, taker) ensures HoldsTaken(Apply(s.table, ttlMs, op), taker) {
      HeldSurvives(s.table, ttlMs, op, taker);
    }
  }

  /** The record taken was waiting until now, so no one else holds it. */
  lemma NewHeld(t: Table, taker: Held)
    requires TableFits(t) && taker.echo.clientMsgId in t.slot
    requires taker == Held(taker.echo, t.records[t.slot[taker.echo.clientMsgId]].p, t.slot[taker.echo.clientMsgId], |t.records|)
    ensures HoldsTaken(Erased(t, taker.echo.clientMsgId, Taken), taker) && t.records[taker.serial].fate.Waiting?
  {
  }

  lemma HandlerJoins(s: System, h: nat, taker: Held)
    requires Correlated(s) && h !in s.handlers && HoldsTaken(s.table, taker)
    requires forall g | g in s.handlers :: s.handlers[g].serial != taker.serial
    requires forall i | 0 <= i < |s.replies| :: s.replies[i].taker.serial != taker.serial
    ensures Correlated(s.(handlers := s.handlers[h := taker]))
  {
  }

  lemma TakeKeepsCorrelated(s: System, h: nat, e: Event)
    requires Correlated(s) && h !in s.handlers
    ensures Correlated(RecordTaken(s, h, e))
  {
    var op := Take(0, e.clientMsgId, 0);
    OpKeepsCorrelated(s, 0, op);
    if e.clientMsgId in s.table.slot {
      var n := s.table.slot[e.clientMsgId];
      var taker := Held(e, s.table.records[n].p, n, |s.table.records|);
      NewHeld(s.table, taker);
      HandlerJoins(s.(table := Apply(s.table, 0, op)), h, taker);
    }
  }

  lemma RouteKeepsCorrelated(s: System, m: Move, limit: nat, ttlMs: int, s': System)
    requires Correlated(s) && m.Route? && Moves(s, m, limit, ttlMs, s')
    ensures Correlated(s')
  {
    var taker := s.handlers[m.handler];
    assert forall q | q in Replies(s.reg, taker) :: q.taker == taker && WellSent(q);
    assert |Replies(s.reg, taker)| <= 1;
  }

  lemma RegisterKeepsCorrelated(s: System, m: Move, limit: nat, ttlMs: int, s': System)
    requires Correlated(s) && m.Register? && Moves(s, m, limit, ttlMs, s')
    ensures Correlated(s')
  {
    if m.change.AddOp? {
      AddedKeepsKeyed(s.reg, m.change.conn, limit, s'.reg, m.change.replaced, m.change.evicted);
    }
  }

  lemma MoveKeepsCorrelated(s: System, m: Move, limit: nat, ttlMs: int, s': System)
    requires Correlated(s) && Moves(s, m, limit, ttlMs, s')
    ensures Correlated(s')
  {
    match m
    case Pend(op) => OpKeepsCorrelated(s, ttlMs, op);
    case Register(_) => RegisterKeepsCorrelated(s, m, limit, ttlMs, s');
    case TakeRecord(h, e) => TakeKeepsCorrelated(s, h, e);
    case Route(_) => RouteKeepsCorrelated(s, m, limit, ttlMs, s');
  }

  lemma {:induction false} AlwaysCorrelated(ss: seq<System>, ms: seq<Move>, limit: nat, ttlMs: int, i: nat)
    requires Run(ss, ms, limit, ttlMs) && i < |ss|
    ensures Correlated(ss[i])
  {
    if i > 0 {
      AlwaysCorrelated(ss, ms, limit, ttlMs, i - 1);
      MoveKeepsCorrelated(ss[i - 1], ms[i - 1], limit, ttlMs, ss[i]);
    }
  }

  // ---------- One reply per send ----------

  /** Over any run, the insertion with serial number n has at most one response, sent to one connection: the
      one under the echo's sender on the device that inserted it, carrying that insertion's seq. */
  lemma OneReplyPerSend(ss: seq<System>, ms: seq<Move>, limit: nat, ttlMs: int, k: nat, n: nat, i: nat, j: nat)
    requires Run(ss, ms, limit, ttlMs) && k < |ss|
    requires i < |ss[k].replies| && j < |ss[k].replies| && ss[k].replies[i].taker.serial == n == ss[k].replies[j].taker.serial
    ensures i == j
    ensures var q := ss[k].replies[i];
            && n < |ss[k].table.records|
            && var sent := ss[k].table.records[n];
               && sent.fate.Taken?
               && q.frame == SendResp(sent.p.hasSeq, sent.p.seqNo, sent.cid, q.taker.echo.messageId)
               && q.conn.userId == q.taker.echo.senderId && q.conn.deviceId == sent.p.senderDeviceId
  {
    AlwaysCorrelated(ss, ms, limit, ttlMs, k);
    assert HoldsTaken(ss[k].table, ss[k].replies[i].taker);
  }

  /** Whose reply it is. Let a reply's echo be that of the message published for insertion o. The reply is
      o's, and so carries o's seq to the user and device that made o, exactly when no insertion under the
      same key came between o and the take; otherwise it is the reply of the last such insertion. */
  lemma ReplyIsOwnIff(ss: seq<System>, ms: seq<Move>, limit: nat, ttlMs: int, k: nat, i: nat, o: nat)
    requires Run(ss, ms, limit, ttlMs) && k < |ss| && i < |ss[k].replies|
    requires o < ss[k].replies[i].taker.seen <= |ss[k].table.records|
    requires ss[k].table.records[o].cid == ss[k].replies[i].taker.echo.clientMsgId
    requires ss[k].table.records[o].p.senderUserId == ss[k].replies[i].taker.echo.senderId
    ensures var q, records := ss[k].replies[i], ss[k].table.records;
            && (q.taker.serial == o <==> forall m | o < m < q.taker.seen :: records[m].cid != records[o].cid)
            && (q.taker.serial == o ==>
                  && q.conn.userId == records[o].p.senderUserId && q.conn.deviceId == records[o].p.senderDeviceId
                  && q.frame == SendResp(records[o].p.hasSeq, records[o].p.seqNo, records[o].cid, q.taker.echo.messageId))
            && (q.taker.serial != o ==>
                  && o < q.taker.serial < q.taker.seen && records[q.taker.serial].cid == records[o].cid
                  && forall m | q.taker.serial < m < q.taker.seen :: records[m].cid != records[o].cid)
  {
    AlwaysCorrelated(ss, ms, limit, ttlMs, k);
    assert HoldsTaken(ss[k].table, ss[k].replies[i].taker) && WellSent(ss[k].replies[i]);
  }

  lemma FirstDevice(a: OnlineConn)
    ensures Added(map[], a, 1, map[a.userId := map[a.deviceId := a]], None, [])
  {
    var r: Registry := map[a.userId := map[a.deviceId := a]];
    assert DevicesOf(map[], a.userId)[a.deviceId := a] == r[a.userId];
  }

  lemma TwoSends(p: PendingSend, q: PendingSend)
    ensures var t1, t2 := Inserted(EMPTY, "m", p), Inserted(Inserted(EMPTY, "m", p), "m", q);
            && t2 == Table(map["m" := 1], [Record("m", p, Overwritten), Record("m", q, Waiting)])
            && Erased(t2, "m", Taken) == Table(map[], [Record("m", p, Overwritten), Record("m", q, Taken)])
  {
    assert Inserted(EMPTY, "m", p) == Table(map["m" := 0], [Record("m", p, Waiting)]);
    assert map["m" := 1] - {"m"} == map[];
  }

  /** Two users may pick one client message id. The later send then overwrites the earlier record, and the
      echo of the earlier message answers the later send's record on the earlier sender's connection. */
  lemma CrossedReply(a: OnlineConn, p: PendingSend, q: PendingSend, e: Event) returns (ss: seq<System>, ms: seq<Move>)
    requires a.hasSession && p.senderUserId == a.userId == e.senderId != q.senderUserId
    requires p.senderDeviceId == q.senderDeviceId == a.deviceId && e.clientMsgId == "m"
    ensures Run(ss, ms, 1, 0)
    ensures ss[|ms|].replies == [Reply(Held(e, q, 1, 2), a, SendResp(q.hasSeq, q.seqNo, "m", e.messageId))]
    ensures ss[|ms|].table == Table(map[], [Record("m", p, Overwritten), Record("m", q, Taken)])
  {
    FirstDevice(a);
    TwoSends(p, q);
    var r: Registry := map[a.userId := map[a.deviceId := a]];
    var t1, taker := Inserted(EMPTY, "m", p), Held(e, q, 1, 2);
    var t2 := Inserted(t1, "m", q);
    var t3 := Erased(t2, "m", Taken);
    ms := [Register(AddOp(a, None, [])), Pend(Insert(0, "m", p)), Pend(Insert(0, "m", q)), TakeRecord(7, e), Route(7)];
    ss := [START, System(r, EMPTY, map[], []), System(r, t1, map[], []), System(r, t2, map[], []),
           System(r, t3, map[7 := taker], []), System(r, t3, map[], Replies(r, taker))];
    assert map[7 := taker] - {7} == map[];
    assert [] + Replies(r, taker) == Replies(r, taker);
  }
}
