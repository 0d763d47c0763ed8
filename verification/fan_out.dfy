/** Broker events to websocket frames. Sending a frame, whether directly or through the connection's I/O
    manager, is recorded in an outbox; each handler is one step against one registry. */
module FanOut {
  import opened Common
  import opened OnlineConnection
  import opened Sessions
  import opened PendingSends
  import Consumer
  import Histogram

  /** The fields the handlers read from an event; an id list is None when the member is not an array. */
  datatype Event = Event(
    clientMsgId: string, messageId: int, senderId: nat, operatorId: nat, targetUserId: nat, fromUserId: nat, toUserId: nat,
    receivers: Option<seq<nat>>, memberIds: Option<seq<nat>>,
    addedIds: Option<seq<nat>>, removedIds: Option<seq<nat>>, roleChangeIds: Option<seq<nat>>)

  datatype Frame =
    | SendResp(hasSeq: bool, seqNo: int, clientMsgId: string, messageId: int)
    | Push(kind: string, event: Event)

  /** The frames sent to each connection so far, in order. */
  type Outbox = map<OnlineConn, seq<Frame>>

  function FramesTo(outbox: Outbox, c: OnlineConn): seq<Frame> {
    if c in outbox then outbox[c] else []
  }

  // ---------- What each connection should receive ----------

  function Ids(ids: Option<seq<nat>>): seq<nat> {
    if ids.Some? then ids.value else []
  }

  function Users(ids: Option<seq<nat>>): set<nat> {
    set i | i in Ids(ids)
  }

  function RecallUsers(p: Event): set<nat> {
    {p.operatorId} + Users(p.receivers)
  }

  function ChangedUsers(p: Event): set<nat> {
    Users(p.addedIds) + Users(p.removedIds) + Users(p.roleChangeIds)
  }

  /** A connection that can be sent to. */
  ghost predicate Reachable(r: Registry, c: OnlineConn) {
    Registered(r, c) && c.hasSession
  }

  function SenderFrame(p: Event, taken: PendingSend, c: OnlineConn): Frame {
    if c.deviceId == taken.senderDeviceId then SendResp(taken.hasSeq, taken.seqNo, p.clientMsgId, p.messageId)
    else Push("msg.new", p)
  }

  /** A chat message: the sender's connections hear only if the send was still pending, the originating
      device as a response and the others as a new message; every distinct receiver other than 0 and the
      sender hears once, however often it is listed. */
  function ChatFrames(p: Event, taken: Option<PendingSend>, c: OnlineConn): seq<Frame> {
    if c.userId == p.senderId then
      if taken.None? then [] else [SenderFrame(p, taken.value, c)]
    else if c.userId != 0 && c.userId in Ids(p.receivers) then [Push("msg.new", p)]
    else []
  }

  /** One push if the connection's user is a non-zero member of the set. */
  function SetFrames(users: set<nat>, kind: string, p: Event, c: OnlineConn): seq<Frame> {
    if c.userId in users && c.userId != 0 then [Push(kind, p)] else []
  }

  /** One push for every time the connection's user is listed among the first n ids. */
  function ListFrames(ids: seq<nat>, n: nat, kind: string, p: Event, c: OnlineConn): seq<Frame>
    requires n <= |ids|
  {
    if n == 0 then []
    else ListFrames(ids, n - 1, kind, p, c) + if ids[n - 1] == c.userId != 0 then [Push(kind, p)] else []
  }

  function Expected(kind: string, p: Event, taken: Option<PendingSend>, c: OnlineConn): seq<Frame> {
    match kind
    case "chat.msg.send" => ChatFrames(p, taken, c)
    case "chat.msg.replay" => SetFrames({p.targetUserId}, "msg.replay", p, c)
    case "chat.msg.recall" => SetFrames(RecallUsers(p), "msg.recall", p, c)
    case "chat.friend.request" => SetFrames({p.toUserId}, "friend.request", p, c)
    case "chat.friend.accept" => SetFrames({p.fromUserId, p.toUserId}, "friend.accept", p, c)
    case "chat.conversation.created" => ListFrames(Ids(p.memberIds), |Ids(p.memberIds)|, "conversation.created", p, c)
    case "chat.conversation.member_changed" => SetFrames(ChangedUsers(p), "conversation.member_changed", p, c)
    case _ => []
  }

  /** An event is dropped exactly when the one recipient or the member list it must name is missing. */
  function ExpectedVerdict(kind: string, p: Event): Consumer.ConsumeResult {
    if (kind == "chat.msg.replay" && p.targetUserId == 0) || (kind == "chat.friend.request" && p.toUserId == 0)
       || (kind == "chat.conversation.created" && p.memberIds.None?)
    then Consumer.NACK_DROP else Consumer.ACK
  }

  /** From one outbox to the next, a reachable connection gains exactly these frames, in order, and any
      other connection nothing. */
  ghost predicate Gains(r: Registry, before: Outbox, after: Outbox, c: OnlineConn, frames: seq<Frame>) {
    FramesTo(after, c) == FramesTo(before, c) + if Reachable(r, c) then frames else []
  }

  lemma ListGains(r: Registry, start: Outbox, before: Outbox, after: Outbox, ids: seq<nat>, n: nat, kind: string, p: Event, c: OnlineConn)
    requires n < |ids| && Gains(r, start, before, c, ListFrames(ids, n, kind, p, c))
    requires FramesTo(after, c) == FramesTo(before, c) + if Reachable(r, c) && ids[n] == c.userId != 0 then [Push(kind, p)] else []
    ensures Gains(r, start, after, c, ListFrames(ids, n + 1, kind, p, c))
  {
  }

  lemma ListsRegistered(r: Registry, uid: nat, out: seq<OnlineConn>, c: OnlineConn)
    requires Keyed(r) && Lists(out, DevicesOf(r, uid).Values)
    ensures c in out <==> Registered(r, c) && c.userId == uid
  {
    if c in out {
      var d :| d in DevicesOf(r, uid) && DevicesOf(r, uid)[d] == c;
    }
    if Registered(r, c) && c.userId == uid {
      assert DevicesOf(r, uid)[c.deviceId] == c;
    }
  }

  // ---------- The dispatcher ----------

  class MqToWsDispatcher {
    const registry: SessionRegistry
    const pendings: WsToMqDispatcher
    const metrics: Histogram.ChatMetrics
    ghost var outbox: Outbox

    constructor (registry: SessionRegistry, pendings: WsToMqDispatcher, metrics: Histogram.ChatMetrics)
      ensures this.registry == registry && this.pendings == pendings && this.metrics == metrics && outbox == map[]
    {
      this.registry, this.pendings, this.metrics, outbox := registry, pendings, metrics, map[];
    }

    ghost predicate Valid()
      reads this, registry, pendings, pendings.publisher, metrics
    {
      Keyed(registry.conns) && pendings.Valid() && metrics.Valid()
    }

    method SendFrame(conn: OnlineConn, frame: Frame)
      modifies this`outbox
      ensures outbox == old(outbox)[conn := FramesTo(old(outbox), conn) + [frame]]
    {
      outbox := outbox[conn := FramesTo(outbox, conn) + [frame]];
    }

    method PushToUser(uid: nat, kind: string, p: Event)
      requires Keyed(registry.conns)
      modifies this`outbox
      ensures forall c: OnlineConn :: FramesTo(outbox, c) == FramesTo(old(outbox), c)
                + if Reachable(registry.conns, c) && c.userId == uid then [Push(kind, p)] else []
    {
      var conns := registry.GetByUser(uid);
      for i := 0 to |conns|
        invariant forall c: OnlineConn :: FramesTo(outbox, c) == FramesTo(old(outbox), c)
                    + if c in conns[..i] && c.hasSession then [Push(kind, p)] else []
      {
        assert conns[..i + 1] == conns[..i] + [conns[i]];
        assert conns[i] !in conns[..i];
        if conns[i].hasSession {
          SendFrame(conns[i], Push(kind, p));
        }
      }
      assert conns[..|conns|] == conns;
      forall c: OnlineConn { ListsRegistered(registry.conns, uid, conns, c); }
    }

    method AnswerConnection(p: Event, taken: PendingSend, conn: OnlineConn)
      modifies this`outbox
      ensures outbox == if conn.hasSession then old(outbox)[conn := FramesTo(old(outbox), conn) + [SenderFrame(p, taken, conn)]]
                        else old(outbox)
    {
      if conn.hasSession {
        if conn.deviceId == taken.senderDeviceId {
          SendFrame(conn, SendResp(taken.hasSeq, taken.seqNo, p.clientMsgId, p.messageId));
        } else {
          SendFrame(conn, Push("msg.new", p));
        }
      }
    }

    /** The sender's side of OnChatMsgSend, for a taken record. */
    method AnswerSender(p: Event, taken: PendingSend)
      requires Keyed(registry.conns)
      modifies this`outbox
      ensures forall c: OnlineConn :: FramesTo(outbox, c) == FramesTo(old(outbox), c)
                + if Reachable(registry.conns, c) && c.userId == p.senderId then [SenderFrame(p, taken, c)] else []
    {
      var conns := registry.GetByUser(p.senderId);
      for i := 0 to |conns|
        invariant forall c: OnlineConn :: FramesTo(outbox, c) == FramesTo(old(outbox), c)
                    + if c in conns[..i] && c.hasSession then [SenderFrame(p, taken, c)] else []
      {
        assert conns[..i + 1] == conns[..i] + [conns[i]];
        assert conns[i] !in conns[..i];
        AnswerConnection(p, taken, conns[i]);
      }
      assert conns[..|conns|] == conns;
      forall c: OnlineConn { ListsRegistered(registry.conns, p.senderId, conns, c); }
    }

    /** One receiver of a chat message: skipped if it is 0 or the sender, or was already pushed to. */
    method PushToReceiver(p: Event, uid: nat, pushed: set<nat>) returns (pushed': set<nat>)
      requires Keyed(registry.conns)
      modifies this`outbox
      ensures pushed' == pushed + if uid != 0 && uid != p.senderId then {uid} else {}
      ensures forall c: OnlineConn :: FramesTo(outbox, c) == FramesTo(old(outbox), c)
                + if Reachable(registry.conns, c) && c.userId in pushed' - pushed then [Push("msg.new", p)] else []
    {
      pushed' := pushed;
      if uid != 0 && uid != p.senderId && uid !in pushed {
        pushed' := pushed + {uid};
        PushToUser(uid, "msg.new", p);
      }
    }

    /** The receivers' side of OnChatMsgSend, with the set of users already pushed to. */
    method PushToReceivers(p: Event)
      requires Keyed(registry.conns)
      modifies this`outbox
      ensures forall c: OnlineConn :: FramesTo(outbox, c) == FramesTo(old(outbox), c)
                + if Reachable(registry.conns, c) && c.userId != p.senderId then ChatFrames(p, None, c) else []
    {
      var ids := Ids(p.receivers);
      var pushed: set<nat> := {};
      for i := 0 to |ids|
        invariant pushed == set u | u in ids[..i] && u != 0 && u != p.senderId
        invariant forall c: OnlineConn :: FramesTo(outbox, c) == FramesTo(old(outbox), c)
                    + if Reachable(registry.conns, c) && c.userId in pushed then [Push("msg.new", p)] else []
      {
        assert ids[..i + 1] == ids[..i] + [ids[i]];
        pushed := PushToReceiver(p, ids[i], pushed);
      }
      assert ids[..|ids|] == ids;
    }

    method SendChatFrames(p: Event, taken: Option<PendingSend>)
      requires Keyed(registry.conns)
      modifies this`outbox
      ensures forall c: OnlineConn :: Gains(registry.conns, old(outbox), outbox, c, ChatFrames(p, taken, c))
    {
      if taken.Some? {
        AnswerSender(p, taken.value);
      }
      PushToReceivers(p);
    }

    method OnChatMsgSend(p: Event, now: int) returns (verdict: Consumer.ConsumeResult, taken: Option<PendingSend>)
      requires Valid()
      modifies this`outbox, pendings, metrics
      ensures Valid()
      ensures verdict == Consumer.ACK
      ensures taken == (if p.clientMsgId in old(pendings.pendingMap) then Some(old(pendings.pendingMap)[p.clientMsgId]) else None)
      ensures pendings.table == Erased(old(pendings.table), p.clientMsgId, Taken)
      ensures metrics.observed == old(metrics.observed) + if taken.Some? then [AsUInt64(now - taken.value.createdMs)] else []
      ensures forall c: OnlineConn :: Gains(registry.conns, old(outbox), outbox, c, ChatFrames(p, taken, c))
    {
      taken := pendings.TakePending(p.clientMsgId);
      if taken.Some? {
        metrics.ObserveMsgSendLatencyMs(AsUInt64(now - taken.value.createdMs));
      }
      SendChatFrames(p, taken);
      verdict := Consumer.ACK;
    }

    method OnChatMsgReplay(p: Event) returns (verdict: Consumer.ConsumeResult)
      requires Keyed(registry.conns)
      modifies this`outbox
      ensures verdict == if p.targetUserId == 0 then Consumer.NACK_DROP else Consumer.ACK
      ensures forall c: OnlineConn :: Gains(registry.conns, old(outbox), outbox, c, SetFrames({p.targetUserId}, "msg.replay", p, c))
    {
      if p.targetUserId == 0 {
        return Consumer.NACK_DROP;
      }
      PushToUser(p.targetUserId, "msg.replay", p);
      return Consumer.ACK;
    }

    method OnFriendRequest(p: Event) returns (verdict: Consumer.ConsumeResult)
      requires Keyed(registry.conns)
      modifies this`outbox
      ensures verdict == if p.toUserId == 0 then Consumer.NACK_DROP else Consumer.ACK
      ensures forall c: OnlineConn :: Gains(registry.conns, old(outbox), outbox, c, SetFrames({p.toUserId}, "friend.request", p, c))
    {
      if p.toUserId == 0 {
        return Consumer.NACK_DROP;
      }
      PushToUser(p.toUserId, "friend.request", p);
      return Consumer.ACK;
    }

    method OnFriendAccept(p: Event) returns (verdict: Consumer.ConsumeResult)
      requires Keyed(registry.conns)
      modifies this`outbox
      ensures verdict == Consumer.ACK
      ensures forall c: OnlineConn ::
                Gains(registry.conns, old(outbox), outbox, c, SetFrames({p.fromUserId, p.toUserId}, "friend.accept", p, c))
    {
      if p.fromUserId > 0 {
        PushToUser(p.fromUserId, "friend.accept", p);
      }
      if p.toUserId > 0 && p.toUserId != p.fromUserId {
        PushToUser(p.toUserId, "friend.accept", p);
      }
      return Consumer.ACK;
    }

    /** The loops over a set of users that skip user 0. */
    method PushToUsers(users: set<nat>, kind: string, p: Event)
      requires Keyed(registry.conns)
      modifies this`outbox
      ensures forall c: OnlineConn :: Gains(registry.conns, old(outbox), outbox, c, SetFrames(users, kind, p, c))
    {
      var todo := users;
      while todo != {}
        invariant todo <= users
        invariant forall c: OnlineConn :: FramesTo(outbox, c) == FramesTo(old(outbox), c)
                    + if Reachable(registry.conns, c) && c.userId in users && c.userId !in todo && c.userId != 0
                      then [Push(kind, p)] else []
        decreases todo
      {
        var u :| u in todo;
        todo := todo - {u};
        if u > 0 {
          PushToUser(u, kind, p);
        }
      }
    }

    /** The loop that inserts a list of ids into a set. */
    method InsertAll(users: set<nat>, ids: Option<seq<nat>>) returns (users': set<nat>)
      ensures users' == users + Users(ids)
    {
      users' := users;
      var list := Ids(ids);
      for i := 0 to |list|
        invariant users' == users + set u | u in list[..i]
      {
        assert list[..i + 1] == list[..i] + [list[i]];
        users' := users' + {list[i]};
      }
      assert list[..|list|] == list;
    }

    method OnChatMsgRecall(p: Event) returns (verdict: Consumer.ConsumeResult)
      requires Keyed(registry.conns)
      modifies this`outbox
      ensures verdict == Consumer.ACK
      ensures forall c: OnlineConn ::
                Gains(registry.conns, old(outbox), outbox, c, SetFrames(RecallUsers(p), "msg.recall", p, c))
    {
      var users: set<nat> := {};
      if p.operatorId > 0 {
        users := users + {p.operatorId};
      }
      users := InsertAll(users, p.receivers);
      PushToUsers(users, "msg.recall", p);
      assert users == RecallUsers(p) - if p.operatorId == 0 && 0 !in Users(p.receivers) then {0} else {};
      assert forall c: OnlineConn :: SetFrames(users, "msg.recall", p, c) == SetFrames(RecallUsers(p), "msg.recall", p, c);
      return Consumer.ACK;
    }

    method OnConversationMemberChanged(p: Event) returns (verdict: Consumer.ConsumeResult)
      requires Keyed(registry.conns)
      modifies this`outbox
      ensures verdict == Consumer.ACK
      ensures forall c: OnlineConn ::
                Gains(registry.conns, old(outbox), outbox, c, SetFrames(ChangedUsers(p), "conversation.member_changed", p, c))
    {
      var users := InsertAll({}, p.addedIds);
      users := InsertAll(users, p.removedIds);
      users := InsertAll(users, p.roleChangeIds);
      assert users == ChangedUsers(p);
      PushToUsers(users, "conversation.member_changed", p);
      return Consumer.ACK;
    }

    /** Member ids are not de-duplicated here: a user listed twice is told twice. */
    method OnConversationCreated(p: Event) returns (verdict: Consumer.ConsumeResult)
      requires Keyed(registry.conns)
      modifies this`outbox
      ensures verdict == if p.memberIds.None? then Consumer.NACK_DROP else Consumer.ACK
      ensures forall c: OnlineConn ::
                Gains(registry.conns, old(outbox), outbox, c, ListFrames(Ids(p.memberIds), |Ids(p.memberIds)|, "conversation.created", p, c))
    {
      if p.memberIds.None? {
        return Consumer.NACK_DROP;
      }
      PushToListed(p.memberIds.value, "conversation.created", p);
      return Consumer.ACK;
    }

    method PushUnlessZero(uid: nat, kind: string, p: Event)
      requires Keyed(registry.conns)
      modifies this`outbox
      ensures forall c: OnlineConn :: FramesTo(outbox, c) == FramesTo(old(outbox), c)
                + if Reachable(registry.conns, c) && uid == c.userId != 0 then [Push(kind, p)] else []
    {
      if uid > 0 {
        PushToUser(uid, kind, p);
      }
    }

    method PushToListed(ids: seq<nat>, kind: string, p: Event)
      requires Keyed(registry.conns)
      modifies this`outbox
      ensures forall c: OnlineConn :: Gains(registry.conns, old(outbox), outbox, c, ListFrames(ids, |ids|, kind, p, c))
    {
      for i := 0 to |ids|
        invariant forall c: OnlineConn :: Gains(registry.conns, old(outbox), outbox, c, ListFrames(ids, i, kind, p, c))
      {
        ghost var before, n := outbox, i + 1;
        PushUnlessZero(ids[i], kind, p);
        forall c: OnlineConn ensures Gains(registry.conns, old(outbox), outbox, c, ListFrames(ids, n, kind, p, c)) {
          ListGains(registry.conns, old(outbox), before, outbox, ids, i, kind, p, c);
        }
      }
    }

    /** Every event type: the verdict, the pending table, the latency observed, and exactly the frames each connection gains. */
    method OnEnvelope(kind: string, p: Event, now: int) returns (verdict: Consumer.ConsumeResult, taken: Option<PendingSend>)
      requires Valid()
      modifies this`outbox, pendings, metrics
      ensures Valid()
      ensures verdict == ExpectedVerdict(kind, p)
      ensures taken == if kind == "chat.msg.send" && p.clientMsgId in old(pendings.pendingMap)
                       then Some(old(pendings.pendingMap)[p.clientMsgId]) else None
      ensures metrics.observed == old(metrics.observed) + if taken.Some? then [AsUInt64(now - taken.value.createdMs)] else []
      ensures pendings.table == if kind == "chat.msg.send" then Erased(old(pendings.table), p.clientMsgId, Taken) else old(pendings.table)
      ensures forall c: OnlineConn :: Gains(registry.conns, old(outbox), outbox, c, Expected(kind, p, taken, c))
    {
      taken := None;
      match kind {
        case "chat.msg.send" => verdict, taken := OnChatMsgSend(p, now);
        case "chat.msg.replay" => verdict := OnChatMsgReplay(p);
        case "chat.msg.recall" => verdict := OnChatMsgRecall(p);
        case "chat.friend.request" => verdict := OnFriendRequest(p);
        case "chat.friend.accept" => verdict := OnFriendAccept(p);
        case "chat.conversation.created" => verdict := OnConversationCreated(p);
        case "chat.conversation.member_changed" => verdict := OnConversationMemberChanged(p);
        case _ => verdict := Consumer.ACK;
      }
    }
  }
}
