/** Who hears what of each broker event, read off the event and the registry: what the dispatcher's contract
    means for one connection. */
module Recipients {
  import opened Common
  import opened OnlineConnection
  import opened Sessions
  import opened PendingSends
  import opened FanOut
  import Consumer

  /** What Gains says of two outboxes: a connection registered under its own keys, with a session, gains the
      frames at the end of what it had; any other connection keeps what it had. */
  lemma GainsMeans(r: Registry, before: Outbox, after: Outbox, c: OnlineConn, frames: seq<Frame>)
    requires Gains(r, before, after, c, frames)
    ensures var had, has := if c in before then before[c] else [], if c in after then after[c] else [];
            if c.userId in r && c.deviceId in r[c.userId] && r[c.userId][c.deviceId] == c && c.hasSession
            then has == had + frames else has == had
  {
  }

  /** A chat message is pushed once to every connection of a listed user other than 0 and the sender, and to
      no other connection but the sender's. */
  lemma ChatReceiverHears(p: Event, taken: Option<PendingSend>, c: OnlineConn)
    requires c.userId != p.senderId
    ensures Expected("chat.msg.send", p, taken, c)
         == if c.userId != 0 && p.receivers.Some? && c.userId in p.receivers.value then [Push("msg.new", p)] else []
  {
  }

  /** The sender's connections hear only if the send was pending: the originating device the response with its
      seq, the others the message. */
  lemma ChatSenderHears(p: Event, taken: Option<PendingSend>, c: OnlineConn)
    requires c.userId == p.senderId
    ensures Expected("chat.msg.send", p, taken, c)
         == match taken
            case None => []
            case Some(t) =>
              if c.deviceId == t.senderDeviceId then [SendResp(t.hasSeq, t.seqNo, p.clientMsgId, p.messageId)] else [Push("msg.new", p)]
  {
  }

  lemma ReplayTargetHears(p: Event, taken: Option<PendingSend>, c: OnlineConn)
    ensures Expected("chat.msg.replay", p, taken, c) == if c.userId == p.targetUserId != 0 then [Push("msg.replay", p)] else []
  {
  }

  /** A recall is pushed once to the operator and to every listed receiver. */
  lemma RecallHears(p: Event, taken: Option<PendingSend>, c: OnlineConn)
    ensures Expected("chat.msg.recall", p, taken, c)
         == if c.userId != 0 && (c.userId == p.operatorId || (p.receivers.Some? && c.userId in p.receivers.value))
            then [Push("msg.recall", p)] else []
  {
  }

  lemma FriendsHear(p: Event, taken: Option<PendingSend>, c: OnlineConn)
    ensures Expected("chat.friend.request", p, taken, c) == if c.userId == p.toUserId != 0 then [Push("friend.request", p)] else []
    ensures Expected("chat.friend.accept", p, taken, c)
         == if c.userId != 0 && (c.userId == p.fromUserId || c.userId == p.toUserId) then [Push("friend.accept", p)] else []
  {
  }

  /** A member change is pushed once to everyone added, removed or given another role. */
  lemma ChangedMemberHears(p: Event, taken: Option<PendingSend>, c: OnlineConn)
    ensures Expected("chat.conversation.member_changed", p, taken, c)
         == if && c.userId != 0
               && (|| (p.addedIds.Some? && c.userId in p.addedIds.value)
                   || (p.removedIds.Some? && c.userId in p.removedIds.value)
                   || (p.roleChangeIds.Some? && c.userId in p.roleChangeIds.value))
            then [Push("conversation.member_changed", p)] else []
  {
  }

  lemma {:induction false} FramePerListing(ids: seq<nat>, n: nat, kind: string, p: Event, c: OnlineConn)
    requires n <= |ids|
    ensures var frames := ListFrames(ids, n, kind, p, c);
            && |frames| == (if c.userId == 0 then 0 else multiset(ids[..n])[c.userId])
            && forall f | f in frames :: f == Push(kind, p)
  {
    if n > 0 {
      FramePerListing(ids, n - 1, kind, p, c);
      assert ids[..n] == ids[..n - 1] + [ids[n - 1]];
    }
  }

  /** A created conversation is pushed to a member's connection once for every time the member is listed. */
  lemma CreatedMemberHears(p: Event, taken: Option<PendingSend>, c: OnlineConn)
    ensures var frames := Expected("chat.conversation.created", p, taken, c);
            && |frames| == (if c.userId == 0 || p.memberIds.None? then 0 else multiset(p.memberIds.value)[c.userId])
            && forall f | f in frames :: f == Push("conversation.created", p)
  {
    var ids := Ids(p.memberIds);
    FramePerListing(ids, |ids|, "conversation.created", p, c);
    assert ids[..|ids|] == ids;
  }

  /** Events of any other type reach no one. */
  lemma OthersHearNothing(kind: string, p: Event, taken: Option<PendingSend>, c: OnlineConn)
    requires kind !in {"chat.msg.send", "chat.msg.replay", "chat.msg.recall", "chat.friend.request", "chat.friend.accept",
                       "chat.conversation.created", "chat.conversation.member_changed"}
    ensures Expected(kind, p, taken, c) == []
  {
  }

  /** An event is dropped exactly if its single recipient is missing or its member list is no array. */
  lemma DroppedIff(kind: string, p: Event)
    ensures ExpectedVerdict(kind, p) == Consumer.NACK_DROP
       <==> || (kind == "chat.msg.replay" && p.targetUserId == 0)
            || (kind == "chat.friend.request" && p.toUserId == 0)
            || (kind == "chat.conversation.created" && p.memberIds.None?)
    ensures ExpectedVerdict(kind, p) != Consumer.NACK_DROP ==> ExpectedVerdict(kind, p) == Consumer.ACK
  {
  }

  /** One receiver, told through the dispatcher itself: a live connection of a listed user gains exactly one
      new-message frame, and one of a user who is neither listed nor the sender gains nothing. */
  method ReceiverIsTold(d: MqToWsDispatcher, p: Event, now: int, c: OnlineConn)
    requires d.Valid() && c.userId != 0 && c.userId != p.senderId
    requires c.userId in d.registry.conns && c.deviceId in d.registry.conns[c.userId] && d.registry.conns[c.userId][c.deviceId] == c && c.hasSession
    modifies d, d.pendings, d.metrics
    ensures var had, has := if c in old(d.outbox) then old(d.outbox)[c] else [], if c in d.outbox then d.outbox[c] else [];
            has == had + if p.receivers.Some? && c.userId in p.receivers.value then [Push("msg.new", p)] else []
  {
    var verdict, taken := d.OnEnvelope("chat.msg.send", p, now);
    ChatReceiverHears(p, taken, c);
    GainsMeans(d.registry.conns, old(d.outbox), d.outbox, c, Expected("chat.msg.send", p, taken, c));
  }
}
