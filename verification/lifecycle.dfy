/** Session lifecycle: onConnect and onClose over the registry, with the presence events they publish.
    Two granularities are modelled: whole callbacks as atomic steps, and every lock-protected call as a
    step of its own. */
module Lifecycle {
  import opened Common
  import opened OnlineConnection
  import opened Sessions
  import Publisher
  import Decimal
  import Jwt

  datatype Presence = Online(userId: nat) | Offline(userId: nat)

  // ---------- Atomic callbacks ----------

  datatype Site = Site(reg: Registry, presence: seq<Presence>)

  datatype Callback =
    | Connect(conn: OnlineConn, replaced: Option<OnlineConn>, evicted: seq<OnlineConn>)
    | Close(userId: nat, deviceId: string)

  ghost predicate Handles(s: Site, cb: Callback, limit: nat, s': Site) {
    match cb
    case Connect(conn, replaced, evicted) =>
      && Added(s.reg, conn, limit, s'.reg, replaced, evicted)
      && s'.presence == s.presence + if conn.userId in s.reg then [] else [Online(conn.userId)]
    case Close(u, d) =>
      && s'.reg == Removed(s.reg, u, d)
      && s'.presence == s.presence + if u in s'.reg then [] else [Offline(u)]
  }

  // ---------- The servlet ----------

  /** How onConnect ends: with -1, with an exception of the token verifier, or with 0. */
  datatype Admission = Refused | Raised | Opened

  /** The per-session request header that carries the identity from onConnect to onClose. */
  class Header {
    var uid: nat
    var did: string

    constructor ()
      ensures uid == 0 && did == ""
    {
      uid, did := 0, "";
    }
  }

  function OnlineTask(userId: nat): Publisher.Task {
    Publisher.Task("business.user.online", Publisher.UserStatus(userId), 5)
  }

  function OfflineTask(userId: nat): Publisher.Task {
    Publisher.Task("business.user.offline", Publisher.UserStatus(userId), 5)
  }

  /** The presence event the backend reads in a published task, if any. */
  function EventIn(t: Publisher.Task): Option<Presence> {
    match t.payload
    case UserStatus(u) =>
      if t.routingKey == "business.user.online" then Some(Online(u))
      else if t.routingKey == "business.user.offline" then Some(Offline(u))
      else None
    case _ => None
  }

  /** The presence events in a sequence of tasks, in order. */
  function EventsIn(ts: seq<Publisher.Task>): seq<Presence> {
    if ts == [] then []
    else
      var e := EventIn(ts[|ts| - 1]);
      EventsIn(ts[..|ts| - 1]) + if e.Some? then [e.value] else []
  }

  lemma EventsInSnoc(ts: seq<Publisher.Task>, t: Publisher.Task)
    ensures EventsIn(ts + [t]) == EventsIn(ts) + if EventIn(t).Some? then [EventIn(t).value] else []
  {
    assert (ts + [t])[..|ts|] == ts;
  }

  /** The log grew by exactly the events in the tasks offered to the publish queue in between. */
  ghost predicate SaidWhatWasOffered(log: seq<Presence>, log': seq<Presence>, offered: seq<Publisher.Task>, offered': seq<Publisher.Task>) {
    log <= log' && EventsIn(offered') == EventsIn(offered) + log'[|log|..]
  }

  datatype Kick = Kick(conn: OnlineConn, reason: string)

  function Kicks(replaced: Option<OnlineConn>, evicted: seq<OnlineConn>): seq<Kick> {
    (if replaced.Some? then [Kick(replaced.value, "login_elsewhere")] else [])
    + seq(|evicted|, i requires 0 <= i < |evicted| => Kick(evicted[i], "too_many_devices"))
  }

  /** Exactly the replaced connection is told it logged in elsewhere, and exactly the evicted ones that there
      are too many devices, each once. */
  lemma KicksMean(replaced: Option<OnlineConn>, evicted: seq<OnlineConn>, k: Kick)
    ensures k in Kicks(replaced, evicted)
       <==> (replaced == Some(k.conn) && k.reason == "login_elsewhere") || (k.conn in evicted && k.reason == "too_many_devices")
    ensures |Kicks(replaced, evicted)| == |evicted| + if replaced.Some? then 1 else 0
  {
    if k.conn in evicted && k.reason == "too_many_devices" {
      var i :| 0 <= i < |evicted| && evicted[i] == k.conn;
      assert Kicks(replaced, evicted)[i + if replaced.Some? then 1 else 0] == k;
    }
  }

  /** The two tasks of onConnect and onClose mean what their names say. */
  lemma TasksMean(userId: nat)
    ensures EventIn(OnlineTask(userId)) == Some(Online(userId)) && EventIn(OfflineTask(userId)) == Some(Offline(userId))
    ensures OnlineTask(userId) == Publisher.Task("business.user.online", Publisher.UserStatus(userId), 5)
    ensures OfflineTask(userId) == Publisher.Task("business.user.offline", Publisher.UserStatus(userId), 5)
  {
  }

  /** A log that records the events in all tasks offered so far goes on doing so. */
  lemma LogIsReadFromTasks(log: seq<Presence>, log': seq<Presence>, offered: seq<Publisher.Task>, offered': seq<Publisher.Task>)
    requires SaidWhatWasOffered(log, log', offered, offered') && log == EventsIn(offered)
    ensures log' == EventsIn(offered')
  {
  }

  class ChatWSServlet {
    const registry: SessionRegistry
    const publisher: Publisher.MqPublisher
    var fallbackSeq: nat
    ghost var presence: seq<Presence>
    ghost var kicked: seq<Kick>

    constructor (registry: SessionRegistry, publisher: Publisher.MqPublisher)
      ensures this.registry == registry && this.publisher == publisher && presence == [] && kicked == []
    {
      this.registry, this.publisher, fallbackSeq, presence, kicked := registry, publisher, 0, [], [];
    }

    ghost predicate Valid()
      reads this, registry, publisher
    {
      Keyed(registry.conns) && publisher.Valid()
    }

    ghost function View(): Site
      reads this, registry
    {
      Site(registry.conns, presence)
    }

    method AllocFallbackDeviceId(uid: nat) returns (did: string)
      modifies this`fallbackSeq
      ensures fallbackSeq == old(fallbackSeq) + 1
      ensures did == "device-" + Decimal.Print(uid) + "-" + Decimal.Print(fallbackSeq)
    {
      fallbackSeq := fallbackSeq + 1;
      did := "device-" + Decimal.Print(uid) + "-" + Decimal.Print(fallbackSeq);
    }

    method SendKicks(replaced: Option<OnlineConn>, evicted: seq<OnlineConn>)
      modifies this`kicked
      ensures kicked == old(kicked) + Kicks(replaced, evicted)
    {
      if replaced.Some? {
        kicked := kicked + [Kick(replaced.value, "login_elsewhere")];
      }
      ghost var k := kicked;
      for i := 0 to |evicted|
        invariant kicked == k + Kicks(None, evicted[..i])
      {
        kicked := kicked + [Kick(evicted[i], "too_many_devices")];
      }
      assert evicted[..|evicted|] == evicted;
    }

    method PublishUserOnline(userId: nat)
      requires publisher.Valid()
      modifies this`presence, publisher
      ensures publisher.Valid() && presence == old(presence) + [Online(userId)]
      ensures publisher.View() == Publisher.Enqueue(publisher.Cfg(), old(publisher.View()), OnlineTask(userId))
      ensures publisher.offered == old(publisher.offered) + [Publisher.Task("business.user.online", Publisher.UserStatus(userId), 5)]
      ensures SaidWhatWasOffered(old(presence), presence, old(publisher.offered), publisher.offered)
    {
      EventsInSnoc(publisher.offered, OnlineTask(userId));
      var _ := publisher.Publish("business.user.online", Publisher.UserStatus(userId), 5);
      presence := presence + [Online(userId)];
    }

    method PublishUserOffline(userId: nat)
      requires publisher.Valid()
      modifies this`presence, publisher
      ensures publisher.Valid() && presence == old(presence) + [Offline(userId)]
      ensures publisher.View() == Publisher.Enqueue(publisher.Cfg(), old(publisher.View()), OfflineTask(userId))
      ensures publisher.offered == old(publisher.offered) + [Publisher.Task("business.user.offline", Publisher.UserStatus(userId), 5)]
      ensures SaidWhatWasOffered(old(presence), presence, old(publisher.offered), publisher.offered)
    {
      EventsInSnoc(publisher.offered, OfflineTask(userId));
      var _ := publisher.Publish("business.user.offline", Publisher.UserStatus(userId), 5);
      presence := presence + [Offline(userId)];
    }

    /** The part of onConnect that follows a verified token: presence check, registration, kicks, event. */
    method Admit(c: OnlineConn, limit: nat) returns (replaced: Option<OnlineConn>, evicted: seq<OnlineConn>)
      requires Valid()
      modifies this, registry, publisher
      ensures Valid()
      ensures Handles(old(View()), Connect(c, replaced, evicted), limit, View())
      ensures kicked == old(kicked) + Kicks(replaced, evicted)
      ensures publisher.View() == if c.userId in old(registry.conns) then old(publisher.View())
                                  else Publisher.Enqueue(publisher.Cfg(), old(publisher.View()), OnlineTask(c.userId))
      ensures SaidWhatWasOffered(old(presence), presence, old(publisher.offered), publisher.offered)
    {
      var online := registry.IsUserOnline(c.userId);
      replaced, evicted := registry.Add(c, limit);
      SendKicks(replaced, evicted);
      if !online {
        PublishUserOnline(c.userId);
      }
    }

    /** What follows a verified token. */
    method Open(header: Header, granted: Jwt.Claims, hasSession: bool, nowMs: int, limit: nat, rateLimit: int32)
      returns (conn: OnlineConn, ghost replaced: Option<OnlineConn>, ghost evicted: seq<OnlineConn>)
      requires Valid()
      modifies this, registry, publisher, header
      ensures Valid() && fresh(conn)
      ensures conn.userId == granted.userId == header.uid && conn.deviceId == header.did != ""
      ensures granted.deviceId != "" ==> header.did == granted.deviceId
      ensures conn.loginAt == conn.lastActiveTs == nowMs
      ensures Handles(old(View()), Connect(conn, replaced, evicted), limit, View())
      ensures kicked == old(kicked) + Kicks(replaced, evicted)
      ensures publisher.View() == if conn.userId in old(registry.conns) then old(publisher.View())
                                  else Publisher.Enqueue(publisher.Cfg(), old(publisher.View()), OnlineTask(conn.userId))
      ensures SaidWhatWasOffered(old(presence), presence, old(publisher.offered), publisher.offered)
    {
      var did := granted.deviceId;
      if did == "" {
        did := AllocFallbackDeviceId(granted.userId);
      }
      conn := new OnlineConn(granted.userId, did, hasSession, nowMs, rateLimit);
      replaced, evicted := Admit(conn, limit);
      header.uid := granted.userId;
      header.did := did;
    }

    /** A session is opened exactly for a token that the verifier admits, under the user and device it names.
        `nowSec` and `nowMs` are the two clocks read. The ghost results name the step taken. */
    method OnConnect(header: Header, token: string, cfg: Jwt.Config, parse: Jwt.Parser, mac: Jwt.Mac,
                     hasSession: bool, nowSec: int, nowMs: int, limit: nat, rateLimit: int32)
      returns (end: Admission, ghost claims: Option<Jwt.Claims>, ghost conn: Option<OnlineConn>,
               ghost replaced: Option<OnlineConn>, ghost evicted: seq<OnlineConn>)
      requires Valid()
      modifies this, registry, publisher, header
      ensures Valid()
      ensures forall c :: Jwt.Admits(token, cfg, nowSec, parse, mac, c) ==> end.Opened? && claims == Some(c)
      ensures end.Opened? ==>
                && claims.Some? && Jwt.Admits(token, cfg, nowSec, parse, mac, claims.value)
                && conn.Some? && fresh(conn.value)
                && conn.value.userId == claims.value.userId == header.uid != 0
                && conn.value.deviceId == header.did != ""
                && (claims.value.deviceId != "" ==> header.did == claims.value.deviceId)
                && conn.value.loginAt == conn.value.lastActiveTs == nowMs
                && Handles(old(View()), Connect(conn.value, replaced, evicted), limit, View())
                && kicked == old(kicked) + Kicks(replaced, evicted)
                && publisher.View() == if header.uid in old(registry.conns) then old(publisher.View())
                                       else Publisher.Enqueue(publisher.Cfg(), old(publisher.View()), OnlineTask(header.uid))
      ensures SaidWhatWasOffered(old(presence), presence, old(publisher.offered), publisher.offered)
      ensures !end.Opened? ==>
                && View() == old(View()) && kicked == old(kicked) && publisher.View() == old(publisher.View())
                && header.uid == old(header.uid) && header.did == old(header.did)
    {
      claims, conn, replaced, evicted := None, None, None, [];
      if token == "" {
        return Refused, None, None, None, [];
      }
      var verdict := Jwt.Verify(token, cfg, nowSec, parse, mac);
      match verdict {
        case Thrown => end := Raised;
        case Rejected(_) => end := Refused;
        case Accepted(granted) =>
          Jwt.AdmittedUser(token, cfg, nowSec, parse, mac, granted);
          var c;
          c, replaced, evicted := Open(header, granted, hasSession, nowMs, limit, rateLimit);
          end, claims, conn := Opened, Some(granted), Some(c);
      }
    }

    method OnClose(header: Header)
      requires Valid()
      modifies this, registry, publisher
      ensures Valid()
      ensures if header.uid == 0 || header.did == "" then View() == old(View()) && publisher.View() == old(publisher.View())
              else
                && Handles(old(View()), Close(header.uid, header.did), 0, View())
                && publisher.View() == if header.uid in registry.conns then old(publisher.View())
                                       else Publisher.Enqueue(publisher.Cfg(), old(publisher.View()), OfflineTask(header.uid))
      ensures SaidWhatWasOffered(old(presence), presence, old(publisher.offered), publisher.offered)
    {
      if header.uid == 0 || header.did == "" {
        return;
      }
      ghost var before := registry.conns;
      var _ := registry.Remove(header.uid, header.did);
      assert Keyed(Removed(before, header.uid, header.did));
      var online := registry.IsUserOnline(header.uid);
      if !online {
        PublishUserOffline(header.uid);
      }
    }
  }

  // ---------- Presence over whole runs of atomic callbacks ----------

  predicate LatestIsOnline(log: seq<Presence>, u: nat) {
    log != [] &&
    var e := log[|log| - 1];
    if e.userId == u then e.Online? else LatestIsOnline(log[..|log| - 1], u)
  }

  /** Between two Online events of the user there is an Offline event of the user. */
  ghost predicate Alternates(log: seq<Presence>, u: nat) {
    forall i, j | 0 <= i < j < |log| && log[i] == Online(u) && log[j] == Online(u) ::
      exists k | i < k < j :: log[k] == Offline(u)
  }

  ghost predicate Site0(s: Site) {
    s.reg == map[] && s.presence == []
  }

  ghost predicate Run(ss: seq<Site>, cbs: seq<Callback>, limit: nat) {
    && |ss| == |cbs| + 1 && Site0(ss[0])
    && forall i | 0 <= i < |cbs| :: Handles(ss[i], cbs[i], limit, ss[i + 1])
  }

  ghost predicate Faithful(s: Site) {
    forall u: nat :: LatestIsOnline(s.presence, u) <==> u in s.reg
  }

  lemma LatestAfter(log: seq<Presence>, e: Presence)
    ensures forall u: nat :: LatestIsOnline(log + [e], u) <==> if e.userId == u then e.Online? else LatestIsOnline(log, u)
  {
    assert (log + [e])[..|log|] == log;
  }

  lemma {:induction false} OfflineSince(log: seq<Presence>, u: nat, i: nat)
    requires i < |log| && log[i] == Online(u) && !LatestIsOnline(log, u)
    ensures exists k | i < k < |log| :: log[k] == Offline(u)
  {
    var e := log[|log| - 1];
    if e.userId == u {
      assert log[|log| - 1] == Offline(u);
    } else {
      OfflineSince(log[..|log| - 1], u, i);
      var k :| i < k < |log| - 1 && log[..|log| - 1][k] == Offline(u);
      assert log[k] == Offline(u);
    }
  }

  lemma {:induction false} OnlineStands(log: seq<Presence>, u: nat) returns (i: nat)
    requires LatestIsOnline(log, u)
    ensures i < |log| && log[i] == Online(u) && forall k | i < k < |log| :: log[k] != Offline(u)
  {
    if log[|log| - 1].userId == u {
      i := |log| - 1;
    } else {
      i := OnlineStands(log[..|log| - 1], u);
    }
  }

  lemma AlternatesBefore(log: seq<Presence>, e: Presence, u: nat)
    requires Alternates(log + [e], u)
    ensures Alternates(log, u)
  {
    var log' := log + [e];
    forall i, j | 0 <= i < j < |log| && log[i] == Online(u) && log[j] == Online(u)
      ensures exists k | i < k < j :: log[k] == Offline(u)
    {
      assert log'[i] == Online(u) && log'[j] == Online(u);
      var k :| i < k < j && log'[k] == Offline(u);
      assert log[k] == Offline(u);
    }
  }

  lemma OnlineTwice(log: seq<Presence>, u: nat)
    requires LatestIsOnline(log, u)
    ensures !Alternates(log + [Online(u)], u)
  {
    var log' := log + [Online(u)];
    var i := OnlineStands(log, u);
    assert log'[i] == Online(u) && log'[|log|] == Online(u);
    assert forall k | i < k < |log| :: log'[k] == log[k];
  }

  /** One more event keeps a log alternating unless it is an Online while the latest event is Online. */
  lemma AlternatesAfterIff(log: seq<Presence>, e: Presence, u: nat)
    ensures Alternates(log + [e], u) <==> Alternates(log, u) && !(e == Online(u) && LatestIsOnline(log, u))
  {
    if e == Online(u) && LatestIsOnline(log, u) {
      OnlineTwice(log, u);
    } else if Alternates(log, u) {
      AlternatesAfter(log, e, u);
    }
    if Alternates(log + [e], u) {
      AlternatesBefore(log, e, u);
    }
  }

  lemma AlternatesAfter(log: seq<Presence>, e: Presence, u: nat)
    requires Alternates(log, u) && !(e == Online(u) && LatestIsOnline(log, u))
    ensures Alternates(log + [e], u)
  {
    var log' := log + [e];
    forall i, j | 0 <= i < j < |log'| && log'[i] == Online(u) && log'[j] == Online(u)
      ensures exists k | i < k < j :: log'[k] == Offline(u)
    {
      if j < |log| {
        assert log[i] == Online(u) && log[j] == Online(u);
        var k :| i < k < j && log[k] == Offline(u);
        assert log'[k] == log[k];
      } else {
        OfflineSince(log, u, i);
        var k :| i < k < |log| && log[k] == Offline(u);
        assert log'[k] == log[k];
      }
    }
  }

  lemma CallbackKeepsFaithful(s: Site, cb: Callback, limit: nat, s': Site)
    requires Sound(s.reg, limit) && 1 <= limit && Faithful(s) && (forall u: nat :: Alternates(s.presence, u)) && Handles(s, cb, limit, s')
    ensures Sound(s'.reg, limit) && Faithful(s') && forall u: nat :: Alternates(s'.presence, u)
  {
    var e: Presence;
    match cb {
      case Connect(conn, replaced, evicted) =>
        AddKeepsSound(s.reg, conn, limit, s'.reg, replaced, evicted);
        e := Online(conn.userId);
      case Close(u, d) =>
        RemoveKeepsSound(s.reg, u, d, limit);
        e := Offline(u);
    }
    assert s'.presence == s.presence || s'.presence == s.presence + [e];
    LatestAfter(s.presence, e);
    forall u: nat ensures Alternates(s'.presence, u) {
      AlternatesAfterIff(s.presence, e, u);
    }
  }

  /** Presence is faithful over every run of atomic callbacks with a limit of at least one: a user's
      latest event is Online exactly when the user is registered, and Onlines of a user never follow
      each other without an Offline between them. */
  lemma {:induction false} PresenceIsFaithful(ss: seq<Site>, cbs: seq<Callback>, limit: nat, i: nat)
    requires Run(ss, cbs, limit) && 1 <= limit && i < |ss|
    ensures Sound(ss[i].reg, limit)
    ensures forall u: nat :: LatestIsOnline(ss[i].presence, u) <==> u in ss[i].reg
    ensures forall u: nat :: Alternates(ss[i].presence, u)
  {
    if i > 0 {
      PresenceIsFaithful(ss, cbs, limit, i - 1);
      assert Handles(ss[i - 1], cbs[i - 1], limit, ss[i]);
      CallbackKeepsFaithful(ss[i - 1], cbs[i - 1], limit, ss[i]);
    }
  }
}
