/** Keeping sessions alive: the per-frame gate that spends a token and refreshes the activity time, and the
    periodic timer that closes idle sessions and sweeps the pending table. */
module SessionUpkeep {
  import opened Common
  import opened OnlineConnection
  import opened Sessions
  import opened Lifecycle
  import opened PendingSends

  datatype Gate = Pass | Refuse(code: int)

  /** The checks handle makes before it parses a frame. A frame over the limit is refused without
      refreshing the activity time; an admitted one spends a token and refreshes it. A session whose
      connection is no longer registered is neither limited nor refreshed. */
  method AdmitFrame(registry: SessionRegistry, header: Header, isText: bool, now: int, rateLimit: int32) returns (gate: Gate, conn: Option<OnlineConn>)
    requires Keyed(registry.conns)
    modifies registry.Target(header.uid, header.did)
    ensures !isText ==> gate == Refuse(400) && conn.None?
    ensures isText && (header.uid == 0 || header.did == "") ==> gate == Refuse(401) && conn.None?
    ensures isText && header.uid != 0 && header.did != "" ==>
              conn == if header.uid in registry.conns && header.did in registry.conns[header.uid]
                      then Some(registry.conns[header.uid][header.did]) else None
    ensures conn.Some? ==>
              var (bucket, ok) := Consumed(old(conn.value.BucketView()), now, rateLimit as int);
              && conn.value.BucketView() == bucket
              && conn.value.lastActiveTs == (if ok then now else old(conn.value.lastActiveTs))
              && gate == if ok then Pass else Refuse(429)
    ensures isText && header.uid != 0 && header.did != "" && conn.None? ==> gate == Pass
    ensures conn.None? ==> forall c | c in registry.Target(header.uid, header.did) ::
              c.BucketView() == old(c.BucketView()) && c.lastActiveTs == old(c.lastActiveTs)
  {
    if !isText {
      return Refuse(400), None;
    }
    if header.uid == 0 || header.did == "" {
      return Refuse(401), None;
    }
    conn := registry.Get(header.uid, header.did);
    if conn.Some? {
      var ok := conn.value.ConsumeToken(now, rateLimit);
      if !ok {
        return Refuse(429), conn;
      }
    }
    registry.Touch(header.uid, header.did, now);
    return Pass, conn;
  }

  /** One tick of the timer closes exactly the sessions whose connection has been idle for the whole
      timeout, each once, and sweeps the pending table at the same clock reading. */
  method OnTimer(registry: SessionRegistry, pendings: WsToMqDispatcher, now: int, timeoutMs: int, pendingTtlSeconds: int)
    returns (closed: seq<OnlineConn>)
    requires Keyed(registry.conns) && pendings.Valid()
    modifies pendings
    ensures pendings.Valid() && pendings.table == SweptAt(old(pendings.table), now - pendingTtlSeconds * 1000)
    ensures Lists(closed, set c | c in AllConns(registry.conns) && c.lastActiveTs <= now - timeoutMs && c.hasSession)
  {
    var idle := registry.CollectTimeouted(now - timeoutMs);
    closed := [];
    for i := 0 to |idle|
      invariant forall c | c in closed :: c in idle[..i] && c.hasSession
      invariant forall c | c in idle[..i] && c.hasSession :: c in closed
      invariant forall j, k | 0 <= j < k < |closed| :: closed[j] != closed[k]
    {
      assert idle[..i + 1] == idle[..i] + [idle[i]];
      if idle[i].hasSession {
        assert idle[i] !in idle[..i];
        closed := closed + [idle[i]];
      }
    }
    assert idle[..|idle|] == idle;
    pendings.SweepPending(now, pendingTtlSeconds);
  }
}
