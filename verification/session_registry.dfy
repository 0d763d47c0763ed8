/** The two-level table user -> device -> connection. Hash-map iteration order is arbitrary throughout,
    so eviction is specified as a relation. */
module Sessions {
  import opened Common
  import opened OnlineConnection

  type Devices = map<string, OnlineConn>
  type Registry = map<nat, Devices>

  function DevicesOf(r: Registry, u: nat): Devices {
    if u in r then r[u] else map[]
  }

  // ---------- Invariants ----------

  ghost predicate OwnKeys(ds: Devices, u: nat) {
    forall d | d in ds :: ds[d].userId == u && ds[d].deviceId == d
  }

  /** Every connection sits under its own user and device id. */
  ghost predicate Keyed(r: Registry) {
    forall u | u in r :: OwnKeys(r[u], u)
  }

  ghost predicate NoEmptyUser(r: Registry) {
    forall u | u in r :: r[u] != map[]
  }

  ghost predicate Limited(r: Registry, limit: nat) {
    forall u | u in r :: |r[u]| <= limit
  }

  ghost predicate Registered(r: Registry, c: OnlineConn) {
    c.userId in r && c.deviceId in r[c.userId] && r[c.userId][c.deviceId] == c
  }

  // ---------- Operations as relations on the table ----------

  /** Eviction down to the limit: the evicted connections are the rest of the table, each once, no
      evicted one logged in after a kept one, and they leave in login order. */
  ghost predicate Evicts(ds: Devices, limit: nat, kept: Devices, evicted: seq<OnlineConn>) {
    && (forall d | d in kept :: d in ds && ds[d] == kept[d])
    && |kept| == Min(|ds|, limit)
    && |kept| + |evicted| == |ds|
    && (forall c | c in evicted :: c.deviceId in ds && ds[c.deviceId] == c && c.deviceId !in kept)
    && (forall d | d in ds && d !in kept :: ds[d] in evicted)
    && (forall i, j | 0 <= i < j < |evicted| :: evicted[i] != evicted[j] && evicted[i].loginAt <= evicted[j].loginAt)
    && (forall c, d | c in evicted && d in kept :: c.loginAt <= kept[d].loginAt)
  }

  ghost predicate Added(r: Registry, conn: OnlineConn, limit: nat,
                        r': Registry, replaced: Option<OnlineConn>, evicted: seq<OnlineConn>) {
    var before := DevicesOf(r, conn.userId);
    && replaced == (if conn.deviceId in before then Some(before[conn.deviceId]) else None)
    && conn.userId in r' && r' == r[conn.userId := r'[conn.userId]]
    && Evicts(before[conn.deviceId := conn], limit, r'[conn.userId], evicted)
  }

  function Removed(r: Registry, u: nat, d: string): Registry {
    if u !in r then r
    else if r[u] - {d} == map[] then r - {u}
    else r[u := r[u] - {d}]
  }

  /** The list holds each value of the table exactly once. */
  ghost predicate Lists(out: seq<OnlineConn>, conns: set<OnlineConn>) {
    && (forall c | c in out :: c in conns)
    && (forall c | c in conns :: c in out)
    && (forall i, j | 0 <= i < j < |out| :: out[i] != out[j])
  }

  function Pairs(r: Registry): set<(nat, string)> {
    set u, d | u in r && d in r[u] :: (u, d)
  }

  function AllConns(r: Registry): set<OnlineConn> {
    set u, d | u in r && d in r[u] :: r[u][d]
  }

  lemma AllConnsIff(r: Registry, c: OnlineConn)
    requires Keyed(r)
    ensures c in AllConns(r) <==> c.userId in r && c.deviceId in r[c.userId] && r[c.userId][c.deviceId] == c
  {
    if c in AllConns(r) {
      var u, d :| u in r && d in r[u] && r[u][d] == c;
    }
  }

  // ---------- The registry object ----------

  /** The first scan of the eviction loop: some connection with the least login time. */
  method Oldest(ds: Devices) returns (oldest: string)
    requires ds != map[]
    ensures oldest in ds && forall d | d in ds :: ds[oldest].loginAt <= ds[d].loginAt
  {
    oldest :| oldest in ds;
    var todo := ds.Keys;
    while todo != {}
      invariant todo <= ds.Keys && oldest in ds
      invariant forall d | d in ds && d !in todo :: ds[oldest].loginAt <= ds[d].loginAt
      decreases todo
    {
      var d :| d in todo;
      if ds[d].loginAt < ds[oldest].loginAt {
        oldest := d;
      }
      todo := todo - {d};
    }
  }

  lemma EraseShrinks<K, V>(m: map<K, V>, k: K)
    requires k in m
    ensures |m - {k}| == |m| - 1
  {
    assert m == (m - {k})[k := m[k]];
  }

  /** Moving one more oldest connection from the kept side to the evicted side. */
  lemma EvictOne(ds: Devices, u: nat, n: nat, kept: Devices, evicted: seq<OnlineConn>, oldest: string)
    requires OwnKeys(ds, u) && Evicts(ds, n, kept, evicted) && |kept| == n && 0 < n
    requires oldest in kept && forall d | d in kept :: kept[oldest].loginAt <= kept[d].loginAt
    ensures Evicts(ds, n - 1, kept - {oldest}, evicted + [kept[oldest]])
  {
    EraseShrinks(kept, oldest);
    var c, ev' := kept[oldest], evicted + [kept[oldest]];
    assert c !in evicted;
    assert ev'[|evicted|] == c;
    forall d | d in ds && d !in kept - {oldest} ensures ds[d] in ev' {
    }
  }

  /** The eviction loop. */
  method EvictDown(ds: Devices, u: nat, limit: nat) returns (kept: Devices, evicted: seq<OnlineConn>)
    requires OwnKeys(ds, u)
    ensures Evicts(ds, limit, kept, evicted)
  {
    kept, evicted := ds, [];
    while |kept| > limit && kept != map[]
      invariant OwnKeys(kept, u) && Evicts(ds, |kept|, kept, evicted)
      invariant |kept| >= Min(|ds|, limit)
      decreases |kept|
    {
      var oldest := Oldest(kept);
      EvictOne(ds, u, |kept|, kept, evicted, oldest);
      EraseShrinks(kept, oldest);
      evicted := evicted + [kept[oldest]];
      kept := kept - {oldest};
    }
  }

  lemma AddedKeepsKeyed(r: Registry, conn: OnlineConn, limit: nat, r': Registry, replaced: Option<OnlineConn>, evicted: seq<OnlineConn>)
    requires Keyed(r) && Added(r, conn, limit, r', replaced, evicted)
    ensures Keyed(r')
  {
    var ds := DevicesOf(r, conn.userId)[conn.deviceId := conn];
    assert OwnKeys(ds, conn.userId);
    assert OwnKeys(r'[conn.userId], conn.userId);
  }

  class SessionRegistry {
    var conns: Registry

    constructor ()
      ensures conns == map[]
    {
      conns := map[];
    }

    method Add(conn: OnlineConn, maxDevices: nat) returns (replaced: Option<OnlineConn>, evicted: seq<OnlineConn>)
      requires Keyed(conns)
      modifies this
      ensures Keyed(conns)
      ensures Added(old(conns), conn, maxDevices, conns, replaced, evicted)
    {
      var byDevice: Devices := DevicesOf(conns, conn.userId);
      replaced := None;
      if conn.deviceId in byDevice {
        replaced := Some(byDevice[conn.deviceId]);
        byDevice := byDevice - {conn.deviceId};
      }
      byDevice := byDevice[conn.deviceId := conn];
      assert byDevice == DevicesOf(conns, conn.userId)[conn.deviceId := conn];
      byDevice, evicted := EvictDown(byDevice, conn.userId, maxDevices);
      ghost var before := conns;
      conns := conns[conn.userId := byDevice];
      AddedKeepsKeyed(before, conn, maxDevices, conns, replaced, evicted);
    }

    /** Removal goes by key only: it does not ask which connection is closing. */
    method Remove(userId: nat, deviceId: string) returns (found: bool)
      modifies this
      ensures conns == Removed(old(conns), userId, deviceId)
      ensures found <==> userId in old(conns)
    {
      if userId !in conns {
        return false;
      }
      conns := conns[userId := conns[userId] - {deviceId}];
      if conns[userId] == map[] {
        conns := conns - {userId};
      }
      return true;
    }

    method Get(userId: nat, deviceId: string) returns (conn: Option<OnlineConn>)
      requires Keyed(conns)
      ensures conn.Some? <==> userId in conns && deviceId in conns[userId]
      ensures conn.Some? ==> Registered(conns, conn.value) && conn.value.userId == userId && conn.value.deviceId == deviceId
    {
      if userId !in conns {
        return None;
      }
      if deviceId !in conns[userId] {
        return None;
      }
      return Some(conns[userId][deviceId]);
    }

    method GetByUser(userId: nat) returns (out: seq<OnlineConn>)
      requires Keyed(conns)
      ensures Lists(out, DevicesOf(conns, userId).Values)
    {
      out := [];
      if userId !in conns {
        return;
      }
      var todo := conns[userId].Keys;
      while todo != {}
        invariant todo <= conns[userId].Keys
        invariant forall d | d in conns[userId] && d !in todo :: conns[userId][d] in out
        invariant forall c | c in out :: Registered(conns, c) && c.userId == userId && c.deviceId !in todo
        invariant forall i, j | 0 <= i < j < |out| :: out[i] != out[j]
        decreases todo
      {
        var d :| d in todo;
        out := out + [conns[userId][d]];
        todo := todo - {d};
      }
    }

    method IsUserOnline(userId: nat) returns (online: bool)
      ensures online <==> userId in conns
    {
      return userId in conns;
    }

    ghost function Target(userId: nat, deviceId: string): set<OnlineConn>
      reads this
    {
      if userId in conns && deviceId in conns[userId] then {conns[userId][deviceId]} else {}
    }

    method Touch(userId: nat, deviceId: string, now: int)
      modifies Target(userId, deviceId)`lastActiveTs
      ensures userId in conns && deviceId in conns[userId] ==> conns[userId][deviceId].lastActiveTs == now
    {
      if userId !in conns {
        return;
      }
      if deviceId !in conns[userId] {
        return;
      }
      conns[userId][deviceId].lastActiveTs := now;
    }

    /** The connections to time out: each registered connection idle since the deadline, once. */
    method CollectTimeouted(deadline: int) returns (out: seq<OnlineConn>)
      requires Keyed(conns)
      ensures Lists(out, set c | c in AllConns(conns) && c.lastActiveTs <= deadline)
    {
      out := [];
      var users := conns.Keys;
      while users != {}
        invariant users <= conns.Keys
        invariant forall c | c in out :: Registered(conns, c) && c.userId !in users && c.lastActiveTs <= deadline
        invariant forall u, d | u in conns && u !in users && d in conns[u] && conns[u][d].lastActiveTs <= deadline :: conns[u][d] in out
        invariant forall i, j | 0 <= i < j < |out| :: out[i] != out[j]
        decreases users
      {
        var u :| u in users;
        var todo := conns[u].Keys;
        ghost var collected := out;
        while todo != {}
          invariant todo <= conns[u].Keys && collected <= out
          invariant forall c | c in out :: Registered(conns, c) && c.lastActiveTs <= deadline
          invariant forall c | c in out :: c.userId !in users || (c.userId == u && c.deviceId !in todo)
          invariant forall c | c in collected :: c in out
          invariant forall d | d in conns[u] && d !in todo && conns[u][d].lastActiveTs <= deadline :: conns[u][d] in out
          invariant forall i, j | 0 <= i < j < |out| :: out[i] != out[j]
          decreases todo
        {
          var d :| d in todo;
          if conns[u][d].lastActiveTs <= deadline {
            out := out + [conns[u][d]];
          }
          todo := todo - {d};
        }
        users := users - {u};
      }
      forall c | c in AllConns(conns) && c.lastActiveTs <= deadline ensures c in out {
        var u, d :| u in conns && d in conns[u] && conns[u][d] == c;
      }
    }

    method OnlineUsers() returns (n: nat)
      ensures n == |conns|
    {
      return |conns|;
    }

    /** The summing loop counts exactly the registered (user, device) pairs. */
    method OnlineConnections() returns (total: nat)
      ensures total == |Pairs(conns)|
    {
      total := 0;
      var todo := conns.Keys;
      assert conns - todo == map[];
      while todo != {}
        invariant todo <= conns.Keys
        invariant total == |Pairs(conns - todo)|
        decreases todo
      {
        var u :| u in todo;
        SplitUser(conns - (todo - {u}), u);
        assert conns - (todo - {u}) - {u} == conns - todo;
        total := total + |conns[u]|;
        todo := todo - {u};
      }
      assert conns - {} == conns;
    }
  }

  // ---------- Counting ----------

  lemma {:induction false} OneUser(u: nat, ds: Devices)
    ensures |Pairs(map[u := ds])| == |ds|
    decreases |ds|
  {
    var r := map[u := ds];
    if ds == map[] {
      assert Pairs(r) == {};
    } else {
      var d :| d in ds;
      EraseShrinks(ds, d);
      OneUser(u, ds - {d});
      assert Pairs(r) == Pairs(map[u := ds - {d}]) + {(u, d)};
    }
  }

  lemma SplitUser(r: Registry, u: nat)
    requires u in r
    ensures |Pairs(r)| == |Pairs(r - {u})| + |r[u]|
  {
    OneUser(u, r[u]);
    var rest, one := Pairs(r - {u}), Pairs(map[u := r[u]]);
    forall x | x in Pairs(r) ensures x in rest + one {
      if x.0 == u {
        assert x in one;
      } else {
        assert x in rest;
      }
    }
    assert Pairs(r) == rest + one;
    assert forall x | x in rest :: x.0 != u;
  }

  /** Users online, connections online and the device limit. */
  lemma {:induction false} CountsBounded(r: Registry, limit: nat)
    requires NoEmptyUser(r) && Limited(r, limit)
    ensures |r| <= |Pairs(r)| <= limit * |r|
    decreases |r|
  {
    if r == map[] {
      assert Pairs(r) == {};
    } else {
      var u :| u in r;
      var rest := r - {u};
      EraseShrinks(r, u);
      CountsBounded(rest, limit);
      SplitUser(r, u);
      OneMoreLimit(limit, |rest|);
    }
  }

  lemma OneMoreLimit(limit: nat, users: nat)
    ensures limit * (users + 1) == limit * users + limit
  {
  }

  // ---------- What Add guarantees ----------

  lemma EvictsPartitions(ds: Devices, u: nat, limit: nat, kept: Devices, evicted: seq<OnlineConn>)
    requires OwnKeys(ds, u) && Evicts(ds, limit, kept, evicted)
    ensures ds.Values == kept.Values + set c | c in evicted
    ensures kept.Values !! set c | c in evicted
  {
    forall c | c in ds.Values ensures c in kept.Values || c in evicted {
      var d :| d in ds && ds[d] == c;
      if d in kept {
        assert kept[d] == c;
      }
    }
    forall c | c in kept.Values ensures c in ds.Values && c !in evicted {
      var d :| d in kept && kept[d] == c;
      assert ds[d] == c;
    }
  }

  /** Old connections plus the new one are, disjointly, those kept, those evicted and the one replaced. */
  lemma AddConserves(r: Registry, conn: OnlineConn, limit: nat, r': Registry, replaced: Option<OnlineConn>, evicted: seq<OnlineConn>)
    requires Keyed(r) && Added(r, conn, limit, r', replaced, evicted)
    requires conn !in DevicesOf(r, conn.userId).Values
    ensures var kept, out := r'[conn.userId].Values, set c | c in evicted;
            var gone := if replaced.Some? then {replaced.value} else {};
            && DevicesOf(r, conn.userId).Values + {conn} == kept + out + gone
            && kept !! out !! gone
            && (forall i, j | 0 <= i < j < |evicted| :: evicted[i] != evicted[j])
            && (forall c, k | c in out && k in kept :: c.loginAt <= k.loginAt)
  {
    var before := DevicesOf(r, conn.userId);
    var ds := before[conn.deviceId := conn];
    EvictsPartitions(ds, conn.userId, limit, r'[conn.userId], evicted);
    UpdateValues(before, conn);
  }

  lemma UpdateValues(before: Devices, conn: OnlineConn)
    requires OwnKeys(before, conn.userId) && conn !in before.Values
    ensures var gone := if conn.deviceId in before then {before[conn.deviceId]} else {};
            && before[conn.deviceId := conn].Values + gone == before.Values + {conn}
            && before[conn.deviceId := conn].Values !! gone
  {
    var ds := before[conn.deviceId := conn];
    forall c | c in before.Values ensures c in ds.Values || (conn.deviceId in before && c == before[conn.deviceId]) {
      var d :| d in before && before[d] == c;
      assert d in ds;
    }
    forall c | c in ds.Values ensures c in before.Values || c == conn {
      var d :| d in ds && ds[d] == c;
    }
    assert conn.deviceId in ds && ds[conn.deviceId] == conn;
  }

  /** With a table within a constant limit of at least one, an Add evicts at most one connection, and
      none when it replaces one. */
  lemma AtMostOneEvicted(r: Registry, conn: OnlineConn, limit: nat, r': Registry, replaced: Option<OnlineConn>, evicted: seq<OnlineConn>)
    requires 1 <= limit && Limited(r, limit) && Added(r, conn, limit, r', replaced, evicted)
    ensures |evicted| <= 1 && (replaced.Some? ==> evicted == [])
  {
    var before := DevicesOf(r, conn.userId);
    if conn.deviceId in before {
      assert before[conn.deviceId := conn].Keys == before.Keys;
      assert |before[conn.deviceId := conn].Keys| == |before.Keys|;
    }
  }

  /** Of two connections either kept or among at most one evicted, the older is not kept instead. */
  lemma OneOut(evicted: seq<OnlineConn>, older: OnlineConn, newer: OnlineConn, olderKept: bool, newerKept: bool)
    requires |evicted| <= 1 && older.loginAt < newer.loginAt
    requires olderKept || older in evicted
    requires newerKept || newer in evicted
    requires olderKept ==> forall c | c in evicted :: c.loginAt <= older.loginAt
    ensures newerKept
  {
  }

  /** With at most one eviction, a device that is not the oldest is kept. */
  lemma OlderGoesFirst(ds: Devices, limit: nat, kept: Devices, evicted: seq<OnlineConn>, x: string, d: string)
    requires Evicts(ds, limit, kept, evicted) && |evicted| <= 1
    requires x in ds && d in ds && ds[x].loginAt < ds[d].loginAt
    ensures d in kept
  {
    OneOut(evicted, ds[x], ds[d], x in kept, d in kept);
  }

  /** In a full table, any oldest device may be the one evicted, the newcomer included. */
  lemma OldestMayGo(r: Registry, conn: OnlineConn, limit: nat, c: OnlineConn)
    requires Keyed(r) && conn.userId in r && conn.deviceId !in r[conn.userId] && |r[conn.userId]| == limit
    requires var ds := r[conn.userId][conn.deviceId := conn];
             c.deviceId in ds && ds[c.deviceId] == c && forall d | d in ds :: c.loginAt <= ds[d].loginAt
    ensures Added(r, conn, limit, r[conn.userId := r[conn.userId][conn.deviceId := conn] - {c.deviceId}], None, [c])
  {
    var ds := r[conn.userId][conn.deviceId := conn];
    EraseShrinks(ds, c.deviceId);
    assert |ds| == limit + 1;
    assert Evicts(ds, limit, ds - {c.deviceId}, [c]);
  }

  /** An entry of c's user, or c's own, that replaces another device, finds room, or finds or brings an earlier
      login leaves c registered. */
  lemma EntryKeepsYounger(r: Registry, conn: OnlineConn, limit: nat, r': Registry, replaced: Option<OnlineConn>, evicted: seq<OnlineConn>, c: OnlineConn)
    requires Keyed(r) && Limited(r, limit) && 1 <= limit && Added(r, conn, limit, r', replaced, evicted)
    requires conn == c || (Registered(r, c) && conn.userId == c.userId && conn.deviceId != c.deviceId)
    requires var before := DevicesOf(r, c.userId);
             conn.deviceId in before || |before| < limit || conn.loginAt < c.loginAt || exists d | d in before :: before[d].loginAt < c.loginAt
    ensures Registered(r', c)
  {
    AtMostOneEvicted(r, conn, limit, r', replaced, evicted);
    var before := DevicesOf(r, c.userId);
    var ds, kept := before[conn.deviceId := conn], r'[conn.userId];
    assert ds[c.deviceId] == c;
    if conn.deviceId in before || |before| < limit {
      assert evicted == [];
      assert c.deviceId in kept;
    } else if conn.loginAt < c.loginAt {
      OlderGoesFirst(ds, limit, kept, evicted, conn.deviceId, c.deviceId);
    } else {
      var d :| d in before && before[d].loginAt < c.loginAt;
      OlderGoesFirst(ds, limit, kept, evicted, d, c.deviceId);
    }
  }

  /** Add does not promise that the new connection stays. It stays, whatever the iteration order, exactly
      when it replaces one, finds room, or some registered device of the user logged in strictly earlier;
      otherwise there is an iteration order in which the new connection is the one evicted. */
  lemma NewConnectionStays(r: Registry, conn: OnlineConn, limit: nat, r': Registry, replaced: Option<OnlineConn>, evicted: seq<OnlineConn>)
    requires Keyed(r) && 1 <= limit && Limited(r, limit) && Added(r, conn, limit, r', replaced, evicted)
    ensures var before := DevicesOf(r, conn.userId);
            if conn.deviceId in before || |before| < limit || (exists d | d in before :: before[d].loginAt < conn.loginAt)
            then Registered(r', conn)
            else Added(r, conn, limit, r, None, [conn]) && !Registered(r, conn)
  {
    var before := DevicesOf(r, conn.userId);
    if conn.deviceId in before || |before| < limit || exists d | d in before :: before[d].loginAt < conn.loginAt {
      EntryKeepsYounger(r, conn, limit, r', replaced, evicted, conn);
    } else {
      OldestMayGo(r, conn, limit, conn);
      assert before[conn.deviceId := conn] - {conn.deviceId} == before;
      assert r[conn.userId := before] == r;
    }
  }

  // ---------- Invariants over whole runs ----------

  datatype Op = AddOp(conn: OnlineConn, replaced: Option<OnlineConn>, evicted: seq<OnlineConn>) | RemoveOp(userId: nat, deviceId: string)

  ghost predicate Applies(r: Registry, op: Op, limit: nat, r': Registry) {
    match op
    case AddOp(conn, replaced, evicted) => Added(r, conn, limit, r', replaced, evicted)
    case RemoveOp(u, d) => r' == Removed(r, u, d)
  }

  ghost predicate Sound(r: Registry, limit: nat) {
    Keyed(r) && NoEmptyUser(r) && Limited(r, limit)
  }

  lemma AddKeepsSound(r: Registry, conn: OnlineConn, limit: nat, r': Registry, replaced: Option<OnlineConn>, evicted: seq<OnlineConn>)
    requires Sound(r, limit) && 1 <= limit && Added(r, conn, limit, r', replaced, evicted)
    ensures Sound(r', limit)
  {
    AddedKeepsKeyed(r, conn, limit, r', replaced, evicted);
    var ds := DevicesOf(r, conn.userId)[conn.deviceId := conn];
    assert conn.deviceId in ds;
    assert |r'[conn.userId]| == Min(|ds|, limit) >= 1;
  }

  lemma RemoveKeepsSound(r: Registry, u: nat, d: string, limit: nat)
    requires Sound(r, limit)
    ensures Sound(Removed(r, u, d), limit)
  {
    if u in r && d in r[u] {
      EraseShrinks(r[u], d);
    } else if u in r {
      assert r[u] - {d} == r[u];
    }
  }

  lemma StepKeepsSound(r: Registry, op: Op, limit: nat, r': Registry)
    requires Sound(r, limit) && 1 <= limit && Applies(r, op, limit, r')
    ensures Sound(r', limit)
  {
    match op
    case AddOp(conn, replaced, evicted) => AddKeepsSound(r, conn, limit, r', replaced, evicted);
    case RemoveOp(u, d) => RemoveKeepsSound(r, u, d, limit);
  }

  ghost predicate History(rs: seq<Registry>, ops: seq<Op>, limit: nat) {
    && |rs| == |ops| + 1 && rs[0] == map[]
    && forall i | 0 <= i < |ops| :: Applies(rs[i], ops[i], limit, rs[i + 1])
  }

  /** After any Adds and Removes with a limit of at least one: no user without devices, every connection
      under its own keys, and the counts are bounded by each other and by the limit. */
  lemma {:induction false} AlwaysSound(rs: seq<Registry>, ops: seq<Op>, limit: nat, i: nat)
    requires History(rs, ops, limit) && 1 <= limit && i < |rs|
    ensures Sound(rs[i], limit)
    ensures |rs[i]| <= |Pairs(rs[i])| <= limit * |rs[i]|
  {
    if i > 0 {
      AlwaysSound(rs, ops, limit, i - 1);
      StepKeepsSound(rs[i - 1], ops[i - 1], limit, rs[i]);
    }
    CountsBounded(rs[i], limit);
  }
}
