/** Session lifecycle with every lock-protected registry call, and every publish, as a step of its own,
    interleaved arbitrarily between sessions. */
module Interleaving {
  import opened Common
  import opened OnlineConnection
  import opened Sessions
  import opened Lifecycle

  /** Where a session is: in onConnect (checked, added), open, or in onClose (removed, rechecked) or done. */
  datatype Phase = Checked(first: bool) | Entered(first: bool) | Open | Left | Rechecked(gone: bool) | Done

  datatype Session = Session(conn: OnlineConn, phase: Phase)

  datatype World = World(reg: Registry, sessions: map<nat, Session>, presence: seq<Presence>)

  datatype Move =
    | Check(sid: nat, conn: OnlineConn)
    | Enter(sid: nat, replaced: Option<OnlineConn>, evicted: seq<OnlineConn>)
    | AnnounceOnline(sid: nat)
    | Leave(sid: nat)
    | Recheck(sid: nat)
    | AnnounceOffline(sid: nat)

  function At(w: World, sid: nat, phase: Phase): World
    requires sid in w.sessions
  {
    w.(sessions := w.sessions[sid := w.sessions[sid].(phase := phase)])
  }

  /** The step relation. A session checks with a connection object that is new: no other session holds
      it and it is not registered. */
  ghost predicate Moves(w: World, m: Move, limit: nat, w': World) {
    if m.Check? then
      && m.sid !in w.sessions
      && (forall t | t in w.sessions :: w.sessions[t].conn != m.conn) && !Registered(w.reg, m.conn)
      && w' == w.(sessions := w.sessions[m.sid := Session(m.conn, Checked(m.conn.userId !in w.reg))])
    else
      && m.sid in w.sessions
      && var c, phase := w.sessions[m.sid].conn, w.sessions[m.sid].phase;
         match m
         case Enter(sid, replaced, evicted) =>
           && phase.Checked? && Added(w.reg, c, limit, w'.reg, replaced, evicted)
           && w' == At(w, sid, Entered(phase.first)).(reg := w'.reg)
         case AnnounceOnline(sid) =>
           && phase.Entered?
           && w' == At(w, sid, Open).(presence := w.presence + if phase.first then [Online(c.userId)] else [])
         case Leave(sid) =>
           && phase.Open? && w' == At(w, sid, Left).(reg := Removed(w.reg, c.userId, c.deviceId))
         case Recheck(sid) =>
           && phase.Left? && w' == At(w, sid, Rechecked(c.userId !in w.reg))
         case AnnounceOffline(sid) =>
           && phase.Rechecked?
           && w' == At(w, sid, Done).(presence := w.presence + if phase.gone then [Offline(c.userId)] else [])
  }

  ghost predicate Run(ws: seq<World>, ms: seq<Move>, limit: nat) {
    && |ws| == |ms| + 1 && ws[0] == World(map[], map[], [])
    && forall i | 0 <= i < |ms| :: Moves(ws[i], ms[i], limit, ws[i + 1])
  }

  // ---------- No ghost connections ----------

  /** The session's onClose has performed its Remove. */
  predicate HasLeft(p: Phase) {
    p.Left? || p.Rechecked? || p.Done?
  }

  ghost predicate Safe(w: World) {
    && Keyed(w.reg)
    && (forall s, t | s in w.sessions && t in w.sessions && s != t :: w.sessions[s].conn != w.sessions[t].conn)
    && (forall s | s in w.sessions && (w.sessions[s].phase.Checked? || HasLeft(w.sessions[s].phase)) ::
          !Registered(w.reg, w.sessions[s].conn))
  }

  lemma AddRegistersOnly(r: Registry, conn: OnlineConn, limit: nat, r': Registry, replaced: Option<OnlineConn>, evicted: seq<OnlineConn>, c: OnlineConn)
    requires Added(r, conn, limit, r', replaced, evicted) && Registered(r', c)
    ensures c == conn || Registered(r, c)
  {
  }

  /** A close unregisters exactly the connection that holds its key, whichever session that belongs to. */
  lemma RemoveUnregistersKey(r: Registry, u: nat, d: string, c: OnlineConn)
    ensures Registered(Removed(r, u, d), c) <==> Registered(r, c) && !(c.userId == u && c.deviceId == d)
  {
    if Registered(r, c) && c.userId == u && c.deviceId != d {
      assert c.deviceId in r[u] - {d};
    }
  }

  lemma EnterKeepsSafe(w: World, m: Move, limit: nat, w': World)
    requires Safe(w) && m.Enter? && Moves(w, m, limit, w')
    ensures Safe(w')
  {
    var conn := w.sessions[m.sid].conn;
    AddedKeepsKeyed(w.reg, conn, limit, w'.reg, m.replaced, m.evicted);
    forall s | s in w'.sessions && (w'.sessions[s].phase.Checked? || HasLeft(w'.sessions[s].phase))
      ensures !Registered(w'.reg, w'.sessions[s].conn)
    {
      assert w'.sessions[s] == w.sessions[s];
      if Registered(w'.reg, w'.sessions[s].conn) {
        AddRegistersOnly(w.reg, conn, limit, w'.reg, m.replaced, m.evicted, w'.sessions[s].conn);
      }
    }
  }

  lemma LeaveKeepsSafe(w: World, m: Move, limit: nat, w': World)
    requires Safe(w) && m.Leave? && Moves(w, m, limit, w')
    ensures Safe(w')
  {
    var conn := w.sessions[m.sid].conn;
    forall s | s in w'.sessions && (w'.sessions[s].phase.Checked? || HasLeft(w'.sessions[s].phase))
      ensures !Registered(w'.reg, w'.sessions[s].conn)
    {
      RemoveUnregistersKey(w.reg, conn.userId, conn.deviceId, w'.sessions[s].conn);
      if s != m.sid {
        assert w'.sessions[s] == w.sessions[s];
      }
    }
  }

  lemma MoveKeepsSafe(w: World, m: Move, limit: nat, w': World)
    requires Safe(w) && Moves(w, m, limit, w')
    ensures Safe(w')
  {
    match m
    case Enter(_, _, _) => EnterKeepsSafe(w, m, limit, w');
    case Leave(_) => LeaveKeepsSafe(w, m, limit, w');
    case _ =>
  }

  lemma {:induction false} AlwaysSafe(ws: seq<World>, ms: seq<Move>, limit: nat, i: nat)
    requires Run(ws, ms, limit) && i < |ws|
    ensures Safe(ws[i])
  {
    if i > 0 {
      AlwaysSafe(ws, ms, limit, i - 1);
      MoveKeepsSafe(ws[i - 1], ms[i - 1], limit, ws[i]);
    }
  }

  lemma MoveKeepsLeft(w: World, m: Move, limit: nat, w': World, sid: nat)
    requires Moves(w, m, limit, w') && sid in w.sessions && HasLeft(w.sessions[sid].phase)
    ensures sid in w'.sessions && HasLeft(w'.sessions[sid].phase) && w'.sessions[sid].conn == w.sessions[sid].conn
  {
  }

  lemma {:induction false} StaysLeft(ws: seq<World>, ms: seq<Move>, limit: nat, sid: nat, i: nat, j: nat)
    requires Run(ws, ms, limit) && i <= j < |ws|
    requires sid in ws[i].sessions && HasLeft(ws[i].sessions[sid].phase)
    ensures sid in ws[j].sessions && HasLeft(ws[j].sessions[sid].phase) && ws[j].sessions[sid].conn == ws[i].sessions[sid].conn
  {
    if i < j {
      StaysLeft(ws, ms, limit, sid, i, j - 1);
      MoveKeepsLeft(ws[j - 1], ms[j - 1], limit, ws[j], sid);
    }
  }

  /** Once a session's onClose has performed its Remove, its connection is never in the registry again,
      through any replacements, evictions and other sessions' closes. */
  lemma NoGhostConnections(ws: seq<World>, ms: seq<Move>, limit: nat, sid: nat, i: nat, j: nat)
    requires Run(ws, ms, limit) && i <= j < |ws|
    requires sid in ws[i].sessions && HasLeft(ws[i].sessions[sid].phase)
    ensures ws[i].sessions[sid].conn !in AllConns(ws[j].reg)
  {
    StaysLeft(ws, ms, limit, sid, i, j);
    AlwaysSafe(ws, ms, limit, j);
  }

  // ---------- How long a session stays registered ----------

  predicate SameKey(c: OnlineConn, d: OnlineConn) {
    c.userId == d.userId && c.deviceId == d.deviceId
  }

  /** The step takes c out of the registry: a close or an entry under its key, or its eviction by an entry. */
  ghost predicate Displaces(w: World, m: Move, c: OnlineConn) {
    && m.sid in w.sessions
    && (m.Leave? || m.Enter?)
    && (SameKey(w.sessions[m.sid].conn, c) || (m.Enter? && c in m.evicted))
  }

  lemma EnterKeeps(r: Registry, conn: OnlineConn, limit: nat, r': Registry, replaced: Option<OnlineConn>, evicted: seq<OnlineConn>, c: OnlineConn)
    requires Keyed(r) && Added(r, conn, limit, r', replaced, evicted) && Registered(r, c) && c != conn
    ensures Registered(r', c) <==> !SameKey(conn, c) && c !in evicted
  {
    var ds := DevicesOf(r, conn.userId)[conn.deviceId := conn];
    assert c in evicted ==> c.deviceId in ds && ds[c.deviceId] == c;
    if c.userId == conn.userId && c.deviceId != conn.deviceId {
      assert ds[c.deviceId] == c;
      assert c.deviceId in r'[conn.userId] <==> c !in evicted;
    }
  }

  /** From its entry on, a step leaves a session's connection registered exactly if it was and the step does
      not displace it. */
  lemma StepKeepsRegistered(w: World, m: Move, limit: nat, w': World, sid: nat)
    requires Safe(w) && Moves(w, m, limit, w')
    requires sid in w.sessions && !w.sessions[sid].phase.Checked?
    ensures sid in w'.sessions && !w'.sessions[sid].phase.Checked? && w'.sessions[sid].conn == w.sessions[sid].conn
    ensures var c := w.sessions[sid].conn; Registered(w'.reg, c) <==> Registered(w.reg, c) && !Displaces(w, m, c)
  {
    var c := w.sessions[sid].conn;
    if m.Leave? {
      RemoveUnregistersKey(w.reg, w.sessions[m.sid].conn.userId, w.sessions[m.sid].conn.deviceId, c);
    } else if m.Enter? {
      var conn := w.sessions[m.sid].conn;
      if Registered(w.reg, c) {
        EnterKeeps(w.reg, conn, limit, w'.reg, m.replaced, m.evicted, c);
      } else if Registered(w'.reg, c) {
        AddRegistersOnly(w.reg, conn, limit, w'.reg, m.replaced, m.evicted, c);
      }
    }
  }

  lemma OwnEntry(w: World, m: Move, limit: nat, w': World)
    requires m.Enter? && Moves(w, m, limit, w')
    ensures Registered(w'.reg, w.sessions[m.sid].conn) <==> w.sessions[m.sid].conn !in m.evicted
  {
    var c := w.sessions[m.sid].conn;
    assert DevicesOf(w.reg, c.userId)[c.deviceId := c][c.deviceId] == c;
  }

  lemma RunKeepsRegistered(ws: seq<World>, ms: seq<Move>, limit: nat, sid: nat, j: nat)
    requires Run(ws, ms, limit) && 0 < j < |ws|
    requires sid in ws[j - 1].sessions && !ws[j - 1].sessions[sid].phase.Checked?
    ensures sid in ws[j].sessions && !ws[j].sessions[sid].phase.Checked? && ws[j].sessions[sid].conn == ws[j - 1].sessions[sid].conn
    ensures var c := ws[j - 1].sessions[sid].conn;
            Registered(ws[j].reg, c) <==> Registered(ws[j - 1].reg, c) && !Displaces(ws[j - 1], ms[j - 1], c)
  {
    AlwaysSafe(ws, ms, limit, j - 1);
    assert Moves(ws[j - 1], ms[j - 1], limit, ws[j]);
    StepKeepsRegistered(ws[j - 1], ms[j - 1], limit, ws[j], sid);
  }

  /** No step strictly between e and j displaces c. */
  ghost predicate Undisplaced(ws: seq<World>, ms: seq<Move>, c: OnlineConn, e: nat, j: nat)
    requires e < j < |ws| && |ws| == |ms| + 1
  {
    forall k | e < k < j :: !Displaces(ws[k], ms[k], c)
  }

  /** An entered session need not be registered; this is exactly when it is. At any later point of a run its
      connection is registered iff it was not evicted by its own entry and no step since was a close (its own
      or another session's) or an entry under the same user and device, or evicted it. */
  lemma {:induction false} RegisteredIff(ws: seq<World>, ms: seq<Move>, limit: nat, sid: nat, e: nat, j: nat)
    requires Run(ws, ms, limit) && e < j < |ws|
    requires ms[e].Enter? && ms[e].sid == sid && sid in ws[e].sessions
    ensures sid in ws[j].sessions && ws[j].sessions[sid].conn == ws[e].sessions[sid].conn && !ws[j].sessions[sid].phase.Checked?
    ensures var c := ws[e].sessions[sid].conn;
            Registered(ws[j].reg, c) <==> c !in ms[e].evicted && Undisplaced(ws, ms, c, e, j)
  {
    if j == e + 1 {
      assert Moves(ws[e], ms[e], limit, ws[j]);
      OwnEntry(ws[e], ms[e], limit, ws[j]);
    } else {
      var c := ws[e].sessions[sid].conn;
      RegisteredIff(ws, ms, limit, sid, e, j - 1);
      RunKeepsRegistered(ws, ms, limit, sid, j);
      assert Undisplaced(ws, ms, c, e, j) <==> Undisplaced(ws, ms, c, e, j - 1) && !Displaces(ws[j - 1], ms[j - 1], c);
    }
  }

  lemma {:induction false} AlwaysSound(ws: seq<World>, ms: seq<Move>, limit: nat, i: nat)
    requires Run(ws, ms, limit) && 1 <= limit && i < |ws|
    ensures Sound(ws[i].reg, limit)
  {
    if i > 0 {
      AlwaysSound(ws, ms, limit, i - 1);
      var w, m := ws[i - 1], ms[i - 1];
      assert Moves(w, m, limit, ws[i]);
      match m
      case Enter(sid, replaced, evicted) => AddKeepsSound(w.reg, w.sessions[sid].conn, limit, ws[i].reg, replaced, evicted);
      case Leave(sid) => RemoveKeepsSound(w.reg, w.sessions[sid].conn.userId, w.sessions[sid].conn.deviceId, limit);
      case _ =>
    }
  }

  // ---------- What can be told before a step ----------

  /** No close or entry under c's key; and an entry of c's user (c's own included) replaces a device, finds
      room, or finds or brings a device that logged in strictly before c. */
  ghost predicate CertainToStay(w: World, m: Move, limit: nat, c: OnlineConn) {
    m.sid in w.sessions && w.sessions[m.sid].conn.userId == c.userId ==>
      var conn, before := w.sessions[m.sid].conn, DevicesOf(w.reg, c.userId);
      && (m.Leave? ==> !SameKey(conn, c))
      && (m.Enter? ==>
            && (conn == c || !SameKey(conn, c))
            && (conn.deviceId in before || |before| < limit || conn.loginAt < c.loginAt
                || exists d | d in before :: before[d].loginAt < c.loginAt))
  }

  /** The same call, with any iteration order of the hash map. */
  predicate SameCall(m: Move, m': Move) {
    m == m' || (m.Enter? && m'.Enter? && m.sid == m'.sid)
  }

  lemma CertainStays(w: World, m: Move, limit: nat, w': World, c: OnlineConn)
    requires Safe(w) && Limited(w.reg, limit) && 1 <= limit && Moves(w, m, limit, w')
    requires Registered(w.reg, c) || (m.Enter? && w.sessions[m.sid].conn == c)
    requires CertainToStay(w, m, limit, c)
    ensures Registered(w'.reg, c)
  {
    if m.Leave? {
      RemoveUnregistersKey(w.reg, w.sessions[m.sid].conn.userId, w.sessions[m.sid].conn.deviceId, c);
    } else if m.Enter? {
      var conn := w.sessions[m.sid].conn;
      if conn.userId == c.userId {
        EntryKeepsYounger(w.reg, conn, limit, w'.reg, m.replaced, m.evicted, c);
      } else {
        EnterKeeps(w.reg, conn, limit, w'.reg, m.replaced, m.evicted, c);
        assert forall d | d in m.evicted :: d.userId == conn.userId;
      }
    }
  }

  lemma UncertainMayGo(w: World, m: Move, limit: nat, w': World, c: OnlineConn) returns (m2: Move, w2: World)
    requires Safe(w) && Limited(w.reg, limit) && 1 <= limit && Moves(w, m, limit, w')
    requires Registered(w.reg, c) || (m.Enter? && w.sessions[m.sid].conn == c)
    requires !CertainToStay(w, m, limit, c)
    ensures SameCall(m, m2) && Moves(w, m2, limit, w2) && !Registered(w2.reg, c)
  {
    var conn := w.sessions[m.sid].conn;
    m2, w2 := m, w';
    if m.Leave? {
      RemoveUnregistersKey(w.reg, conn.userId, conn.deviceId, c);
    } else if conn != c && SameKey(conn, c) {
      EnterKeeps(w.reg, conn, limit, w'.reg, m.replaced, m.evicted, c);
    } else {
      OldestMayGo(w.reg, conn, limit, c);
      var r := w.reg[conn.userId := w.reg[conn.userId][conn.deviceId := conn] - {c.deviceId}];
      m2, w2 := Enter(m.sid, None, [c]), At(w, m.sid, Entered(w.sessions[m.sid].phase.first)).(reg := r);
    }
  }

  /** Whether a step lets a connection stay registered can be told beforehand: it is certain to stay, whatever
      the iteration order of the map, exactly under CertainToStay. */
  lemma CertainToStayIff(w: World, m: Move, limit: nat, w': World, c: OnlineConn)
    requires Safe(w) && Limited(w.reg, limit) && 1 <= limit && Moves(w, m, limit, w')
    requires Registered(w.reg, c) || (m.Enter? && w.sessions[m.sid].conn == c)
    ensures CertainToStay(w, m, limit, c)
       <==> forall m2, w2 | SameCall(m, m2) && Moves(w, m2, limit, w2) :: Registered(w2.reg, c)
  {
    if CertainToStay(w, m, limit, c) {
      forall m2, w2 | SameCall(m, m2) && Moves(w, m2, limit, w2) ensures Registered(w2.reg, c) {
        CertainStays(w, m2, limit, w2, c);
      }
    } else {
      var m2, w2 := UncertainMayGo(w, m, limit, w', c);
    }
  }

  /** Step e is the entry of the session that holds c. */
  ghost predicate EntersAs(ws: seq<World>, ms: seq<Move>, c: OnlineConn, e: nat) {
    e < |ms| < |ws| && ms[e].Enter? && ms[e].sid in ws[e].sessions && ws[e].sessions[ms[e].sid].conn == c
  }

  ghost predicate CertainThroughout(ws: seq<World>, ms: seq<Move>, limit: nat, c: OnlineConn, e: nat, j: nat) {
    j <= |ms| < |ws| && forall k | e <= k < j :: CertainToStay(ws[k], ms[k], limit, c)
  }

  /** Step k leaves c registered if it was, or if it is c's entry. */
  ghost predicate Carries(ws: seq<World>, ms: seq<Move>, c: OnlineConn, k: nat) {
    k < |ms| < |ws| && (Registered(ws[k].reg, c) || EntersAs(ws, ms, c, k) ==> Registered(ws[k + 1].reg, c))
  }

  lemma CertainCarries(ws: seq<World>, ms: seq<Move>, limit: nat, c: OnlineConn, k: nat)
    requires Run(ws, ms, limit) && 1 <= limit && k < |ms| && CertainToStay(ws[k], ms[k], limit, c)
    ensures Carries(ws, ms, c, k)
  {
    AlwaysSafe(ws, ms, limit, k);
    AlwaysSound(ws, ms, limit, k);
    assert Moves(ws[k], ms[k], limit, ws[k + 1]);
    if Registered(ws[k].reg, c) || EntersAs(ws, ms, c, k) {
      CertainStays(ws[k], ms[k], limit, ws[k + 1], c);
    }
  }

  lemma {:induction false} CarriedThrough(ws: seq<World>, ms: seq<Move>, c: OnlineConn, e: nat, j: nat)
    requires e < j < |ws| && EntersAs(ws, ms, c, e) && forall k | e <= k < j :: Carries(ws, ms, c, k)
    ensures Registered(ws[j].reg, c)
  {
    if e < j - 1 {
      CarriedThrough(ws, ms, c, e, j - 1);
    }
    assert Carries(ws, ms, c, j - 1);
  }

  /** A session is registered throughout a run in which it is certain to stay at its own entry and at every
      step after it. */
  lemma RegisteredWhileCertain(ws: seq<World>, ms: seq<Move>, limit: nat, c: OnlineConn, e: nat, j: nat)
    requires Run(ws, ms, limit) && 1 <= limit
    requires e < j && EntersAs(ws, ms, c, e) && CertainThroughout(ws, ms, limit, c, e, j)
    ensures Registered(ws[j].reg, c)
  {
    forall k | e <= k < j ensures Carries(ws, ms, c, k) {
      CertainCarries(ws, ms, limit, c, k);
    }
    CarriedThrough(ws, ms, c, e, j);
  }

  // ---------- What does not hold ----------

  lemma Extend(ws: seq<World>, ms: seq<Move>, limit: nat, m: Move, w: World) returns (ws': seq<World>, ms': seq<Move>)
    requires Run(ws, ms, limit) && Moves(ws[|ms|], m, limit, w)
    ensures Run(ws', ms', limit) && ws'[|ms'|] == w
  {
    ws', ms' := ws + [w], ms + [m];
    forall i | 0 <= i < |ms'| ensures Moves(ws'[i], ms'[i], limit, ws'[i + 1]) {
      if i < |ms| {
        assert ws'[i] == ws[i] && ms'[i] == ms[i] && ws'[i + 1] == ws[i + 1];
      }
    }
  }

  /** A new session checks. */
  lemma DoCheck(ws: seq<World>, ms: seq<Move>, limit: nat, sid: nat, conn: OnlineConn) returns (ws': seq<World>, ms': seq<Move>)
    requires Run(ws, ms, limit)
    requires var w := ws[|ms|]; sid !in w.sessions && (forall t | t in w.sessions :: w.sessions[t].conn != conn) && !Registered(w.reg, conn)
    ensures Run(ws', ms', limit)
    ensures var w := ws[|ms|]; ws'[|ms'|] == w.(sessions := w.sessions[sid := Session(conn, Checked(conn.userId !in w.reg))])
  {
    var w := ws[|ms|];
    ws', ms' := Extend(ws, ms, limit, Check(sid, conn), w.(sessions := w.sessions[sid := Session(conn, Checked(conn.userId !in w.reg))]));
  }

  /** A checked session enters, taking the registry to r. */
  lemma DoEnter(ws: seq<World>, ms: seq<Move>, limit: nat, sid: nat, r: Registry, replaced: Option<OnlineConn>)
    returns (ws': seq<World>, ms': seq<Move>)
    requires Run(ws, ms, limit)
    requires var w := ws[|ms|]; sid in w.sessions && w.sessions[sid].phase.Checked? && Added(w.reg, w.sessions[sid].conn, limit, r, replaced, [])
    ensures Run(ws', ms', limit)
    ensures var w := ws[|ms|]; ws'[|ms'|] == At(w, sid, Entered(w.sessions[sid].phase.first)).(reg := r)
  {
    var w := ws[|ms|];
    ws', ms' := Extend(ws, ms, limit, Enter(sid, replaced, []), At(w, sid, Entered(w.sessions[sid].phase.first)).(reg := r));
  }

  lemma DoAnnounce(ws: seq<World>, ms: seq<Move>, limit: nat, sid: nat) returns (ws': seq<World>, ms': seq<Move>)
    requires Run(ws, ms, limit)
    requires var w := ws[|ms|]; sid in w.sessions && w.sessions[sid].phase.Entered?
    ensures Run(ws', ms', limit)
    ensures var w := ws[|ms|];
            var s := w.sessions[sid];
            ws'[|ms'|] == At(w, sid, Open).(presence := w.presence + if s.phase.first then [Online(s.conn.userId)] else [])
  {
    var w := ws[|ms|];
    var s := w.sessions[sid];
    ws', ms' := Extend(ws, ms, limit, AnnounceOnline(sid), At(w, sid, Open).(presence := w.presence + if s.phase.first then [Online(s.conn.userId)] else []));
  }

  /** The first device of a user, and a second connection that replaces it or joins it. */
  lemma PlainAdds(c1: OnlineConn, c2: OnlineConn, limit: nat)
    requires 1 <= limit && c1.userId == c2.userId && (c1.deviceId == c2.deviceId || 2 <= limit)
    ensures var u := c1.userId;
            var one, both: Devices := map[c1.deviceId := c1], map[c1.deviceId := c1, c2.deviceId := c2];
            && Added(map[], c1, limit, map[u := one], None, [])
            && Added(map[u := one], c2, limit, map[u := both], if c1.deviceId == c2.deviceId then Some(c1) else None, [])
  {
    var u := c1.userId;
    var one, both: Devices := map[c1.deviceId := c1], map[c1.deviceId := c1, c2.deviceId := c2];
    var r1, r2: Registry := map[u := one], map[u := both];
    assert DevicesOf(map[], u)[c1.deviceId := c1] == one;
    assert map[][u := r1[u]] == r1;
    assert DevicesOf(r1, u)[c2.deviceId := c2] == both;
    assert r1[u := r2[u]] == r2;
  }

  /** A replaced session's close drops its successor: the successor stays open but is not registered. */
  lemma CloseDropsSuccessor(c1: OnlineConn, c2: OnlineConn, limit: nat) returns (ws: seq<World>, ms: seq<Move>)
    requires 1 <= limit && c1 != c2 && c1.userId == c2.userId && c1.deviceId == c2.deviceId
    ensures Run(ws, ms, limit)
    ensures var w := ws[|ms|]; 2 in w.sessions && w.sessions[2] == Session(c2, Open) && !Registered(w.reg, c2)
  {
    PlainAdds(c1, c2, limit);
    var u := c1.userId;
    var one, both: Devices := map[c1.deviceId := c1], map[c1.deviceId := c1, c2.deviceId := c2];
    ws, ms := [World(map[], map[], [])], [];
    ws, ms := DoCheck(ws, ms, limit, 1, c1);
    ws, ms := DoEnter(ws, ms, limit, 1, map[u := one], None);
    ws, ms := DoAnnounce(ws, ms, limit, 1);
    ws, ms := DoCheck(ws, ms, limit, 2, c2);
    ws, ms := DoEnter(ws, ms, limit, 2, map[u := both], Some(c1));
    ws, ms := DoAnnounce(ws, ms, limit, 2);
    var w := ws[|ms|];
    RemoveUnregistersKey(w.reg, u, c1.deviceId, c2);
    ws, ms := Extend(ws, ms, limit, Leave(1), At(w, 1, Left).(reg := Removed(w.reg, u, c1.deviceId)));
  }
}
