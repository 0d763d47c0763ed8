/** Exactly when presence is right under interleaving, told by what sessions read from the registry and when they
    announce it. */
module PresenceReads {
  import opened Common
  import opened OnlineConnection
  import opened Sessions
  import opened Lifecycle
  import opened Interleaving
  import opened InterleavedPresence

  // ---------- Marks along a run ----------

  /** Before step j, some step is marked on and no later one is marked off. */
  ghost predicate Since(on: nat -> bool, off: nat -> bool, j: nat) {
    exists a: nat | a < j && on(a) :: forall c: nat | a < c < j :: !off(c)
  }

  /** Before step j, between any two steps marked on lies one marked off. */
  ghost predicate Separated(on: nat -> bool, off: nat -> bool, j: nat) {
    forall a: nat, b: nat | a < b < j && on(a) && on(b) :: exists c: nat :: a < c < b && off(c)
  }

  lemma SinceSnoc(on: nat -> bool, off: nat -> bool, j: nat)
    requires !(on(j) && off(j))
    ensures Since(on, off, j + 1) <==> on(j) || (Since(on, off, j) && !off(j))
  {
    if Since(on, off, j + 1) && !on(j) {
      var a: nat :| a < j + 1 && on(a) && forall c: nat | a < c < j + 1 :: !off(c);
      assert a < j && on(a);
    }
    if Since(on, off, j) && !off(j) {
      var a: nat :| a < j && on(a) && forall c: nat | a < c < j :: !off(c);
      assert a < j + 1 && on(a);
    }
  }

  lemma SeparatedSnoc(on: nat -> bool, off: nat -> bool, j: nat)
    ensures Separated(on, off, j + 1) <==> Separated(on, off, j) && !(on(j) && Since(on, off, j))
  {
    if on(j) && Since(on, off, j) {
      var a: nat :| a < j && on(a) && forall c: nat | a < c < j :: !off(c);
      assert a < j < j + 1 && on(a) && on(j);
    }
    if Separated(on, off, j) && !(on(j) && Since(on, off, j)) {
      forall a: nat, b: nat | a < b < j + 1 && on(a) && on(b) ensures exists c: nat :: a < c < b && off(c) {
      }
    }
  }

  // ---------- What was read, and when it was announced ----------

  /** Step k announces Online for u, its session having found u absent at its check. */
  ghost predicate FoundAbsent(ws: seq<World>, ms: seq<Move>, u: nat, k: nat) {
    && k < |ms| < |ws| && ms[k].AnnounceOnline?
    && exists i: nat :: i < k && CheckOf(ms, i, ms[k].sid) && ms[i].conn.userId == u && u !in ws[i].reg
  }

  /** Step k announces Offline for u, its session having found u gone at its recheck. */
  ghost predicate FoundGone(ws: seq<World>, ms: seq<Move>, u: nat, k: nat) {
    && k < |ms| < |ws| && ms[k].AnnounceOffline?
    && exists i: nat :: i < k && RecheckOf(ms, i, ms[k].sid) && ActsFor(ws[i], ms[i], u) && u !in ws[i].reg
  }

  predicate CheckOf(ms: seq<Move>, i: nat, sid: nat) {
    i < |ms| && ms[i].Check? && ms[i].sid == sid
  }

  predicate RecheckOf(ms: seq<Move>, i: nat, sid: nat) {
    i < |ms| && ms[i].Recheck? && ms[i].sid == sid
  }

  /** The step is one of a session of u. */
  predicate ActsFor(w: World, m: Move, u: nat) {
    m.sid in w.sessions && w.sessions[m.sid].conn.userId == u
  }

  /** What session s, in this phase, learnt from the steps before j. */
  ghost predicate Learnt(ws: seq<World>, ms: seq<Move>, j: nat, sid: nat, s: Session)
    requires j <= |ms| < |ws|
  {
    && (exists i: nat :: i < j && CheckOf(ms, i, sid))
    && (forall i: nat | i < j && CheckOf(ms, i, sid) ::
          && ms[i].conn == s.conn
          && (s.phase.Checked? || s.phase.Entered? ==> (s.phase.first <==> s.conn.userId !in ws[i].reg)))
    && (s.phase.Rechecked? ==> exists i: nat :: i < j && RecheckOf(ms, i, sid))
    && (forall i: nat | i < j && RecheckOf(ms, i, sid) ::
          && sid in ws[i].sessions && ws[i].sessions[sid].conn == s.conn
          && (s.phase.Rechecked? || s.phase.Done?)
          && (s.phase.Rechecked? ==> (s.phase.gone <==> s.conn.userId !in ws[i].reg)))
  }

  ghost predicate AllLearnt(ws: seq<World>, ms: seq<Move>, j: nat)
    requires j <= |ms| < |ws|
  {
    && (forall sid | sid in ws[j].sessions :: Learnt(ws, ms, j, sid, ws[j].sessions[sid]))
    && (forall i: nat | i < j :: ms[i].sid in ws[j].sessions)
  }

  lemma OtherLearns(ws: seq<World>, ms: seq<Move>, j: nat, sid: nat, s: Session)
    requires j < |ms| < |ws| && Learnt(ws, ms, j, sid, s) && ms[j].sid != sid
    ensures Learnt(ws, ms, j + 1, sid, s)
  {
    var i: nat :| i < j && CheckOf(ms, i, sid);
    assert i < j + 1;
    if s.phase.Rechecked? {
      var r: nat :| r < j && RecheckOf(ms, r, sid);
      assert r < j + 1;
    }
  }

  lemma NewLearns(ws: seq<World>, ms: seq<Move>, limit: nat, j: nat)
    requires j < |ms| < |ws| && Moves(ws[j], ms[j], limit, ws[j + 1]) && AllLearnt(ws, ms, j) && ms[j].Check?
    ensures Learnt(ws, ms, j + 1, ms[j].sid, ws[j + 1].sessions[ms[j].sid])
  {
    assert CheckOf(ms, j, ms[j].sid);
    assert forall i: nat | i < j :: ms[i].sid != ms[j].sid;
  }

  /** What a session knew stays known in its next phase, unless it rechecks. */
  lemma ActorKeeps(ws: seq<World>, ms: seq<Move>, limit: nat, j: nat)
    requires j < |ms| < |ws| && Moves(ws[j], ms[j], limit, ws[j + 1]) && !ms[j].Check? && !ms[j].Recheck?
    requires Learnt(ws, ms, j, ms[j].sid, ws[j].sessions[ms[j].sid])
    ensures Learnt(ws, ms, j + 1, ms[j].sid, ws[j + 1].sessions[ms[j].sid])
  {
    var i: nat :| i < j && CheckOf(ms, i, ms[j].sid);
    assert i < j + 1;
  }

  lemma ActorRechecks(ws: seq<World>, ms: seq<Move>, limit: nat, j: nat)
    requires j < |ms| < |ws| && Moves(ws[j], ms[j], limit, ws[j + 1]) && ms[j].Recheck?
    requires Learnt(ws, ms, j, ms[j].sid, ws[j].sessions[ms[j].sid])
    ensures Learnt(ws, ms, j + 1, ms[j].sid, ws[j + 1].sessions[ms[j].sid])
  {
    var i: nat :| i < j && CheckOf(ms, i, ms[j].sid);
    assert i < j + 1;
    assert RecheckOf(ms, j, ms[j].sid);
  }

  lemma {:induction false} AlwaysLearnt(ws: seq<World>, ms: seq<Move>, limit: nat, j: nat)
    requires Interleaving.Run(ws, ms, limit) && j < |ws|
    ensures AllLearnt(ws, ms, j)
  {
    if j > 0 {
      var k := j - 1;
      AlwaysLearnt(ws, ms, limit, k);
      assert Moves(ws[k], ms[k], limit, ws[k + 1]);
      OthersUnchanged(ws[k], ms[k], limit, ws[j]);
      forall sid | sid in ws[j].sessions ensures Learnt(ws, ms, j, sid, ws[j].sessions[sid]) {
        if sid != ms[k].sid {
          OtherLearns(ws, ms, k, sid, ws[k].sessions[sid]);
        } else if ms[k].Check? {
          NewLearns(ws, ms, limit, k);
        } else if ms[k].Recheck? {
          ActorRechecks(ws, ms, limit, k);
        } else {
          ActorKeeps(ws, ms, limit, k);
        }
      }
    }
  }

  /** A session publishes an event exactly according to what it read. */
  lemma AnnouncesWhatItRead(ws: seq<World>, ms: seq<Move>, limit: nat, u: nat, k: nat)
    requires Interleaving.Run(ws, ms, limit) && k < |ms|
    ensures ms[k].sid in ws[k].sessions || ms[k].Check?
    ensures FoundAbsent(ws, ms, u, k) <==> ms[k].AnnounceOnline? && ActsFor(ws[k], ms[k], u) && ws[k].sessions[ms[k].sid].phase == Entered(true)
    ensures FoundGone(ws, ms, u, k) <==> ms[k].AnnounceOffline? && ActsFor(ws[k], ms[k], u) && ws[k].sessions[ms[k].sid].phase == Rechecked(true)
  {
    AlwaysLearnt(ws, ms, limit, k);
    assert Moves(ws[k], ms[k], limit, ws[k + 1]);
    if ms[k].AnnounceOnline? || ms[k].AnnounceOffline? {
      assert Learnt(ws, ms, k, ms[k].sid, ws[k].sessions[ms[k].sid]);
    }
  }

  ghost function Absences(ws: seq<World>, ms: seq<Move>, u: nat): nat -> bool {
    (k: nat) => FoundAbsent(ws, ms, u, k)
  }

  ghost function Departures(ws: seq<World>, ms: seq<Move>, u: nat): nat -> bool {
    (k: nat) => FoundGone(ws, ms, u, k)
  }

  lemma {:induction false} PresenceFromReads(ws: seq<World>, ms: seq<Move>, limit: nat, u: nat, j: nat)
    requires Interleaving.Run(ws, ms, limit) && j < |ws|
    ensures LatestIsOnline(ws[j].presence, u) <==> Since(Absences(ws, ms, u), Departures(ws, ms, u), j)
    ensures Alternates(ws[j].presence, u) <==> Separated(Absences(ws, ms, u), Departures(ws, ms, u), j)
  {
    if j > 0 {
      var k := j - 1;
      PresenceFromReads(ws, ms, limit, u, k);
      AnnouncesWhatItRead(ws, ms, limit, u, k);
      SinceSnoc(Absences(ws, ms, u), Departures(ws, ms, u), k);
      SeparatedSnoc(Absences(ws, ms, u), Departures(ws, ms, u), k);
      assert Moves(ws[k], ms[k], limit, ws[k + 1]);
      StepPresence(ws[k], ms[k], limit, ws[j], u);
    }
  }

  /** Exactly when Onlines alternate: between any two Onlines of a user lies an Offline iff between any two
      announcements by sessions whose check found the user absent lies one by a session whose recheck found the
      user gone. */
  lemma OnlinesAlternateIff(ws: seq<World>, ms: seq<Move>, limit: nat, u: nat, j: nat)
    requires Interleaving.Run(ws, ms, limit) && j < |ws|
    ensures Alternates(ws[j].presence, u)
       <==> forall a: nat, b: nat | a < b < j && FoundAbsent(ws, ms, u, a) && FoundAbsent(ws, ms, u, b) ::
              exists c: nat :: a < c < b && FoundGone(ws, ms, u, c)
  {
    PresenceFromReads(ws, ms, limit, u, j);
    var on, off := Absences(ws, ms, u), Departures(ws, ms, u);
    if Separated(on, off, j) {
      forall a: nat, b: nat | a < b < j && FoundAbsent(ws, ms, u, a) && FoundAbsent(ws, ms, u, b)
        ensures exists c: nat :: a < c < b && FoundGone(ws, ms, u, c)
      {
        assert on(a) && on(b);
        var c: nat :| a < c < b && off(c);
        assert FoundGone(ws, ms, u, c);
      }
    } else {
      var a: nat, b: nat :| a < b < j && on(a) && on(b) && !exists c: nat :: a < c < b && off(c);
      assert FoundAbsent(ws, ms, u, a) && FoundAbsent(ws, ms, u, b);
      assert forall c: nat | FoundGone(ws, ms, u, c) :: off(c);
    }
  }

  /** The latest event of a user is Online iff some session that found the user absent has announced, and since
      then none that found the user gone. */
  lemma LatestIsOnlineIff(ws: seq<World>, ms: seq<Move>, limit: nat, u: nat, j: nat)
    requires Interleaving.Run(ws, ms, limit) && j < |ws|
    ensures LatestIsOnline(ws[j].presence, u)
       <==> exists a: nat | a < j && FoundAbsent(ws, ms, u, a) :: forall c: nat | a < c < j :: !FoundGone(ws, ms, u, c)
  {
    PresenceFromReads(ws, ms, limit, u, j);
    var on, off := Absences(ws, ms, u), Departures(ws, ms, u);
    if Since(on, off, j) {
      var a: nat :| a < j && on(a) && forall c: nat | a < c < j :: !off(c);
      assert FoundAbsent(ws, ms, u, a);
      assert forall c: nat | FoundGone(ws, ms, u, c) :: off(c);
    }
    if a: nat :| a < j && FoundAbsent(ws, ms, u, a) && forall c: nat | a < c < j :: !FoundGone(ws, ms, u, c) {
      assert on(a);
      assert forall c: nat | off(c) :: FoundGone(ws, ms, u, c);
    }
  }

  // ---------- Registration itself, and agreement between the two ----------

  /** Step k adds a connection of u. */
  predicate Enters(ws: seq<World>, ms: seq<Move>, u: nat, k: nat) {
    k < |ms| < |ws| && ms[k].Enter? && ActsFor(ws[k], ms[k], u)
  }

  /** Step k removes the only device of u, or finds none. */
  ghost predicate Empties(ws: seq<World>, ms: seq<Move>, u: nat, k: nat) {
    && k < |ms| < |ws| && ms[k].Leave? && ActsFor(ws[k], ms[k], u)
    && DevicesOf(ws[k].reg, u) - {ws[k].sessions[ms[k].sid].conn.deviceId} == map[]
  }

  ghost function Entries(ws: seq<World>, ms: seq<Move>, u: nat): nat -> bool {
    (k: nat) => Enters(ws, ms, u, k)
  }

  ghost function Clearings(ws: seq<World>, ms: seq<Move>, u: nat): nat -> bool {
    (k: nat) => Empties(ws, ms, u, k)
  }

  lemma StepRegisters(ws: seq<World>, ms: seq<Move>, limit: nat, u: nat, k: nat)
    requires Interleaving.Run(ws, ms, limit) && k < |ms|
    ensures u in ws[k + 1].reg <==> Enters(ws, ms, u, k) || (u in ws[k].reg && !Empties(ws, ms, u, k))
  {
    var w, m, w' := ws[k], ms[k], ws[k + 1];
    assert Moves(w, m, limit, w');
    OthersUnchanged(w, m, limit, w');
    if w'.sessions[m.sid].conn.userId != u {
      OtherUserKeepsReg(w, m, limit, w', u);
    }
  }

  lemma {:induction false} RegisteredUserIff(ws: seq<World>, ms: seq<Move>, limit: nat, u: nat, j: nat)
    requires Interleaving.Run(ws, ms, limit) && j < |ws|
    ensures u in ws[j].reg <==> Since(Entries(ws, ms, u), Clearings(ws, ms, u), j)
  {
    if j > 0 {
      var k := j - 1;
      RegisteredUserIff(ws, ms, limit, u, k);
      StepRegisters(ws, ms, limit, u, k);
      SinceSnoc(Entries(ws, ms, u), Clearings(ws, ms, u), k);
    }
  }

  /** Exactly when the latest event agrees with the registry: iff the announcements, each made some time after
      the read it rests on, say the same as the entries and removals themselves. */
  lemma AgreesIff(ws: seq<World>, ms: seq<Move>, limit: nat, u: nat, j: nat)
    requires Interleaving.Run(ws, ms, limit) && j < |ws|
    ensures (LatestIsOnline(ws[j].presence, u) <==> u in ws[j].reg)
       <==> (Since(Absences(ws, ms, u), Departures(ws, ms, u), j) <==> Since(Entries(ws, ms, u), Clearings(ws, ms, u), j))
  {
    PresenceFromReads(ws, ms, limit, u, j);
    RegisteredUserIff(ws, ms, limit, u, j);
  }

  // ---------- Runs that break presence ----------

  /** Overlapping callbacks break the alternation: two sessions of a user that both check before either enters
      publish two Online events with no Offline between them. */
  lemma InterleavedChecksRepeatOnline(c1: OnlineConn, c2: OnlineConn, limit: nat) returns (ws: seq<World>, ms: seq<Move>)
    requires 2 <= limit && c1.userId == c2.userId && c1.deviceId != c2.deviceId
    ensures Interleaving.Run(ws, ms, limit)
    ensures ws[|ms|].presence == [Online(c1.userId), Online(c1.userId)] && !Alternates(ws[|ms|].presence, c1.userId)
  {
    PlainAdds(c1, c2, limit);
    var u := c1.userId;
    var one, both: Devices := map[c1.deviceId := c1], map[c1.deviceId := c1, c2.deviceId := c2];
    ws, ms := [World(map[], map[], [])], [];
    ws, ms := DoCheck(ws, ms, limit, 1, c1);
    ws, ms := DoCheck(ws, ms, limit, 2, c2);
    ws, ms := DoEnter(ws, ms, limit, 1, map[u := one], None);
    ws, ms := DoEnter(ws, ms, limit, 2, map[u := both], None);
    ws, ms := DoAnnounce(ws, ms, limit, 1);
    ws, ms := DoAnnounce(ws, ms, limit, 2);
    var log := ws[|ms|].presence;
    assert log == [Online(u), Online(u)];
    assert log[0] == Online(u) && log[1] == Online(u);
  }

  /** A first session connects, is announced, closes and finds its user gone. */
  lemma ComeAndGo(c: OnlineConn, limit: nat) returns (ws: seq<World>, ms: seq<Move>)
    requires 1 <= limit
    ensures Interleaving.Run(ws, ms, limit)
    ensures ws[|ms|] == World(map[], map[1 := Session(c, Rechecked(true))], [Online(c.userId)])
  {
    var u := c.userId;
    PlainAdds(c, c, limit);
    ws, ms := [World(map[], map[], [])], [];
    ws, ms := DoCheck(ws, ms, limit, 1, c);
    ws, ms := DoEnter(ws, ms, limit, 1, map[u := map[c.deviceId := c]], None);
    ws, ms := DoAnnounce(ws, ms, limit, 1);
    var w := ws[|ms|];
    assert w.reg[u] - {c.deviceId} == map[] && w.reg - {u} == map[];
    ws, ms := Extend(ws, ms, limit, Leave(1), At(w, 1, Left).(reg := map[]));
    ws, ms := Extend(ws, ms, limit, Recheck(1), At(ws[|ms|], 1, Rechecked(true)));
  }

  /** They break the agreement too: a session found its user gone at its recheck, the user reconnects and is
      announced, and only then is the Offline published. All callbacks are over, and the registered user's
      latest event is Offline. */
  lemma LateOffline(c1: OnlineConn, c2: OnlineConn, limit: nat) returns (ws: seq<World>, ms: seq<Move>)
    requires 1 <= limit && c1 != c2 && c1.userId == c2.userId && c1.deviceId == c2.deviceId
    ensures Interleaving.Run(ws, ms, limit)
    ensures var w, u := ws[|ms|], c1.userId;
            && Quiet(w, u) && Registered(w.reg, c2)
            && w.presence == [Online(u), Online(u), Offline(u)] && !LatestIsOnline(w.presence, u)
  {
    var u := c1.userId;
    ws, ms := ComeAndGo(c1, limit);
    PlainAdds(c2, c2, limit);
    ws, ms := DoCheck(ws, ms, limit, 2, c2);
    ws, ms := DoEnter(ws, ms, limit, 2, map[u := map[c2.deviceId := c2]], None);
    ws, ms := DoAnnounce(ws, ms, limit, 2);
    var w := ws[|ms|];
    ws, ms := Extend(ws, ms, limit, AnnounceOffline(1), At(w, 1, Done).(presence := w.presence + [Offline(u)]));
    assert ws[|ms|].presence == [Online(u), Online(u), Offline(u)];
  }
}
