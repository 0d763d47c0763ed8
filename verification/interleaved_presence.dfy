/** Presence under interleaving: every registry call and every publish is a step of its own, sessions of other
    users interleave freely, and what matters is whether callbacks of one user overlap. */
module InterleavedPresence {
  import opened OnlineConnection
  import opened Sessions
  import opened Lifecycle
  import opened Interleaving

  predicate MidCallback(p: Phase) {
    !p.Open? && !p.Done?
  }

  /** No two sessions of the user are inside a callback. */
  ghost predicate OneAtATime(w: World, u: nat) {
    forall s, t | && s in w.sessions && w.sessions[s].conn.userId == u && MidCallback(w.sessions[s].phase)
                  && t in w.sessions && w.sessions[t].conn.userId == u && MidCallback(w.sessions[t].phase) :: s == t
  }

  /** No session of the user is inside a callback. */
  ghost predicate Quiet(w: World, u: nat) {
    forall s | s in w.sessions && w.sessions[s].conn.userId == u :: !MidCallback(w.sessions[s].phase)
  }

  /** What a session inside a callback knows about its user's presence. */
  ghost predicate Knows(w: World, u: nat, p: Phase) {
    var online := LatestIsOnline(w.presence, u);
    match p
    case Checked(first) => (online <==> u in w.reg) && (first <==> u !in w.reg)
    case Entered(first) => u in w.reg && (first <==> !online)
    case Left => u in w.reg ==> online
    case Rechecked(gone) => (u in w.reg ==> online) && (gone <==> u !in w.reg)
    case _ => true
  }

  ghost predicate Tracks(w: World, u: nat) {
    && (Quiet(w, u) ==> (LatestIsOnline(w.presence, u) <==> u in w.reg))
    && (forall s | s in w.sessions && w.sessions[s].conn.userId == u :: Knows(w, u, w.sessions[s].phase))
  }

  /** The step publishes an Online while the user's latest event is Online. */
  ghost predicate RepeatsOnline(w: World, m: Move, u: nat) {
    && m.AnnounceOnline? && m.sid in w.sessions && w.sessions[m.sid].conn.userId == u
    && w.sessions[m.sid].phase == Entered(true) && LatestIsOnline(w.presence, u)
  }

  lemma StepPresence(w: World, m: Move, limit: nat, w': World, u: nat)
    requires Moves(w, m, limit, w')
    ensures Alternates(w'.presence, u) <==> Alternates(w.presence, u) && !RepeatsOnline(w, m, u)
    ensures LatestIsOnline(w'.presence, u)
            == if m.AnnounceOnline? && w.sessions[m.sid].conn.userId == u && w.sessions[m.sid].phase.first then true
               else if m.AnnounceOffline? && w.sessions[m.sid].conn.userId == u && w.sessions[m.sid].phase.gone then false
               else LatestIsOnline(w.presence, u)
  {
    if m.AnnounceOnline? || m.AnnounceOffline? {
      var v := w.sessions[m.sid].conn.userId;
      var e := if m.AnnounceOnline? then Online(v) else Offline(v);
      assert w'.presence == w.presence || w'.presence == w.presence + [e];
      LatestAfter(w.presence, e);
      AlternatesAfterIff(w.presence, e, u);
    }
  }

  /** A step changes no session but its own. */
  lemma OthersUnchanged(w: World, m: Move, limit: nat, w': World)
    requires Moves(w, m, limit, w')
    ensures m.sid in w'.sessions && (m.sid in w.sessions ==> w'.sessions[m.sid].conn == w.sessions[m.sid].conn)
    ensures forall s | s != m.sid :: (s in w'.sessions <==> s in w.sessions) && (s in w.sessions ==> w'.sessions[s] == w.sessions[s])
  {
  }

  lemma OtherUserKeepsReg(w: World, m: Move, limit: nat, w': World, u: nat)
    requires Moves(w, m, limit, w') && w'.sessions[m.sid].conn.userId != u
    ensures u in w'.reg <==> u in w.reg
    ensures LatestIsOnline(w'.presence, u) == LatestIsOnline(w.presence, u)
  {
    StepPresence(w, m, limit, w', u);
  }

  lemma OtherUserKeepsTracks(w: World, m: Move, limit: nat, w': World, u: nat)
    requires Moves(w, m, limit, w') && Tracks(w, u) && w'.sessions[m.sid].conn.userId != u
    ensures Tracks(w', u)
  {
    OthersUnchanged(w, m, limit, w');
    OtherUserKeepsReg(w, m, limit, w', u);
    if Quiet(w', u) {
      assert Quiet(w, u);
    }
  }

  /** The phase the moving session had; a new one counts as not in a callback. */
  function PhaseBefore(w: World, sid: nat): Phase {
    if sid in w.sessions then w.sessions[sid].phase else Done
  }

  /** The moving session's own view: from what it knew, or from a quiet world, to what it knows. */
  lemma OwnStepKeepsKnows(w: World, m: Move, limit: nat, w': World, u: nat)
    requires Moves(w, m, limit, w') && w'.sessions[m.sid].conn.userId == u
    requires var p := PhaseBefore(w, m.sid);
             if MidCallback(p) then Knows(w, u, p) else LatestIsOnline(w.presence, u) <==> u in w.reg
    ensures var p := w'.sessions[m.sid].phase;
            if MidCallback(p) then Knows(w', u, p) else LatestIsOnline(w'.presence, u) <==> u in w'.reg
    ensures !RepeatsOnline(w, m, u)
  {
    StepPresence(w, m, limit, w', u);
  }

  lemma OwnStepKeepsTracks(w: World, m: Move, limit: nat, w': World, u: nat)
    requires Moves(w, m, limit, w') && Tracks(w, u) && w'.sessions[m.sid].conn.userId == u
    requires OneAtATime(w, u) && OneAtATime(w', u)
    ensures Tracks(w', u) && !RepeatsOnline(w, m, u)
  {
    OthersUnchanged(w, m, limit, w');
    var p, p' := PhaseBefore(w, m.sid), w'.sessions[m.sid].phase;
    assert MidCallback(p) || MidCallback(p');
    assert forall s | s in w.sessions && w.sessions[s].conn.userId == u && s != m.sid :: !MidCallback(w.sessions[s].phase);
    if !MidCallback(p) {
      assert Quiet(w, u);
    }
    OwnStepKeepsKnows(w, m, limit, w', u);
  }

  /** Presence is faithful for a user whose callbacks do not overlap each other, however those of other users
      interleave with them: its Onlines alternate with Offlines, and whenever none of its sessions is inside a
      callback, its latest event is Online exactly when it is registered. */
  lemma {:induction false} FaithfulWithoutOverlap(ws: seq<World>, ms: seq<Move>, limit: nat, u: nat, j: nat)
    requires Interleaving.Run(ws, ms, limit) && j < |ws|
    requires forall k | 0 <= k <= j :: OneAtATime(ws[k], u)
    ensures Tracks(ws[j], u) && Alternates(ws[j].presence, u)
    ensures Quiet(ws[j], u) ==> (LatestIsOnline(ws[j].presence, u) <==> u in ws[j].reg)
  {
    if j > 0 {
      FaithfulWithoutOverlap(ws, ms, limit, u, j - 1);
      var w, m := ws[j - 1], ms[j - 1];
      assert Moves(w, m, limit, ws[j]);
      StepPresence(w, m, limit, ws[j], u);
      if ws[j].sessions[m.sid].conn.userId == u {
        OwnStepKeepsTracks(w, m, limit, ws[j], u);
      } else {
        OtherUserKeepsTracks(w, m, limit, ws[j], u);
      }
    }
  }
}
