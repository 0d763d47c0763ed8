/** From the broker to the devices: the consume loop with the event handler behind it. Each dispatched message
    is handled once, against the registry and pending record the handler meets when it runs. */
module Delivery {
  import opened Common
  import opened IdempotencyCache
  import opened OnlineConnection
  import opened Sessions
  import opened PendingSends
  import opened Consumer
  import FanOut
  import Recipients

  /** How a handler ends: in time, after the loop has stopped waiting, or by an exception, having sent only
      so many of each connection's frames. */
  datatype Completion = Finished | TimedOut | Threw(sent: map<OnlineConn, nat>)

  /** One iteration of the loop, and what the handler finds if the iteration dispatches. */
  datatype Stage = Stage(round: Round, payload: FanOut.Event, reg: Registry, taken: Option<PendingSend>, end: Completion)

  function Rounds(stages: seq<Stage>): (rs: seq<Round>)
    ensures |rs| == |stages|
  {
    seq(|stages|, i requires 0 <= i < |stages| => stages[i].round)
  }

  /** This iteration hands its delivery to the handler. */
  predicate Hands(c: Config, s: State, r: Round) {
    !s.stopped && Connects(s, r) && !r.stop && r.poll.Got? && Accepts(c, s, r.poll.delivery, r.now)
  }

  /** The loop learns the handler's verdict if it ends in time, and NACK_REQUEUE otherwise. */
  ghost predicate Wired(stages: seq<Stage>) {
    forall i | 0 <= i < |stages| && stages[i].round.poll.Got? && stages[i].round.poll.delivery.body.Object? ::
      stages[i].round.verdict == if stages[i].end.Finished? then FanOut.ExpectedVerdict(stages[i].round.poll.delivery.body.kind, stages[i].payload)
                                 else NACK_REQUEUE
  }

  // ---------- Frames, message by message ----------

  /** A frame, with the number of the dispatch that sent it and the message it belongs to. */
  datatype Sent = Sent(dispatch: nat, msgId: string, kind: string, frame: FanOut.Frame)

  ghost function Outgoing(st: Stage, kind: string, conn: OnlineConn): seq<FanOut.Frame> {
    var all := if FanOut.Reachable(st.reg, conn) then FanOut.Expected(kind, st.payload, st.taken, conn) else [];
    match st.end
    case Threw(sent) => all[..Min(|all|, if conn in sent then sent[conn] else 0)]
    case _ => all
  }

  ghost function Batch(n: nat, st: Stage, conn: OnlineConn): (b: seq<Sent>)
    requires st.round.poll.Got? && st.round.poll.delivery.body.Object?
  {
    var body := st.round.poll.delivery.body;
    var frames := Outgoing(st, body.kind, conn);
    seq(|frames|, i requires 0 <= i < |frames| => Sent(n, body.msgId, body.kind, frames[i]))
  }

  /** Everything sent to a connection over a run, in the order of dispatch. */
  ghost function Trace(c: Config, stages: seq<Stage>, conn: OnlineConn): seq<Sent> {
    if stages == [] then []
    else
      var before, st := stages[..|stages| - 1], stages[|stages| - 1];
      Trace(c, before, conn)
      + if Hands(c, RunRounds(c, Rounds(before)), st.round) then Batch(|Dispatches(c, Rounds(before))|, st, conn) else []
  }

  lemma DispatchesSnoc(c: Config, stages: seq<Stage>)
    requires stages != []
    ensures var before, r := Rounds(stages[..|stages| - 1]), stages[|stages| - 1].round;
            Dispatches(c, Rounds(stages)) == Dispatches(c, before)
              + if Hands(c, RunRounds(c, before), r) then [Mark(r.poll.delivery.body.msgId, r.now)] else []
  {
    var before := Rounds(stages[..|stages| - 1]);
    assert Rounds(stages)[..|stages| - 1] == before;
    var s := RunRounds(c, before);
    if !s.stopped {
      StepMarks(c, s, stages[|stages| - 1].round);
    }
  }

  /** How often the connection's user is listed in the event a frame pushes. */
  function Listings(frame: FanOut.Frame, conn: OnlineConn): nat {
    if frame.Push? then multiset(FanOut.Ids(frame.event.memberIds))[conn.userId] else 0
  }

  /** One dispatch sends a connection at most one frame, except a conversation's creation, which sends one for
      each listing of its user. */
  lemma FramesPerDispatch(kind: string, p: FanOut.Event, taken: Option<PendingSend>, conn: OnlineConn)
    ensures var frames := FanOut.Expected(kind, p, taken, conn);
            if kind != "chat.conversation.created" then |frames| <= 1
            else forall f | f in frames :: |frames| == Listings(f, conn)
  {
    if kind == "chat.conversation.created" {
      Recipients.CreatedMemberHears(p, taken, conn);
    }
  }

  /** Frames belong to their dispatches, in order; two of one dispatch are a creation's that lists the user
      more than once. */
  ghost predicate Follows(tr: seq<Sent>, marks: seq<Mark>, conn: OnlineConn) {
    && (forall i | 0 <= i < |tr| :: tr[i].dispatch < |marks| && marks[tr[i].dispatch].key == tr[i].msgId)
    && (forall i, j | 0 <= i < j < |tr| :: tr[i].dispatch <= tr[j].dispatch)
    && (forall i, j | 0 <= i < j < |tr| && tr[i].dispatch == tr[j].dispatch ::
          tr[i].kind == "chat.conversation.created" && Listings(tr[i].frame, conn) >= 2)
  }

  lemma BatchListings(n: nat, st: Stage, conn: OnlineConn)
    requires st.round.poll.Got? && st.round.poll.delivery.body.Object?
    ensures var b := Batch(n, st, conn);
            |b| >= 2 ==> forall i | 0 <= i < |b| :: b[i].kind == "chat.conversation.created" && Listings(b[i].frame, conn) >= 2
  {
    var kind := st.round.poll.delivery.body.kind;
    FramesPerDispatch(kind, st.payload, st.taken, conn);
    var frames := Outgoing(st, kind, conn);
    assert forall i | 0 <= i < |frames| :: frames[i] in FanOut.Expected(kind, st.payload, st.taken, conn);
  }

  lemma BatchFollows(tr: seq<Sent>, marks: seq<Mark>, st: Stage, conn: OnlineConn, mark: Mark)
    requires Follows(tr, marks, conn) && st.round.poll.Got? && st.round.poll.delivery.body.Object?
    requires mark.key == st.round.poll.delivery.body.msgId
    ensures Follows(tr + Batch(|marks|, st, conn), marks + [mark], conn)
  {
    BatchListings(|marks|, st, conn);
    var marks' := marks + [mark];
    assert forall k | 0 <= k < |marks| :: marks'[k] == marks[k];
  }

  lemma {:induction false} TraceFollowsDispatches(c: Config, stages: seq<Stage>, conn: OnlineConn)
    ensures Follows(Trace(c, stages, conn), Dispatches(c, Rounds(stages)), conn)
  {
    if stages != [] {
      var before, st := stages[..|stages| - 1], stages[|stages| - 1];
      TraceFollowsDispatches(c, before, conn);
      DispatchesSnoc(c, stages);
      if Hands(c, RunRounds(c, Rounds(before)), st.round) {
        BatchFollows(Trace(c, before, conn), Dispatches(c, Rounds(before)), st, conn, Mark(st.round.poll.delivery.body.msgId, st.round.now));
      }
    }
  }

  /** No connection hears of a message twice inside the window, whatever the broker redelivers and however
      handlers end: two frames of one message to one connection come from dispatches a full ttl apart, or with
      at least `capacity` other messages dispatched in between, or from one dispatch of a conversation's
      creation in which the connection's user is listed at least twice. */
  lemma FramesAtMostOncePerWindow(c: Config, start: int, stages: seq<Stage>, conn: OnlineConn, i: nat, j: nat)
    requires ClockForward(start, Rounds(stages)) && 0 < c.ttl
    requires i < j < |Trace(c, stages, conn)| && Trace(c, stages, conn)[i].msgId == Trace(c, stages, conn)[j].msgId
    ensures var x, y := Trace(c, stages, conn)[i], Trace(c, stages, conn)[j];
            var marks := Dispatches(c, Rounds(stages));
            && x.dispatch <= y.dispatch < |marks| && marks[x.dispatch].key == x.msgId == marks[y.dispatch].key
            && if x.dispatch == y.dispatch then x.kind == "chat.conversation.created" && Listings(x.frame, conn) >= 2
               else || marks[y.dispatch].at >= marks[x.dispatch].at + c.ttl
                    || (x.dispatch < y.dispatch - c.capacity && DistinctOthers(marks, y.dispatch - c.capacity, y.dispatch, x.msgId))
  {
    TraceFollowsDispatches(c, stages, conn);
    var x, y := Trace(c, stages, conn)[i], Trace(c, stages, conn)[j];
    if x.dispatch < y.dispatch {
      AtMostOnceDispatch(c, start, Rounds(stages), x.dispatch, y.dispatch);
    }
  }

  // ---------- Where NACK_REQUEUE comes from ----------

  /** A handled delivery is settled with NACK_REQUEUE exactly when it was dispatched and its handler threw or
      was not done in time: no handler ever asks for it. */
  lemma RequeueOnlyOnFailure(c: Config, stages: seq<Stage>, k: nat)
    requires Wired(stages) && k < |stages|
    requires var s, r := RunRounds(c, Rounds(stages[..k])), stages[k].round;
             !s.stopped && Connects(s, r) && r.poll.Got? && !Loses(s, r)
    ensures var before, after := Rounds(stages[..k]), Rounds(stages[..k + 1]);
            var r := stages[k].round;
            Read(RunRounds(c, after).log).settled == Read(RunRounds(c, before).log).settled + [(r.poll.delivery.tag, NACK_REQUEUE)]
            <==> Hands(c, RunRounds(c, before), r) && !stages[k].end.Finished?
  {
    var s, r := RunRounds(c, Rounds(stages[..k])), stages[k].round;
    assert Rounds(stages[..k + 1])[..k] == Rounds(stages[..k]);
    StepEffect(c, s, r);
    var verdict := VerdictOf(c, s, r.poll.delivery, r);
    var settled := Read(s.log).settled;
    assert (settled + [(r.poll.delivery.tag, verdict)])[|settled|] == (r.poll.delivery.tag, verdict);
    assert (settled + [(r.poll.delivery.tag, NACK_REQUEUE)])[|settled|] == (r.poll.delivery.tag, NACK_REQUEUE);
  }
}
