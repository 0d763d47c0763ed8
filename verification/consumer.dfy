/** The consume loop: obtain, de-duplicate, dispatch and settle, against a broker that may redeliver
    anything and a connection that may fail at any point. */
module Consumer {
  import opened Common
  import opened IdempotencyCache
  import opened Backoff

  // ---------- The environment ----------

  datatype ConsumeResult = ACK | NACK_REQUEUE | NACK_DROP

  /** A delivery body as the JSON parser sees it. BadKind is an object with a field, such as an array for
      msgId, on which the accessor throws. */
  datatype Body = NotJson | NotObject | BadKind | Object(msgId: string, kind: string, version: int)
  datatype Envelope = Envelope(msgId: string, kind: string)
  datatype Delivery = Delivery(tag: nat, routingKey: string, body: Body)

  datatype Parsed = Accepted(env: Envelope) | Rejected | Thrown

  function EnvelopeFrom(b: Body): (r: Parsed)
    ensures r.Accepted? <==> b.Object? && b.msgId != "" && b.kind != "" && b.version > 0
    ensures r.Accepted? ==> r.env.msgId == b.msgId && r.env.kind == b.kind
    ensures r.Thrown? <==> b.BadKind?
  {
    match b
    case Object(msgId, kind, version) =>
      if msgId != "" && kind != "" && version > 0 then Accepted(Envelope(msgId, kind)) else Rejected
    case BadKind => Thrown
    case _ => Rejected
  }

  datatype Poll = Timeout | Broken | Got(delivery: Delivery)

  /** Everything the outside world decides in one iteration: whether a needed connection attempt
      succeeds, what the broker returns, whether a stop is seen after that, the clock, what the
      dispatched handler reports (an exception or a 5 s wait reports NACK_REQUEUE), and whether the
      final Ack or Nack reaches the broker. */
  datatype Round = Round(connectOk: bool, poll: Poll, stop: bool, now: int, verdict: ConsumeResult, settleOk: bool)

  datatype Config = Config(capacity: nat, ttl: int, initialBackoff: int, maxBackoff: int)

  // ---------- The loop as a function ----------

  datatype Outcome = Ok | Fail | Dup

  datatype Event =
    | ConnectFailed(sleptMs: int)
    | Idle
    | ConnectionClosed
    | Stopped
    | Crashed
    | Obtained(tag: nat)
    | Dispatched(mark: Mark)
    | Settled(tag: nat, verdict: ConsumeResult)
    | Counted(tag: nat, series: string, outcome: Outcome)

  /** `stopped`: a stop was seen, or an exception that nothing catches has ended the process. */
  datatype State = State(connected: bool, backoff: int, entries: seq<Entry>, log: seq<Event>, stopped: bool)

  function Initial(c: Config): State {
    State(false, c.initialBackoff, [], [], false)
  }

  function Handle(c: Config, s: State, d: Delivery, r: Round): State {
    var log := s.log + [Obtained(d.tag)];
    match EnvelopeFrom(d.body)
    case Thrown => s.(stopped := true, log := log + [Crashed])
    case Rejected => s.(log := log + [Counted(d.tag, d.routingKey, Fail)] + [Settled(d.tag, ACK)])
    case Accepted(env) =>
      var (es, accepted) := Marked(s.entries, c.capacity, c.ttl, env.msgId, r.now);
      if !accepted then
        s.(entries := es, log := log + [Counted(d.tag, env.kind, Dup)] + [Settled(d.tag, ACK)])
      else
        s.(entries := es, connected := r.settleOk,
           log := log + [Dispatched(Mark(env.msgId, r.now))] + [Settled(d.tag, r.verdict)]
                  + [Counted(d.tag, env.kind, if r.verdict.ACK? then Ok else Fail)])
  }

  function Step(c: Config, s: State, r: Round): State {
    if s.stopped then s
    else if !s.connected && !r.connectOk then
      s.(backoff := Min(c.maxBackoff, s.backoff * 2), log := s.log + [ConnectFailed(s.backoff)])
    else
      var up := s.(connected := true, backoff := c.initialBackoff);
      if r.stop then
        up.(stopped := true, log := (if r.poll.Got? then s.log + [Obtained(r.poll.delivery.tag)] else s.log) + [Stopped])
      else match r.poll
        case Timeout => up.(log := s.log + [Idle])
        case Broken => up.(connected := false, log := s.log + [ConnectionClosed])
        case Got(d) => Handle(c, up, d, r)
  }

  function RunRounds(c: Config, rounds: seq<Round>): State {
    if rounds == [] then Initial(c)
    else Step(c, RunRounds(c, rounds[..|rounds| - 1]), rounds[|rounds| - 1])
  }

  // ---------- The loop as the program runs it ----------

  class MqConsumer {
    const initialBackoff: int32
    const maxBackoff: int32
    const cache: LruIdempotencyCache
    var connected: bool
    var backoff: int32
    ghost var log: seq<Event>
    var stopped: bool

    constructor (initialBackoff: int32, maxBackoff: int32)
      ensures fresh(cache) && cache.Valid() && View() == Initial(Cfg())
      ensures Cfg() == Config(100000, 86400000, initialBackoff as int, maxBackoff as int)
    {
      this.initialBackoff, this.maxBackoff := initialBackoff, maxBackoff;
      cache := new LruIdempotencyCache(100000, 24 * 3600 * 1000);
      connected, backoff, log, stopped := false, initialBackoff, [], false;
    }

    ghost function Cfg(): Config {
      Config(cache.capacity, cache.ttlMs, initialBackoff as int, maxBackoff as int)
    }

    ghost function View(): State
      reads this, cache
    {
      State(connected, backoff as int, cache.Entries(), log, stopped)
    }

    method HandleDelivery(d: Delivery, r: Round)
      requires cache.Valid() && FitsInt64(r.now + cache.ttlMs)
      modifies this, cache
      ensures cache.Valid()
      ensures View() == Handle(Cfg(), old(View()), d, r)
    {
      log := log + [Obtained(d.tag)];
      var parsed := EnvelopeFrom(d.body);
      if parsed.Thrown? {
        log := log + [Crashed];
        stopped := true;
        return;
      }
      if parsed.Rejected? {
        log := log + [Counted(d.tag, d.routingKey, Fail)];
        log := log + [Settled(d.tag, ACK)];
        return;
      }
      var env := parsed.env;
      var accepted := cache.TryMark(env.msgId, r.now);
      if !accepted {
        log := log + [Counted(d.tag, env.kind, Dup)];
        log := log + [Settled(d.tag, ACK)];
        return;
      }
      log := log + [Dispatched(Mark(env.msgId, r.now))];
      log := log + [Settled(d.tag, r.verdict)];
      connected := r.settleOk;
      log := log + [Counted(d.tag, env.kind, if r.verdict.ACK? then Ok else Fail)];
    }

    /** The loop of Run, driven by any rounds: no doubling of the delay leaves the 32-bit range. */
    method Run(rounds: seq<Round>)
      requires cache.Valid() && View() == Initial(Cfg())
      requires 0 <= initialBackoff as int < 0x4000_0000 && 0 <= maxBackoff as int < 0x4000_0000
      requires forall r | r in rounds :: FitsInt64(r.now + cache.ttlMs)
      modifies this, cache
      ensures cache.Valid()
      ensures View() == RunRounds(Cfg(), rounds)
    {
      var i := 0;
      assert rounds[..0] == [];
      while i < |rounds|
        invariant 0 <= i <= |rounds| && cache.Valid()
        invariant 0 <= backoff as int < 0x4000_0000
        invariant View() == RunRounds(Cfg(), rounds[..i])
      {
        var r := rounds[i];
        assert rounds[..i + 1][..i] == rounds[..i];
        i := i + 1;
        if stopped {
          continue;
        }
        if !connected && !r.connectOk {
          log := log + [ConnectFailed(backoff as int)];
          backoff := Min32(maxBackoff, backoff * 2);
          continue;
        }
        connected := true;
        backoff := initialBackoff;
        if r.stop {
          log := (if r.poll.Got? then log + [Obtained(r.poll.delivery.tag)] else log) + [Stopped];
          stopped := true;
          continue;
        }
        match r.poll {
          case Timeout =>
            log := log + [Idle];
          case Broken =>
            log := log + [ConnectionClosed];
            connected := false;
          case Got(d) =>
            HandleDelivery(d, r);
        }
      }
      assert rounds[..|rounds|] == rounds;
    }
  }

  // ---------- Reading a log ----------

  datatype Sleep = Sleep(ms: int, failuresBefore: nat)

  /** What a log says: tags obtained, tags settled with their verdicts, tags counted with their outcomes,
      marks dispatched, reconnect sleeps, and the number of connection failures at its end. */
  datatype Ledger = Ledger(obtained: seq<nat>, settled: seq<(nat, ConsumeResult)>, counted: seq<(nat, Outcome)>,
                           marks: seq<Mark>, sleeps: seq<Sleep>, failures: nat)

  function Note(l: Ledger, e: Event): Ledger {
    match e
    case ConnectFailed(ms) => l.(sleeps := l.sleeps + [Sleep(ms, l.failures)], failures := l.failures + 1)
    case Obtained(tag) => l.(obtained := l.obtained + [tag], failures := 0)
    case Dispatched(mark) => l.(marks := l.marks + [mark], failures := 0)
    case Settled(tag, verdict) => l.(settled := l.settled + [(tag, verdict)], failures := 0)
    case Counted(tag, _, outcome) => l.(counted := l.counted + [(tag, outcome)], failures := 0)
    case _ => l.(failures := 0)
  }

  function Read(log: seq<Event>): Ledger {
    if log == [] then Ledger([], [], [], [], [], 0) else Note(Read(log[..|log| - 1]), log[|log| - 1])
  }

  lemma ReadSnoc(log: seq<Event>, e: Event)
    ensures Read(log + [e]) == Note(Read(log), e)
  {
    assert (log + [e])[..|log|] == log;
  }

  lemma ReadThree(log: seq<Event>, e: Event, f: Event, g: Event)
    ensures Read(log + [e] + [f] + [g]) == Note(Note(Note(Read(log), e), f), g)
  {
    ReadSnoc(log, e);
    ReadSnoc(log + [e], f);
    ReadSnoc(log + [e] + [f], g);
  }

  function Accepts(c: Config, s: State, d: Delivery, now: int): bool {
    var env := EnvelopeFrom(d.body);
    env.Accepted? && Marked(s.entries, c.capacity, c.ttl, env.env.msgId, now).1
  }

  /** How a delivery ends: the handler's verdict if it was dispatched, otherwise an Ack. */
  function VerdictOf(c: Config, s: State, d: Delivery, r: Round): ConsumeResult {
    if Accepts(c, s, d, r.now) then r.verdict else ACK
  }

  function OutcomeOf(c: Config, s: State, d: Delivery, r: Round): Outcome {
    if Accepts(c, s, d, r.now) then (if r.verdict.ACK? then Ok else Fail)
    else if EnvelopeFrom(d.body).Accepted? then Dup else Fail
  }

  lemma AcceptedEffect(log: seq<Event>, tag: nat, m: Mark, v: ConsumeResult, series: string, o: Outcome)
    ensures var l := Read(log);
            Read(log + [Obtained(tag)] + [Dispatched(m)] + [Settled(tag, v)] + [Counted(tag, series, o)])
            == Ledger(l.obtained + [tag], l.settled + [(tag, v)], l.counted + [(tag, o)], l.marks + [m], l.sleeps, 0)
  {
    ReadThree(log, Obtained(tag), Dispatched(m), Settled(tag, v));
    ReadSnoc(log + [Obtained(tag)] + [Dispatched(m)] + [Settled(tag, v)], Counted(tag, series, o));
  }

  lemma RefusedEffect(log: seq<Event>, tag: nat, series: string, o: Outcome)
    ensures var l := Read(log);
            Read(log + [Obtained(tag)] + [Counted(tag, series, o)] + [Settled(tag, ACK)])
            == Ledger(l.obtained + [tag], l.settled + [(tag, ACK)], l.counted + [(tag, o)], l.marks, l.sleeps, 0)
  {
    ReadThree(log, Obtained(tag), Counted(tag, series, o), Settled(tag, ACK));
  }

  /** Handling one delivery obtains it and, unless its body makes an accessor throw, settles and counts its
      tag once; it is dispatched iff accepted. */
  lemma HandleEffect(c: Config, s: State, d: Delivery, r: Round)
    ensures var l := Read(s.log);
            Read(Handle(c, s, d, r).log)
            == if d.body.BadKind? then l.(obtained := l.obtained + [d.tag], failures := 0)
               else Ledger(l.obtained + [d.tag], l.settled + [(d.tag, VerdictOf(c, s, d, r))], l.counted + [(d.tag, OutcomeOf(c, s, d, r))],
                           if Accepts(c, s, d, r.now) then l.marks + [Mark(d.body.msgId, r.now)] else l.marks, l.sleeps, 0)
  {
    match EnvelopeFrom(d.body)
    case Thrown =>
      ReadSnoc(s.log, Obtained(d.tag));
      ReadSnoc(s.log + [Obtained(d.tag)], Crashed);
    case Rejected => RefusedEffect(s.log, d.tag, d.routingKey, Fail);
    case Accepted(env) =>
      if Accepts(c, s, d, r.now) {
        AcceptedEffect(s.log, d.tag, Mark(d.body.msgId, r.now), r.verdict, env.kind, if r.verdict.ACK? then Ok else Fail);
      } else {
        RefusedEffect(s.log, d.tag, env.kind, Dup);
      }
  }

  predicate Connects(s: State, r: Round) {
    s.connected || r.connectOk
  }

  /** What one iteration adds to the ledger. */
  lemma StepEffect(c: Config, s: State, r: Round)
    requires !s.stopped
    ensures var l, s' := Read(s.log), Step(c, s, r);
            if !Connects(s, r) then
              Read(s'.log) == l.(sleeps := l.sleeps + [Sleep(s.backoff, l.failures)], failures := l.failures + 1)
            else if r.stop then
              Read(s'.log) == l.(obtained := if r.poll.Got? then l.obtained + [r.poll.delivery.tag] else l.obtained, failures := 0)
            else if r.poll.Got? then
              var d := r.poll.delivery;
              Read(s'.log)
              == if d.body.BadKind? then l.(obtained := l.obtained + [d.tag], failures := 0)
                 else Ledger(l.obtained + [d.tag], l.settled + [(d.tag, VerdictOf(c, s, d, r))], l.counted + [(d.tag, OutcomeOf(c, s, d, r))],
                             if Accepts(c, s, d, r.now) then l.marks + [Mark(d.body.msgId, r.now)] else l.marks, l.sleeps, 0)
            else Read(s'.log) == l.(failures := 0)
  {
    if !Connects(s, r) {
      ReadSnoc(s.log, ConnectFailed(s.backoff));
    } else if r.stop {
      ReadSnoc(s.log, Stopped);
      if r.poll.Got? {
        ReadSnoc(s.log, Obtained(r.poll.delivery.tag));
        ReadSnoc(s.log + [Obtained(r.poll.delivery.tag)], Stopped);
      }
    } else {
      match r.poll
      case Timeout => ReadSnoc(s.log, Idle);
      case Broken => ReadSnoc(s.log, ConnectionClosed);
      case Got(d) => HandleEffect(c, s.(connected := true, backoff := c.initialBackoff), d, r);
    }
  }

  // ---------- Every delivery is settled and counted exactly once ----------

  /** Outcomes and verdicts fit: what was counted ok or dup was acknowledged; only failures are not. */
  predicate Fits(verdict: ConsumeResult, outcome: Outcome) {
    (outcome != Fail ==> verdict.ACK?) && (!verdict.ACK? ==> outcome.Fail?)
  }

  /** Settlements and counts pair up with the deliveries obtained, from the first on. */
  ghost predicate Paired(l: Ledger) {
    && |l.counted| == |l.settled| <= |l.obtained|
    && (forall i | 0 <= i < |l.settled| :: l.settled[i].0 == l.counted[i].0 == l.obtained[i])
    && (forall i | 0 <= i < |l.settled| :: Fits(l.settled[i].1, l.counted[i].1))
  }

  lemma PairedNext(l: Ledger, l': Ledger, tag: nat, v: ConsumeResult, o: Outcome)
    requires Paired(l) && |l.obtained| == |l.settled| && Fits(v, o)
    requires l'.obtained == l.obtained + [tag] && l'.settled == l.settled + [(tag, v)] && l'.counted == l.counted + [(tag, o)]
    ensures Paired(l') && |l'.obtained| == |l'.settled|
  {
  }

  /** The delivery obtained in this iteration is never settled: it arrives together with a stop, or its body
      makes an accessor throw, which ends the process. */
  predicate Loses(s: State, r: Round) {
    !s.stopped && Connects(s, r) && r.poll.Got? && (r.stop || r.poll.delivery.body.BadKind?)
  }

  lemma StepSettles(c: Config, s: State, r: Round)
    requires Paired(Read(s.log)) && (!s.stopped ==> |Read(s.log).obtained| == |Read(s.log).settled|)
    ensures var l, l' := Read(s.log), Read(Step(c, s, r).log);
            && Paired(l') && (!Step(c, s, r).stopped ==> |l'.obtained| == |l'.settled|)
            && |l'.obtained| - |l'.settled| == |l.obtained| - |l.settled| + if Loses(s, r) then 1 else 0
  {
    if !s.stopped {
      StepEffect(c, s, r);
      if Connects(s, r) && r.poll.Got? && !Loses(s, r) {
        var d := r.poll.delivery;
        PairedNext(Read(s.log), Read(Step(c, s, r).log), d.tag, VerdictOf(c, s, d, r), OutcomeOf(c, s, d, r));
      }
    }
  }

  ghost predicate LosesNone(c: Config, rounds: seq<Round>) {
    forall k | 0 <= k < |rounds| :: !Loses(RunRounds(c, rounds[..k]), rounds[k])
  }

  lemma LosesNoneSnoc(c: Config, rounds: seq<Round>)
    requires rounds != []
    ensures var before := rounds[..|rounds| - 1];
            LosesNone(c, rounds) <==> LosesNone(c, before) && !Loses(RunRounds(c, before), rounds[|rounds| - 1])
  {
    var before := rounds[..|rounds| - 1];
    assert forall k | 0 <= k < |before| :: before[..k] == rounds[..k] && before[k] == rounds[k];
    if LosesNone(c, rounds) {
      forall k | 0 <= k < |before| ensures !Loses(RunRounds(c, before[..k]), before[k]) {
        assert !Loses(RunRounds(c, rounds[..k]), rounds[k]);
      }
    }
  }

  /** Over any run the deliveries settled, and those counted, are the deliveries obtained, each once and in
      order and with fitting verdicts, except for at most one: all of them are settled exactly when no
      delivery arrives together with a stop and none makes an accessor throw. */
  lemma {:induction false} EveryDeliverySettledOnce(c: Config, rounds: seq<Round>)
    ensures var s := RunRounds(c, rounds);
            var l := Read(s.log);
            && Paired(l)
            && |l.obtained| <= |l.settled| + (if s.stopped then 1 else 0)
            && (|l.settled| == |l.obtained| <==> LosesNone(c, rounds))
  {
    if rounds != [] {
      var before, r := rounds[..|rounds| - 1], rounds[|rounds| - 1];
      EveryDeliverySettledOnce(c, before);
      StepSettles(c, RunRounds(c, before), r);
      LosesNoneSnoc(c, rounds);
    }
  }

  /** A delivery that arrives together with the stop is never settled. */
  lemma StopLosesDelivery(c: Config, d: Delivery, now: int, v: ConsumeResult, ok: bool)
    ensures RunRounds(c, [Round(true, Got(d), true, now, v, ok)]).log == [Obtained(d.tag), Stopped]
  {
    assert [Round(true, Got(d), true, now, v, ok)][..0] == [];
  }

  /** Nor is one whose body makes an accessor throw. */
  lemma BadKindLosesDelivery(c: Config, tag: nat, key: string, now: int, v: ConsumeResult, ok: bool)
    ensures RunRounds(c, [Round(true, Got(Delivery(tag, key, BadKind)), false, now, v, ok)]).log == [Obtained(tag), Crashed]
  {
    assert [Round(true, Got(Delivery(tag, key, BadKind)), false, now, v, ok)][..0] == [];
  }

  // ---------- At most one dispatch per message ----------

  function Dispatches(c: Config, rounds: seq<Round>): seq<Mark> {
    Read(RunRounds(c, rounds).log).marks
  }

  function Clock(start: int, rounds: seq<Round>): int {
    if rounds == [] then start else rounds[|rounds| - 1].now
  }

  ghost predicate ClockForward(start: int, rounds: seq<Round>) {
    rounds == [] || (ClockForward(start, rounds[..|rounds| - 1]) && Clock(start, rounds[..|rounds| - 1]) <= Clock(start, rounds))
  }

  /** What one iteration does to the filter and to the dispatches. */
  lemma StepMarks(c: Config, s: State, r: Round)
    requires !s.stopped
    ensures var h, s' := Read(s.log).marks, Step(c, s, r);
            if Connects(s, r) && !r.stop && r.poll.Got? && EnvelopeFrom(r.poll.delivery.body).Accepted? then
              var key := r.poll.delivery.body.msgId;
              var (es, ok) := Marked(s.entries, c.capacity, c.ttl, key, r.now);
              key != "" && s'.entries == es && Read(s'.log).marks == (if ok then h + [Mark(key, r.now)] else h)
            else
              s'.entries == s.entries && Read(s'.log).marks == h
  {
    StepEffect(c, s, r);
  }

  lemma StepKeepsFaithful(c: Config, s: State, r: Round, sweptAt: int) returns (sweptAt': int)
    requires !s.stopped && 0 < c.ttl && sweptAt <= r.now
    requires Faithful(s.entries, Read(s.log).marks, c.capacity, c.ttl, sweptAt)
    ensures sweptAt' <= r.now
    ensures Faithful(Step(c, s, r).entries, Read(Step(c, s, r).log).marks, c.capacity, c.ttl, sweptAt')
  {
    sweptAt' := sweptAt;
    StepMarks(c, s, r);
    if Connects(s, r) && !r.stop && r.poll.Got? && EnvelopeFrom(r.poll.delivery.body).Accepted? {
      sweptAt' := r.now;
      MarkKeepsFaithful(s.entries, Read(s.log).marks, c.capacity, c.ttl, sweptAt, r.poll.delivery.body.msgId, r.now);
    }
  }

  /** The marks the filter has accepted are exactly the marks that were dispatched, so the filter's
      invariant speaks about dispatches. */
  lemma {:induction false} FilterFollowsDispatches(c: Config, start: int, rounds: seq<Round>) returns (sweptAt: int)
    requires ClockForward(start, rounds) && 0 < c.ttl
    ensures sweptAt <= Clock(start, rounds)
    ensures Faithful(RunRounds(c, rounds).entries, Dispatches(c, rounds), c.capacity, c.ttl, sweptAt)
  {
    if rounds == [] {
      return start;
    }
    var before := rounds[..|rounds| - 1];
    sweptAt := FilterFollowsDispatches(c, start, before);
    var s := RunRounds(c, before);
    if !s.stopped {
      sweptAt := StepKeepsFaithful(c, s, rounds[|rounds| - 1], sweptAt);
    }
  }

  /** At-most-once: whatever the broker redelivers and however often the connection fails, two
      dispatches of one message are a full ttl apart, or at least `capacity` other messages with
      pairwise distinct ids were dispatched strictly between them. */
  lemma AtMostOnceDispatch(c: Config, start: int, rounds: seq<Round>, i: nat, j: nat)
    requires ClockForward(start, rounds) && 0 < c.ttl
    requires i < j < |Dispatches(c, rounds)|
    ensures var marks := Dispatches(c, rounds);
            marks[i].key == marks[j].key ==>
              || marks[j].at >= marks[i].at + c.ttl
              || (i < j - c.capacity && DistinctOthers(marks, j - c.capacity, j, marks[j].key))
  {
    var _ := FilterFollowsDispatches(c, start, rounds);
  }

  /** A message is not retried inside the window: a redelivery is acknowledged and counted as a duplicate,
      without a dispatch, exactly when one of the newest `capacity` dispatches carries its id and is
      younger than ttl, even if that dispatch ended in NACK_REQUEUE. */
  lemma RedeliveryInWindowIsDuplicate(c: Config, start: int, rounds: seq<Round>, r: Round, env: Envelope)
    requires ClockForward(start, rounds + [r]) && 0 < c.ttl
    requires !RunRounds(c, rounds).stopped && Connects(RunRounds(c, rounds), r) && !r.stop
    requires r.poll.Got? && EnvelopeFrom(r.poll.delivery.body) == Accepted(env)
    ensures var before, after := RunRounds(c, rounds), RunRounds(c, rounds + [r]);
            var tag := r.poll.delivery.tag;
            after.log == before.log + [Obtained(tag)] + [Counted(tag, env.kind, Dup)] + [Settled(tag, ACK)]
            <==> Blocked(Dispatches(c, rounds), c.capacity, c.ttl, env.msgId, r.now)
  {
    assert (rounds + [r])[..|rounds|] == rounds;
    var sweptAt := FilterFollowsDispatches(c, start, rounds);
    var s := RunRounds(c, rounds);
    MarkKeepsFaithful(s.entries, Dispatches(c, rounds), c.capacity, c.ttl, sweptAt, env.msgId, r.now);
    AcceptedLogIsLonger(c, s, r);
  }

  /** A requeued message is not retried: dispatched, answered NACK_REQUEUE and redelivered within ttl, it is
      acknowledged as a duplicate. */
  lemma RequeuedIsNotRetried(c: Config, first: Delivery, again: Delivery, env: Envelope, t0: int, t1: int, v: ConsumeResult)
    requires 0 < c.capacity && t0 <= t1 < t0 + c.ttl
    requires EnvelopeFrom(first.body) == Accepted(env) == EnvelopeFrom(again.body)
    ensures RunRounds(c, [Round(true, Got(first), false, t0, NACK_REQUEUE, true), Round(true, Got(again), false, t1, v, true)]).log
         == [Obtained(first.tag), Dispatched(Mark(env.msgId, t0)), Settled(first.tag, NACK_REQUEUE), Counted(first.tag, env.kind, Fail),
             Obtained(again.tag), Counted(again.tag, env.kind, Dup), Settled(again.tag, ACK)]
  {
    var r0, r1 := Round(true, Got(first), false, t0, NACK_REQUEUE, true), Round(true, Got(again), false, t1, v, true);
    assert [r0][..0] == [] && [r0, r1][..1] == [r0];
    var e := Entry(env.msgId, t0 + c.ttl);
    assert [e] + [] == [e];
    assert Marked([], c.capacity, c.ttl, env.msgId, t0) == ([e], true);
    assert Marked([e], c.capacity, c.ttl, env.msgId, t1) == ([e], false);
    assert RunRounds(c, [r0]) == Step(c, Initial(c), r0);
  }

  lemma AcceptedLogIsLonger(c: Config, s: State, r: Round)
    requires !s.stopped && Connects(s, r) && !r.stop && r.poll.Got?
    ensures var env := EnvelopeFrom(r.poll.delivery.body);
            var tag := r.poll.delivery.tag;
            env.Accepted? ==>
              (Accepts(c, s, r.poll.delivery, r.now)
               <==> Step(c, s, r).log != s.log + [Obtained(tag)] + [Counted(tag, env.env.kind, Dup)] + [Settled(tag, ACK)])
  {
    if Accepts(c, s, r.poll.delivery, r.now) {
      assert |Step(c, s, r).log| == |s.log| + 4;
    }
  }

  // ---------- Reconnect delay ----------

  ghost predicate DelayFits(c: Config, backoff: int, l: Ledger) {
    && backoff == Delay(c.initialBackoff, c.maxBackoff, l.failures)
    && 0 <= backoff <= Max(c.initialBackoff, c.maxBackoff)
    && forall z | z in l.sleeps :: z.ms == Delay(c.initialBackoff, c.maxBackoff, z.failuresBefore)
  }

  lemma StepKeepsDelay(c: Config, s: State, r: Round)
    requires 0 <= c.initialBackoff && 0 <= c.maxBackoff && !s.stopped && DelayFits(c, s.backoff, Read(s.log))
    ensures DelayFits(c, Step(c, s, r).backoff, Read(Step(c, s, r).log))
  {
    NextDelay(c.initialBackoff, c.maxBackoff, Read(s.log).failures);
    NextDelay(c.initialBackoff, c.maxBackoff, Read(s.log).failures + 1);
    StepEffect(c, s, r);
  }

  /** Every sleep, and the delay held at any time, is min(max, initial * 2^k) for the k >= 1 failures
      directly before it (initial for k = 0), and the delay stays within max(initial, max). */
  lemma {:induction false} BackoffFollowsFailures(c: Config, rounds: seq<Round>)
    requires 0 <= c.initialBackoff && 0 <= c.maxBackoff
    ensures var s := RunRounds(c, rounds);
            var l := Read(s.log);
            && s.backoff == Delay(c.initialBackoff, c.maxBackoff, l.failures)
            && 0 <= s.backoff <= Max(c.initialBackoff, c.maxBackoff)
            && forall z | z in l.sleeps :: z.ms == Delay(c.initialBackoff, c.maxBackoff, z.failuresBefore)
  {
    if rounds != [] {
      var before := rounds[..|rounds| - 1];
      BackoffFollowsFailures(c, before);
      var s := RunRounds(c, before);
      if !s.stopped {
        StepKeepsDelay(c, s, rounds[|rounds| - 1]);
      }
    }
  }

  // ---------- What every round does, from rounds and log alone ----------

  ghost predicate EndsIn(log: seq<Event>, e: Event) {
    log != [] && log[|log| - 1] == e
  }

  /** A connection must be made first: nothing has happened yet, the last attempt failed, the connection was
      closed, or the last round dispatched a message and could not settle it. */
  ghost predicate NeedsConnection(c: Config, rounds: seq<Round>) {
    rounds == [] ||
    (var log := RunRounds(c, rounds).log;
     || EndsIn(log, ConnectionClosed)
     || (log != [] && log[|log| - 1].ConnectFailed?)
     || (Dispatches(c, rounds) != Dispatches(c, rounds[..|rounds| - 1]) && !rounds[|rounds| - 1].settleOk))
  }

  lemma StepConnected(c: Config, s: State, r: Round)
    requires !s.stopped && !Step(c, s, r).stopped
    ensures var s' := Step(c, s, r);
            !s'.connected <==>
              || EndsIn(s'.log, ConnectionClosed)
              || (s'.log != [] && s'.log[|s'.log| - 1].ConnectFailed?)
              || (Read(s'.log).marks != Read(s.log).marks && !r.settleOk)
  {
    StepMarks(c, s, r);
  }

  ghost predicate Ended(log: seq<Event>) {
    EndsIn(log, Stopped) || EndsIn(log, Crashed)
  }

  lemma StepStops(c: Config, s: State, r: Round)
    requires !s.stopped
    ensures Step(c, s, r).stopped <==> Ended(Step(c, s, r).log)
  {
  }

  lemma {:induction false} StoppedIff(c: Config, rounds: seq<Round>)
    ensures RunRounds(c, rounds).stopped <==> Ended(RunRounds(c, rounds).log)
  {
    if rounds != [] {
      var before := rounds[..|rounds| - 1];
      StoppedIff(c, before);
      if !RunRounds(c, before).stopped {
        StepStops(c, RunRounds(c, before), rounds[|rounds| - 1]);
      }
    }
  }

  lemma ConnectedIff(c: Config, rounds: seq<Round>)
    requires !RunRounds(c, rounds).stopped
    ensures RunRounds(c, rounds).connected <==> !NeedsConnection(c, rounds)
  {
    if rounds != [] {
      StepConnected(c, RunRounds(c, rounds[..|rounds| - 1]), rounds[|rounds| - 1]);
    }
  }

  lemma DeliveryAdds(c: Config, s: State, d: Delivery, r: Round, blocked: bool)
    requires d.body.Object? && d.body.msgId != "" && d.body.kind != "" && d.body.version > 0 ==>
               (Marked(s.entries, c.capacity, c.ttl, d.body.msgId, r.now).1 <==> !blocked)
    ensures var log, log' := s.log, Handle(c, s, d, r).log;
            match d.body
            case BadKind => log' == log + [Obtained(d.tag), Crashed]
            case Object(msgId, kind, version) =>
              if msgId == "" || kind == "" || version <= 0 then
                log' == log + [Obtained(d.tag), Counted(d.tag, d.routingKey, Fail), Settled(d.tag, ACK)]
              else if blocked then log' == log + [Obtained(d.tag), Counted(d.tag, kind, Dup), Settled(d.tag, ACK)]
              else log' == log + [Obtained(d.tag), Dispatched(Mark(msgId, r.now)), Settled(d.tag, r.verdict),
                                  Counted(d.tag, kind, if r.verdict == ACK then Ok else Fail)]
            case _ => log' == log + [Obtained(d.tag), Counted(d.tag, d.routingKey, Fail), Settled(d.tag, ACK)]
  {
  }

  /** Polled from the start, with a connection: everything but deliveries. */
  lemma QuietRoundAdds(c: Config, s: State, r: Round)
    requires !s.stopped && Connects(s, r)
    ensures var log, log' := s.log, Step(c, s, r).log;
            if r.stop then log' == log + (if r.poll.Got? then [Obtained(r.poll.delivery.tag)] else []) + [Stopped]
            else match r.poll
              case Timeout => log' == log + [Idle]
              case Broken => log' == log + [ConnectionClosed]
              case Got(d) => log' == Handle(c, s.(connected := true, backoff := c.initialBackoff), d, r).log
  {
  }

  /** One more round of any run, from the rounds, the log and the dispatches before it. Nothing follows a stop
      or a crash. Without a connection a failed attempt is all that happens, after the delay in force; with one
      the broker is polled, whatever connectOk is. A refused body is counted failed under its routing key and
      acknowledged; a message dispatched within the window is counted a duplicate and acknowledged; any other
      is dispatched, settled with the handler's verdict and counted ok iff that is ACK. */
  lemma RoundAdds(c: Config, start: int, rounds: seq<Round>, r: Round)
    requires ClockForward(start, rounds + [r]) && 0 < c.ttl
    ensures var log, log' := RunRounds(c, rounds).log, RunRounds(c, rounds + [r]).log;
            if Ended(log) then log' == log
            else if NeedsConnection(c, rounds) && !r.connectOk then log' == log + [ConnectFailed(RunRounds(c, rounds).backoff)]
            else if r.stop then log' == log + (if r.poll.Got? then [Obtained(r.poll.delivery.tag)] else []) + [Stopped]
            else match r.poll
              case Timeout => log' == log + [Idle]
              case Broken => log' == log + [ConnectionClosed]
              case Got(d) =>
                match d.body
                case BadKind => log' == log + [Obtained(d.tag), Crashed]
                case Object(msgId, kind, version) =>
                  if msgId == "" || kind == "" || version <= 0 then
                    log' == log + [Obtained(d.tag), Counted(d.tag, d.routingKey, Fail), Settled(d.tag, ACK)]
                  else if Blocked(Dispatches(c, rounds), c.capacity, c.ttl, msgId, r.now) then
                    log' == log + [Obtained(d.tag), Counted(d.tag, kind, Dup), Settled(d.tag, ACK)]
                  else
                    log' == log + [Obtained(d.tag), Dispatched(Mark(msgId, r.now)), Settled(d.tag, r.verdict),
                                   Counted(d.tag, kind, if r.verdict == ACK then Ok else Fail)]
                case _ => log' == log + [Obtained(d.tag), Counted(d.tag, d.routingKey, Fail), Settled(d.tag, ACK)]
  {
    assert (rounds + [r])[..|rounds|] == rounds;
    StoppedIff(c, rounds);
    var s := RunRounds(c, rounds);
    if s.stopped {
      return;
    }
    ConnectedIff(c, rounds);
    if Connects(s, r) {
      QuietRoundAdds(c, s, r);
      if !r.stop && r.poll.Got? {
        var d := r.poll.delivery;
        var blocked := d.body.Object? && Blocked(Dispatches(c, rounds), c.capacity, c.ttl, d.body.msgId, r.now);
        if d.body.Object? {
          var sweptAt := FilterFollowsDispatches(c, start, rounds);
          MarkKeepsFaithful(s.entries, Dispatches(c, rounds), c.capacity, c.ttl, sweptAt, d.body.msgId, r.now);
        }
        DeliveryAdds(c, s.(connected := true, backoff := c.initialBackoff), d, r, blocked);
      }
    }
  }

  /** A connection that broke is not used again: the next failed attempt is reported, and nothing polled. */
  lemma BrokenReconnects(c: Config, d: Delivery)
    ensures RunRounds(c, [Round(true, Broken, false, 0, ACK, true), Round(false, Got(d), false, 0, ACK, true)]).log
         == [ConnectionClosed, ConnectFailed(c.initialBackoff)]
  {
    var r0, r1 := Round(true, Broken, false, 0, ACK, true), Round(false, Got(d), false, 0, ACK, true);
    assert [r0][..0] == [] && [r0, r1][..1] == [r0];
    assert RunRounds(c, [r0]) == State(false, c.initialBackoff, [], [ConnectionClosed], false);
  }
}
