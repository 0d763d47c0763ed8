/** The bounded publish queue: producers append under a lock, one worker pops the front under the same
    lock and then tries to send it. Each lock-protected section is one step. */
module Publisher {
  import opened Common
  import opened Backoff

  datatype Payload =
    | UserStatus(userId: nat)
    | Receipt(messageId: int, receiverId: nat)
    | NewMessage(clientMsgId: string, conversationId: int, senderId: nat, content: string)

  datatype Task = Task(routingKey: string, payload: Payload, priority: nat)

  /** How the worker disposed of a popped task: no connection, send failed, or sent. */
  datatype Fate = Unsent | SendFailed | Sent
  datatype Settlement = Settlement(task: Task, fate: Fate)

  datatype Config = Config(capacity: nat, initialBackoff: int, maxBackoff: int)

  datatype State = State(
    queue: seq<Task>, inFlight: Option<Task>, connected: bool, backoff: int,
    okCount: nat, failCount: nat,
    offered: seq<Task>, rejected: nat, accepted: seq<Task>, settled: seq<Settlement>)

  function Initial(c: Config): State {
    State([], None, false, c.initialBackoff, 0, 0, [], 0, [], [])
  }

  // ---------- The three atomic steps ----------

  datatype Action = Publish(task: Task) | Fetch | Deliver(connectOk: bool, sendOk: bool)

  function Enqueue(c: Config, s: State, t: Task): State {
    if |s.queue| >= c.capacity then s.(offered := s.offered + [t], rejected := s.rejected + 1, failCount := s.failCount + 1)
    else s.(offered := s.offered + [t], queue := s.queue + [t], accepted := s.accepted + [t])
  }

  /** The worker takes the front task; it takes another only once the one in flight is disposed of. */
  function Dequeue(s: State): State {
    if s.inFlight.Some? || s.queue == [] then s
    else s.(inFlight := Some(s.queue[0]), queue := s.queue[1..])
  }

  function Dispose(c: Config, s: State, connectOk: bool, sendOk: bool): State {
    if s.inFlight.None? then s
    else
      var done := s.(inFlight := None);
      if !s.connected && !connectOk then
        done.(failCount := s.failCount + 1, backoff := Min(c.maxBackoff, s.backoff * 2),
              settled := s.settled + [Settlement(s.inFlight.value, Unsent)])
      else if !sendOk then
        done.(failCount := s.failCount + 1, backoff := c.initialBackoff, connected := false,
              settled := s.settled + [Settlement(s.inFlight.value, SendFailed)])
      else
        done.(okCount := s.okCount + 1, backoff := c.initialBackoff, connected := true,
              settled := s.settled + [Settlement(s.inFlight.value, Sent)])
  }

  function Step(c: Config, s: State, a: Action): State {
    match a
    case Publish(t) => Enqueue(c, s, t)
    case Fetch => Dequeue(s)
    case Deliver(connectOk, sendOk) => Dispose(c, s, connectOk, sendOk)
  }

  /** Any interleaving of producers and worker. */
  function RunActions(c: Config, s: State, actions: seq<Action>): State {
    if actions == [] then s
    else Step(c, RunActions(c, s, actions[..|actions| - 1]), actions[|actions| - 1])
  }

  // ---------- The publisher object ----------

  /** One pass of the worker loop: what producers publish before the pop and while the popped task is in
      flight, and how connecting and sending turn out. */
  datatype Round = Round(before: seq<Task>, during: seq<Task>, connectOk: bool, sendOk: bool)

  function Arrivals(ts: seq<Task>): seq<Action> {
    seq(|ts|, i requires 0 <= i < |ts| => Publish(ts[i]))
  }

  function Schedule(rounds: seq<Round>): seq<Action> {
    if rounds == [] then []
    else
      var r := rounds[|rounds| - 1];
      Schedule(rounds[..|rounds| - 1]) + Arrivals(r.before) + [Fetch] + Arrivals(r.during) + [Deliver(r.connectOk, r.sendOk)]
  }

  lemma {:induction false} RunAppend(c: Config, s: State, a: seq<Action>, b: seq<Action>)
    ensures RunActions(c, s, a + b) == RunActions(c, RunActions(c, s, a), b)
  {
    if b == [] {
      assert a + b == a;
    } else {
      assert (a + b)[..|a + b| - 1] == a + b[..|b| - 1];
      RunAppend(c, s, a, b[..|b| - 1]);
    }
  }

  /** One pass of the worker with no arrivals takes the front task, if any, and disposes of it. */
  lemma PassTakesFront(c: Config, s: State, connectOk: bool, sendOk: bool)
    requires s.inFlight.None?
    ensures var s' := RunActions(c, s, Schedule([Round([], [], connectOk, sendOk)]));
            && s'.inFlight.None?
            && (if s.queue == [] then s' == s
                else && s.queue == [s.queue[0]] + s'.queue && |s'.settled| == |s.settled| + 1
                     && s'.settled == s.settled + [Settlement(s.queue[0], s'.settled[|s.settled|].fate)])
  {
    var a := [Fetch, Deliver(connectOk, sendOk)];
    assert Schedule([Round([], [], connectOk, sendOk)]) == a by {
      assert [Round([], [], connectOk, sendOk)][..0] == [];
    }
    assert a[..1] == [Fetch] && a[..1][..0] == [];
    assert RunActions(c, s, a[..1]) == Dequeue(s);
  }

  class MqPublisher {
    const capacity: nat
    const initialBackoff: int32
    const maxBackoff: int32
    var queue: seq<Task>
    var inFlight: Option<Task>
    var connected: bool
    var backoff: int32
    var okCount: nat
    var failCount: nat
    ghost var offered: seq<Task>
    ghost var rejected: nat
    ghost var accepted: seq<Task>
    ghost var settled: seq<Settlement>

    constructor (capacity: nat, initialBackoff: int32, maxBackoff: int32)
      requires 0 <= initialBackoff as int < 0x4000_0000 && 0 <= maxBackoff as int < 0x4000_0000
      ensures Valid() && View() == Initial(Cfg())
      ensures Cfg() == Config(capacity, initialBackoff as int, maxBackoff as int)
    {
      this.capacity, this.initialBackoff, this.maxBackoff := capacity, initialBackoff, maxBackoff;
      queue, inFlight, connected, backoff, okCount, failCount := [], None, false, initialBackoff, 0, 0;
      offered, rejected, accepted, settled := [], 0, [], [];
    }

    ghost function Cfg(): Config {
      Config(capacity, initialBackoff as int, maxBackoff as int)
    }

    /** The delays are small enough that doubling one stays a 32-bit number. */
    ghost predicate Valid()
      reads this
    {
      && 0 <= initialBackoff as int < 0x4000_0000
      && 0 <= maxBackoff as int < 0x4000_0000
      && 0 <= backoff as int < 0x4000_0000
    }

    ghost function View(): State
      reads this
    {
      State(queue, inFlight, connected, backoff as int, okCount, failCount, offered, rejected, accepted, settled)
    }

    method Publish(routingKey: string, payload: Payload, priority: nat) returns (ok: bool)
      requires Valid()
      modifies this
      ensures Valid()
      ensures View() == Enqueue(Cfg(), old(View()), Task(routingKey, payload, priority))
      ensures ok <==> |old(queue)| < capacity
      ensures queue == old(queue) + if ok then [Task(routingKey, payload, priority)] else []
      ensures offered == old(offered) + [Task(routingKey, payload, priority)]
    {
      offered := offered + [Task(routingKey, payload, priority)];
      if |queue| >= capacity {
        rejected := rejected + 1;
        failCount := failCount + 1;
        return false;
      }
      queue := queue + [Task(routingKey, payload, priority)];
      accepted := accepted + [Task(routingKey, payload, priority)];
      return true;
    }

    method FetchTask() returns (hasTask: bool)
      requires Valid() && inFlight.None?
      modifies this
      ensures Valid()
      ensures View() == Dequeue(old(View()))
      ensures hasTask <==> inFlight.Some?
    {
      hasTask := false;
      if queue != [] {
        inFlight := Some(queue[0]);
        queue := queue[1..];
        hasTask := true;
      }
    }

    method DeliverTask(connectOk: bool, sendOk: bool)
      requires Valid() && inFlight.Some?
      modifies this
      ensures Valid() && inFlight.None?
      ensures View() == Dispose(Cfg(), old(View()), connectOk, sendOk)
    {
      var task := inFlight.value;
      inFlight := None;
      if !connected && !connectOk {
        failCount := failCount + 1;
        settled := settled + [Settlement(task, Unsent)];
        backoff := Min32(maxBackoff, backoff * 2);
        return;
      }
      backoff := initialBackoff;
      if !sendOk {
        failCount := failCount + 1;
        settled := settled + [Settlement(task, SendFailed)];
        connected := false;
        return;
      }
      connected := true;
      okCount := okCount + 1;
      settled := settled + [Settlement(task, Sent)];
    }

    /** Producers publishing one task after another. */
    method Arrive(ts: seq<Task>)
      requires Valid()
      modifies this
      ensures Valid() && inFlight == old(inFlight)
      ensures View() == RunActions(Cfg(), old(View()), Arrivals(ts))
    {
      for i := 0 to |ts|
        invariant Valid() && inFlight == old(inFlight)
        invariant View() == RunActions(Cfg(), old(View()), Arrivals(ts[..i]))
      {
        assert Arrivals(ts[..i + 1])[..i] == Arrivals(ts[..i]);
        var _ := Publish(ts[i].routingKey, ts[i].payload, ts[i].priority);
      }
      assert ts[..|ts|] == ts;
    }

    /** The worker loop, with producers publishing at every point where they can. */
    method Run(rounds: seq<Round>)
      requires Valid() && inFlight.None?
      modifies this
      ensures Valid() && inFlight.None?
      ensures View() == RunActions(Cfg(), old(View()), Schedule(rounds))
    {
      ghost var start := View();
      for i := 0 to |rounds|
        invariant Valid() && inFlight.None?
        invariant View() == RunActions(Cfg(), start, Schedule(rounds[..i]))
      {
        var r := rounds[i];
        ghost var a := Schedule(rounds[..i]);
        assert rounds[..i + 1][..i] == rounds[..i];
        Arrive(r.before);
        RunAppend(Cfg(), start, a, Arrivals(r.before));
        a := a + Arrivals(r.before);
        var hasTask := FetchTask();
        assert (a + [Fetch])[..|a|] == a;
        a := a + [Fetch];
        Arrive(r.during);
        RunAppend(Cfg(), start, a, Arrivals(r.during));
        a := a + Arrivals(r.during);
        assert (a + [Deliver(r.connectOk, r.sendOk)])[..|a|] == a;
        if hasTask {
          DeliverTask(r.connectOk, r.sendOk);
        }
      }
      assert rounds[..|rounds|] == rounds;
    }
  }

  // ---------- Conservation and order ----------

  function Tasks(settled: seq<Settlement>): seq<Task> {
    seq(|settled|, i requires 0 <= i < |settled| => settled[i].task)
  }

  function FateCount(settled: seq<Settlement>, fate: Fate): nat {
    if settled == [] then 0
    else FateCount(settled[..|settled| - 1], fate) + if settled[|settled| - 1].fate == fate then 1 else 0
  }

  /** Positions, among the settled tasks, of those handed to the broker. */
  function HandedOver(settled: seq<Settlement>): seq<nat> {
    if settled == [] then []
    else HandedOver(settled[..|settled| - 1]) + if settled[|settled| - 1].fate.Unsent? then [] else [|settled| - 1]
  }

  function Held(s: State): seq<Task> {
    if s.inFlight.Some? then [s.inFlight.value] else []
  }

  ghost predicate Conserved(c: Config, s: State) {
    && s.accepted == Tasks(s.settled) + Held(s) + s.queue
    && |s.offered| == s.rejected + |s.accepted|
    && |s.queue| <= c.capacity
    && s.okCount == FateCount(s.settled, Sent)
    && s.failCount == s.rejected + FateCount(s.settled, Unsent) + FateCount(s.settled, SendFailed)
  }

  lemma SettleOne(settled: seq<Settlement>, t: Task, fate: Fate)
    ensures Tasks(settled + [Settlement(t, fate)]) == Tasks(settled) + [t]
    ensures forall f :: FateCount(settled + [Settlement(t, fate)], f) == FateCount(settled, f) + if f == fate then 1 else 0
    ensures TrailingUnsent(settled + [Settlement(t, fate)]) == if fate.Unsent? then TrailingUnsent(settled) + 1 else 0
  {
    assert (settled + [Settlement(t, fate)])[..|settled|] == settled;
  }

  lemma DisposeConserves(c: Config, s: State, connectOk: bool, sendOk: bool)
    requires Conserved(c, s)
    ensures Conserved(c, Dispose(c, s, connectOk, sendOk))
  {
    if s.inFlight.Some? {
      var fate := if !s.connected && !connectOk then Unsent else if !sendOk then SendFailed else Sent;
      SettleOne(s.settled, s.inFlight.value, fate);
      assert Dispose(c, s, connectOk, sendOk).settled == s.settled + [Settlement(s.inFlight.value, fate)];
    }
  }

  lemma EnqueueConserves(c: Config, s: State, t: Task)
    requires Conserved(c, s)
    ensures Conserved(c, Enqueue(c, s, t))
  {
    var a, q := Tasks(s.settled) + Held(s), s.queue;
    assert a + q + [t] == a + (q + [t]);
  }

  lemma DequeueConserves(c: Config, s: State)
    requires Conserved(c, s)
    ensures Conserved(c, Dequeue(s))
  {
    if s.inFlight.None? && s.queue != [] {
      var a, q := Tasks(s.settled), s.queue;
      assert a + [] + q == a + [q[0]] + q[1..];
    }
  }

  lemma StepConserves(c: Config, s: State, a: Action)
    requires Conserved(c, s)
    ensures Conserved(c, Step(c, s, a))
  {
    match a
    case Deliver(connectOk, sendOk) => DisposeConserves(c, s, connectOk, sendOk);
    case Publish(t) => EnqueueConserves(c, s, t);
    case Fetch => DequeueConserves(c, s);
  }

  lemma {:induction false} EveryFateCounted(settled: seq<Settlement>)
    ensures FateCount(settled, Unsent) + FateCount(settled, SendFailed) + FateCount(settled, Sent) == |settled|
  {
    if settled != [] {
      EveryFateCounted(settled[..|settled| - 1]);
    }
  }

  lemma {:induction false} AlwaysConserved(c: Config, actions: seq<Action>)
    ensures Conserved(c, RunActions(c, Initial(c), actions))
  {
    if actions != [] {
      AlwaysConserved(c, actions[..|actions| - 1]);
      StepConserves(c, RunActions(c, Initial(c), actions[..|actions| - 1]), actions[|actions| - 1]);
    }
  }

  /** The tasks of all Publish calls, in call order. */
  function Calls(actions: seq<Action>): seq<Task> {
    if actions == [] then []
    else
      var a := actions[|actions| - 1];
      Calls(actions[..|actions| - 1]) + if a.Publish? then [a.task] else []
  }

  lemma {:induction false} CallsAppend(a: seq<Action>, b: seq<Action>)
    ensures Calls(a + b) == Calls(a) + Calls(b)
  {
    if b == [] {
      assert a + b == a;
    } else {
      assert (a + b)[..|a + b| - 1] == a + b[..|b| - 1];
      CallsAppend(a, b[..|b| - 1]);
    }
  }

  lemma {:induction false} CallsOfArrivals(ts: seq<Task>)
    ensures Calls(Arrivals(ts)) == ts
  {
    if ts != [] {
      CallsOfArrivals(ts[..|ts| - 1]);
      assert Arrivals(ts)[..|ts| - 1] == Arrivals(ts[..|ts| - 1]);
    }
  }

  /** Everything that arrives during the worker's passes is offered, in order. */
  function Arriving(rounds: seq<Round>): seq<Task> {
    if rounds == [] then []
    else Arriving(rounds[..|rounds| - 1]) + rounds[|rounds| - 1].before + rounds[|rounds| - 1].during
  }

  lemma {:induction false} ScheduleOffersArrivals(rounds: seq<Round>)
    ensures Calls(Schedule(rounds)) == Arriving(rounds)
  {
    if rounds != [] {
      var before, r := rounds[..|rounds| - 1], rounds[|rounds| - 1];
      ScheduleOffersArrivals(before);
      var a := Schedule(before) + Arrivals(r.before) + [Fetch] + Arrivals(r.during);
      CallsAppend(Schedule(before), Arrivals(r.before));
      CallsAppend(Schedule(before) + Arrivals(r.before), [Fetch]);
      CallsAppend(Schedule(before) + Arrivals(r.before) + [Fetch], Arrivals(r.during));
      CallsAppend(a, [Deliver(r.connectOk, r.sendOk)]);
      CallsOfArrivals(r.before);
      CallsOfArrivals(r.during);
    }
  }

  /** Those that found room in the queue. */
  function WithRoom(c: Config, actions: seq<Action>): seq<Task> {
    if actions == [] then []
    else
      var before, a := actions[..|actions| - 1], actions[|actions| - 1];
      WithRoom(c, before) + if a.Publish? && |RunActions(c, Initial(c), before).queue| < c.capacity then [a.task] else []
  }

  /** What is offered and accepted over any interleaving: every call is offered, and exactly those that find
      room are accepted, in call order. */
  lemma {:induction false} AcceptedIsWithRoom(c: Config, actions: seq<Action>)
    ensures var s := RunActions(c, Initial(c), actions);
            s.offered == Calls(actions) && s.accepted == WithRoom(c, actions)
  {
    if actions != [] {
      AcceptedIsWithRoom(c, actions[..|actions| - 1]);
    }
  }

  /** Under every interleaving: each call of Publish is counted ok or fail, still queued, or in flight;
      the queue never exceeds its capacity; and the tasks that found room are, in order, those disposed of,
      the one in flight and those queued. */
  lemma {:induction false} PublishCallsConserved(c: Config, actions: seq<Action>)
    ensures var s := RunActions(c, Initial(c), actions);
            && |Calls(actions)| == s.okCount + s.failCount + |s.queue| + |Held(s)|
            && |s.queue| <= c.capacity
            && WithRoom(c, actions) == Tasks(s.settled) + Held(s) + s.queue
  {
    AlwaysConserved(c, actions);
    AcceptedIsWithRoom(c, actions);
    EveryFateCounted(RunActions(c, Initial(c), actions).settled);
  }

  /** The last task that was disposed of reached the broker. */
  predicate LastWasSent(settled: seq<Settlement>) {
    settled != [] && settled[|settled| - 1].fate.Sent?
  }

  /** There is a connection exactly if the last task was sent over it: a failed send closes it. */
  lemma {:induction false} ConnectedIffLastSent(c: Config, actions: seq<Action>)
    ensures var s := RunActions(c, Initial(c), actions); s.connected <==> LastWasSent(s.settled)
  {
    if actions != [] {
      ConnectedIffLastSent(c, actions[..|actions| - 1]);
    }
  }

  /** What each action does after any others. A call adds its task at the back if there is room and changes
      nothing otherwise but the count of failures; with nothing in flight, a fetch takes the front task; a
      delivery settles the task in flight: unsent if the last one was not sent and no connection is made,
      failed if sending fails, else sent. */
  lemma ActionEffect(c: Config, actions: seq<Action>, a: Action)
    ensures var s, s' := RunActions(c, Initial(c), actions), RunActions(c, Initial(c), actions + [a]);
            match a
            case Publish(t) =>
              && s'.inFlight == s.inFlight && s'.settled == s.settled && s'.okCount == s.okCount
              && (if |s.queue| < c.capacity then
                    s'.queue == s.queue + [t] && s'.accepted == s.accepted + [t] && s'.failCount == s.failCount
                  else s'.queue == s.queue && s'.accepted == s.accepted && s'.failCount == s.failCount + 1)
            case Fetch =>
              && s'.settled == s.settled && s'.okCount == s.okCount && s'.failCount == s.failCount
              && (if s.inFlight.None? && s.queue != [] then s'.inFlight == Some(s.queue[0]) && s.queue == [s.queue[0]] + s'.queue
                  else s'.inFlight == s.inFlight && s'.queue == s.queue)
            case Deliver(connectOk, sendOk) =>
              && s'.queue == s.queue && s'.inFlight == None
              && (if s.inFlight.None? then s' == s
                  else if !LastWasSent(s.settled) && !connectOk then
                    s'.settled == s.settled + [Settlement(s.inFlight.value, Unsent)] && s'.failCount == s.failCount + 1
                  else if !sendOk then
                    s'.settled == s.settled + [Settlement(s.inFlight.value, SendFailed)] && s'.failCount == s.failCount + 1
                  else s'.settled == s.settled + [Settlement(s.inFlight.value, Sent)] && s'.okCount == s.okCount + 1)
  {
    assert (actions + [a])[..|actions|] == actions;
    ConnectedIffLastSent(c, actions);
  }

  lemma {:induction false} HandedOverIncreases(settled: seq<Settlement>)
    ensures var at := HandedOver(settled);
            && (forall i, j | 0 <= i < j < |at| :: at[i] < at[j])
            && (forall i | 0 <= i < |at| :: at[i] < |settled| && !settled[at[i]].fate.Unsent?)
            && (forall k | 0 <= k < |settled| && !settled[k].fate.Unsent? :: k in at)
  {
    if settled != [] {
      HandedOverIncreases(settled[..|settled| - 1]);
      var prev, at := HandedOver(settled[..|settled| - 1]), HandedOver(settled);
      forall k | 0 <= k < |settled| && !settled[k].fate.Unsent? ensures k in at {
        if k < |settled| - 1 {
          assert settled[..|settled| - 1][k] == settled[k];
          assert k in prev;
        } else {
          assert at[|at| - 1] == k;
        }
      }
    }
  }

  /** Sends follow acceptance order without repetition: the accepted task at each strictly increasing
      position at[i] is the i-th one handed to the broker. */
  lemma {:induction false} SendsFollowAcceptanceOrder(c: Config, actions: seq<Action>)
    ensures var s := RunActions(c, Initial(c), actions);
            var at := HandedOver(s.settled);
            && (forall i, j | 0 <= i < j < |at| :: at[i] < at[j])
            && (forall i | 0 <= i < |at| :: at[i] < |s.settled| <= |s.accepted| && s.accepted[at[i]] == s.settled[at[i]].task)
            && (forall k | 0 <= k < |s.settled| :: k in at <==> !s.settled[k].fate.Unsent?)
  {
    AlwaysConserved(c, actions);
    var s := RunActions(c, Initial(c), actions);
    HandedOverIncreases(s.settled);
    assert forall k | 0 <= k < |s.settled| :: s.accepted[k] == Tasks(s.settled)[k];
  }

  function TrailingUnsent(settled: seq<Settlement>): nat {
    if settled == [] || !settled[|settled| - 1].fate.Unsent? then 0 else 1 + TrailingUnsent(settled[..|settled| - 1])
  }

  ghost predicate DelayFits(c: Config, s: State) {
    && s.backoff == Delay(c.initialBackoff, c.maxBackoff, TrailingUnsent(s.settled))
    && 0 <= s.backoff <= Max(c.initialBackoff, c.maxBackoff)
  }

  lemma StepKeepsDelay(c: Config, s: State, a: Action)
    requires 0 <= c.initialBackoff && 0 <= c.maxBackoff && DelayFits(c, s)
    ensures DelayFits(c, Step(c, s, a))
  {
    if a.Deliver? && s.inFlight.Some? {
      var fate := if !s.connected && !a.connectOk then Unsent else if !a.sendOk then SendFailed else Sent;
      SettleOne(s.settled, s.inFlight.value, fate);
      NextDelay(c.initialBackoff, c.maxBackoff, TrailingUnsent(s.settled));
      NextDelay(c.initialBackoff, c.maxBackoff, TrailingUnsent(s.settled) + 1);
    }
  }

  /** The reconnect delay always reflects how many of the latest tasks found no connection. */
  lemma {:induction false} BackoffFollowsFailures(c: Config, actions: seq<Action>)
    requires 0 <= c.initialBackoff && 0 <= c.maxBackoff
    ensures var s := RunActions(c, Initial(c), actions);
            && s.backoff == Delay(c.initialBackoff, c.maxBackoff, TrailingUnsent(s.settled))
            && 0 <= s.backoff <= Max(c.initialBackoff, c.maxBackoff)
  {
    if actions != [] {
      BackoffFollowsFailures(c, actions[..|actions| - 1]);
      StepKeepsDelay(c, RunActions(c, Initial(c), actions[..|actions| - 1]), actions[|actions| - 1]);
    }
  }
}
