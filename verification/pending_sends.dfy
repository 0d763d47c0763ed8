/** The table of sends waiting for the broker's echo, keyed by client message id. Each insertion gets a
    serial number, so that what becomes of it can be followed after its key is reused. */
module PendingSends {
  import opened Common
  import Publisher

  datatype PendingSend = PendingSend(senderUserId: nat, senderDeviceId: string, createdMs: int, hasSeq: bool, seqNo: int)

  datatype Fate = Waiting | Taken | Swept | PublishFailed | Overwritten

  datatype Record = Record(cid: string, p: PendingSend, fate: Fate)

  /** The history of the table: one record per insertion, in order, with what has become of it; its index is
      its serial number. `slot` gives the serial number behind each pending key. */
  datatype Table = Table(slot: map<string, nat>, records: seq<Record>)

  const EMPTY := Table(map[], [])

  /** The pending keys and the waiting records are the same thing seen from two sides. */
  ghost predicate Consistent(t: Table) {
    && (forall k | k in t.slot :: t.slot[k] < |t.records| && t.records[t.slot[k]].cid == k && t.records[t.slot[k]].fate.Waiting?)
    && (forall n | 0 <= n < |t.records| && t.records[n].fate.Waiting? :: t.records[n].cid in t.slot && t.slot[t.records[n].cid] == n)
  }

  /** The map the program holds. */
  function Pending(t: Table): map<string, PendingSend> {
    map k | k in t.slot && t.slot[k] < |t.records| :: t.records[t.slot[k]].p
  }

  function Closed(t: Table, cid: string, why: Fate): seq<Record> {
    if cid in t.slot && t.slot[cid] < |t.records| then t.records[t.slot[cid] := t.records[t.slot[cid]].(fate := why)]
    else t.records
  }

  function Inserted(t: Table, cid: string, p: PendingSend): Table {
    Table(t.slot[cid := |t.records|], Closed(t, cid, Overwritten) + [Record(cid, p, Waiting)])
  }

  function Erased(t: Table, cid: string, why: Fate): Table {
    Table(t.slot - {cid}, Closed(t, cid, why))
  }

  function Aged(r: Record, deadline: int): Record {
    if r.fate.Waiting? && r.p.createdMs <= deadline then r.(fate := Swept) else r
  }

  function SweptAt(t: Table, deadline: int): Table {
    Table(t.slot - (set k | k in t.slot && t.slot[k] < |t.records| && t.records[t.slot[k]].p.createdMs <= deadline),
          seq(|t.records|, n requires 0 <= n < |t.records| => Aged(t.records[n], deadline)))
  }

  lemma InsertKeepsConsistent(t: Table, cid: string, p: PendingSend)
    requires Consistent(t)
    ensures Consistent(Inserted(t, cid, p))
    ensures Pending(Inserted(t, cid, p)) == Pending(t)[cid := p]
  {
  }

  lemma EraseKeepsConsistent(t: Table, cid: string, why: Fate)
    requires Consistent(t) && !why.Waiting?
    ensures Consistent(Erased(t, cid, why))
    ensures Pending(Erased(t, cid, why)) == Pending(t) - {cid}
  {
  }

  lemma SweepKeepsConsistent(t: Table, deadline: int)
    requires Consistent(t)
    ensures Consistent(SweptAt(t, deadline))
    ensures Pending(SweptAt(t, deadline)) == Pending(t) - set k | k in Pending(t) && Pending(t)[k].createdMs <= deadline
  {
  }

  // ---------- The dispatcher that owns the table ----------

  datatype SendData = SendData(clientMsgId: string, conversationId: int, content: string)

  /** What the sender is told at once: nothing, or an error frame. */
  datatype Answer = Silent | Error(code: int, hasSeq: bool, seqNo: int)

  class WsToMqDispatcher {
    const publisher: Publisher.MqPublisher
    var pendingMap: map<string, PendingSend>
    ghost var table: Table

    constructor (publisher: Publisher.MqPublisher)
      requires publisher.Valid()
      ensures Valid() && table == EMPTY && this.publisher == publisher
    {
      this.publisher, pendingMap, table := publisher, map[], EMPTY;
    }

    ghost predicate Valid()
      reads this, publisher
    {
      pendingMap == Pending(table) && Consistent(table) && publisher.Valid()
    }

    /** A send is refused, or recorded and queued; if the queue is full the record is erased again, and with
        it any earlier record under the same client message id. */
    method HandleMsgSend(uid: nat, did: string, hasSeq: bool, seqNo: int, data: SendData, now: int, maxBytes: int) returns (answer: Answer)
      requires Valid()
      modifies this, publisher
      ensures Valid()
      ensures var p := PendingSend(uid, did, now, hasSeq, seqNo);
              var cid := data.clientMsgId;
              if cid == "" || data.conversationId <= 0 || data.content == "" then
                answer == Error(400, hasSeq, seqNo) && table == old(table) && publisher.View() == old(publisher.View())
              else if |data.content| > maxBytes then
                answer == Error(413, hasSeq, seqNo) && table == old(table) && publisher.View() == old(publisher.View())
              else
                && publisher.View() == Publisher.Enqueue(publisher.Cfg(), old(publisher.View()),
                     Publisher.Task("business.msg.persist", Publisher.NewMessage(cid, data.conversationId, uid, data.content), 0))
                && if |old(publisher.queue)| < publisher.capacity
                   then answer == Silent && table == Inserted(old(table), cid, p)
                   else answer == Error(503, hasSeq, seqNo) && table == Erased(Inserted(old(table), cid, p), cid, PublishFailed)
    {
      var cid := data.clientMsgId;
      if cid == "" || data.conversationId <= 0 || data.content == "" {
        return Error(400, hasSeq, seqNo);
      }
      if |data.content| > maxBytes {
        return Error(413, hasSeq, seqNo);
      }
      var p := PendingSend(uid, did, now, hasSeq, seqNo);
      InsertKeepsConsistent(table, cid, p);
      EraseKeepsConsistent(Inserted(table, cid, p), cid, PublishFailed);
      pendingMap := pendingMap[cid := p];
      table := Inserted(table, cid, p);
      var ok := publisher.Publish("business.msg.persist", Publisher.NewMessage(cid, data.conversationId, uid, data.content), 0);
      if !ok {
        pendingMap := pendingMap - {cid};
        table := Erased(table, cid, PublishFailed);
        return Error(503, hasSeq, seqNo);
      }
      return Silent;
    }

    method TakePending(cid: string) returns (taken: Option<PendingSend>)
      requires Valid()
      modifies this
      ensures Valid()
      ensures table == Erased(old(table), cid, Taken)
      ensures taken == if cid in old(pendingMap) then Some(old(pendingMap)[cid]) else None
    {
      if cid !in pendingMap {
        return None;
      }
      EraseKeepsConsistent(table, cid, Taken);
      taken := Some(pendingMap[cid]);
      pendingMap := pendingMap - {cid};
      table := Erased(table, cid, Taken);
    }

    method SweepPending(now: int, ttlSeconds: int)
      requires Valid()
      modifies this
      ensures Valid()
      ensures table == SweptAt(old(table), now - ttlSeconds * 1000)
    {
      var deadline := now - ttlSeconds * 1000;
      SweepKeepsConsistent(table, deadline);
      pendingMap := EraseExpired(pendingMap, deadline);
      table := SweptAt(table, deadline);
    }
  }

  /** The erase-while-iterating loop, for any iteration order. */
  method EraseExpired(pending: map<string, PendingSend>, deadline: int) returns (left: map<string, PendingSend>)
    ensures left == pending - set k | k in pending && pending[k].createdMs <= deadline
  {
    left := pending;
    var todo := pending.Keys;
    while todo != {}
      invariant todo <= left.Keys <= pending.Keys
      invariant forall k | k in left :: left[k] == pending[k]
      invariant forall k | k in pending && k !in todo :: k in left <==> pending[k].createdMs > deadline
      decreases todo
    {
      var k :| k in todo;
      if left[k].createdMs <= deadline {
        left := left - {k};
      }
      todo := todo - {k};
    }
  }

  // ---------- Whole runs: any interleaving of the critical sections ----------

  /** Each section with the time `at` which it runs, and the clock readings its thread makes outside the
      lock: an insertion's createdMs and a sweep's `now` are read before it, the `now` that a take's latency
      is measured against after it. */
  datatype Op =
    | Insert(at: int, cid: string, p: PendingSend)
    | Fail(at: int, cid: string)
    | Take(at: int, cid: string, now: int)
    | Sweep(at: int, now: int)

  function Apply(t: Table, ttlMs: int, op: Op): Table {
    match op
    case Insert(_, cid, p) => Inserted(t, cid, p)
    case Fail(_, cid) => Erased(t, cid, PublishFailed)
    case Take(_, cid, _) => Erased(t, cid, Taken)
    case Sweep(_, now) => SweptAt(t, now - ttlMs)
  }

  function RunOps(ttlMs: int, ops: seq<Op>): Table {
    if ops == [] then EMPTY else Apply(RunOps(ttlMs, ops[..|ops| - 1]), ttlMs, ops[|ops| - 1])
  }

  lemma ApplyKeepsConsistent(t: Table, ttlMs: int, op: Op)
    requires Consistent(t)
    ensures Consistent(Apply(t, ttlMs, op))
  {
    match op
    case Insert(_, cid, p) => InsertKeepsConsistent(t, cid, p);
    case Fail(_, cid) => EraseKeepsConsistent(t, cid, PublishFailed);
    case Take(_, cid, _) => EraseKeepsConsistent(t, cid, Taken);
    case Sweep(_, now) => SweepKeepsConsistent(t, now - ttlMs);
  }

  lemma {:induction false} AlwaysConsistent(ttlMs: int, ops: seq<Op>)
    ensures Consistent(RunOps(ttlMs, ops))
  {
    if ops != [] {
      AlwaysConsistent(ttlMs, ops[..|ops| - 1]);
      ApplyKeepsConsistent(RunOps(ttlMs, ops[..|ops| - 1]), ttlMs, ops[|ops| - 1]);
    }
  }

  /** A record, once no longer waiting, never changes; a waiting one changes only its fate. */
  lemma StepKeepsFate(t: Table, ttlMs: int, op: Op, n: nat)
    requires Consistent(t) && n < |t.records|
    ensures var r, r' := t.records[n], Apply(t, ttlMs, op).records[n];
            r'.cid == r.cid && r'.p == r.p && (!r.fate.Waiting? ==> r' == r)
  {
  }

  /** Record n of the table is what r has become: the same insertion, with the same fate if r had one. */
  ghost predicate Succeeds(t: Table, n: nat, r: Record) {
    && n < |t.records|
    && t.records[n].cid == r.cid && t.records[n].p == r.p
    && (!r.fate.Waiting? ==> t.records[n] == r)
  }

  lemma StepKeepsSuccessor(t: Table, ttlMs: int, op: Op, n: nat, r: Record)
    requires Consistent(t) && Succeeds(t, n, r)
    ensures Succeeds(Apply(t, ttlMs, op), n, r)
  {
    StepKeepsFate(t, ttlMs, op, n);
  }

  lemma OneMoreOp(ttlMs: int, ops: seq<Op>, more: seq<Op>, op: Op, n: nat, r: Record)
    requires Succeeds(RunOps(ttlMs, ops + more), n, r)
    ensures Succeeds(RunOps(ttlMs, ops + (more + [op])), n, r)
  {
    assert (ops + (more + [op]))[..|ops + more|] == ops + more;
    AlwaysConsistent(ttlMs, ops + more);
    StepKeepsSuccessor(RunOps(ttlMs, ops + more), ttlMs, op, n, r);
  }

  /** However a run goes on, a record keeps its contents, and its fate once it has one. */
  lemma {:induction false} FateIsFinal(ttlMs: int, ops: seq<Op>, more: seq<Op>, n: nat)
    requires n < |RunOps(ttlMs, ops).records|
    ensures Succeeds(RunOps(ttlMs, ops + more), n, RunOps(ttlMs, ops).records[n])
  {
    if more == [] {
      assert ops + more == ops;
    } else {
      var before, op := more[..|more| - 1], more[|more| - 1];
      FateIsFinal(ttlMs, ops, before, n);
      OneMoreOp(ttlMs, ops, before, op, n, RunOps(ttlMs, ops).records[n]);
      assert before + [op] == more;
    }
  }

  function CountFate(records: seq<Record>, fate: Fate): nat {
    if records == [] then 0
    else CountFate(records[..|records| - 1], fate) + if records[|records| - 1].fate == fate then 1 else 0
  }

  function Insertions(ops: seq<Op>): seq<(string, PendingSend)> {
    if ops == [] then []
    else
      var op := ops[|ops| - 1];
      Insertions(ops[..|ops| - 1]) + if op.Insert? then [(op.cid, op.p)] else []
  }

  lemma {:induction false} CountAfterUpdate(records: seq<Record>, n: nat, r: Record, fate: Fate)
    requires n < |records|
    ensures CountFate(records[n := r], fate)
         == CountFate(records, fate) - (if records[n].fate == fate then 1 else 0) + (if r.fate == fate then 1 else 0)
  {
    var init := records[..|records| - 1];
    if n == |records| - 1 {
      assert records[n := r][..|records| - 1] == init;
    } else {
      assert records[n := r][..|records| - 1] == init[n := r];
      CountAfterUpdate(init, n, r, fate);
    }
  }

  lemma {:induction false} CountsAddUp(records: seq<Record>)
    ensures |records| == CountFate(records, Taken) + CountFate(records, Swept) + CountFate(records, PublishFailed)
                       + CountFate(records, Overwritten) + CountFate(records, Waiting)
  {
    if records != [] {
      CountsAddUp(records[..|records| - 1]);
    }
  }

  lemma {:induction false} NoneWaiting(records: seq<Record>)
    requires forall r | r in records :: !r.fate.Waiting?
    ensures CountFate(records, Waiting) == 0
  {
    if records != [] {
      NoneWaiting(records[..|records| - 1]);
    }
  }

  /** There are as many waiting records as pending keys. */
  lemma {:induction false} WaitingArePending(t: Table)
    requires Consistent(t)
    ensures CountFate(t.records, Waiting) == |t.slot|
    decreases |t.slot|
  {
    if t.slot == map[] {
      NoneWaiting(t.records);
    } else {
      var k :| k in t.slot;
      EraseKeepsConsistent(t, k, Taken);
      OneLess(t.slot, k);
      WaitingArePending(Erased(t, k, Taken));
      CountAfterUpdate(t.records, t.slot[k], t.records[t.slot[k]].(fate := Taken), Waiting);
    }
  }

  lemma OneLess(m: map<string, nat>, k: string)
    requires k in m
    ensures |m - {k}| == |m| - 1
  {
    assert m == (m - {k})[k := m[k]];
  }

  lemma {:induction false} RecordsAreInsertions(ttlMs: int, ops: seq<Op>)
    ensures var records := RunOps(ttlMs, ops).records;
            && |records| == |Insertions(ops)|
            && forall n | 0 <= n < |records| :: (records[n].cid, records[n].p) == Insertions(ops)[n]
  {
    if ops != [] {
      var before := ops[..|ops| - 1];
      RecordsAreInsertions(ttlMs, before);
      AlwaysConsistent(ttlMs, before);
      var t := RunOps(ttlMs, before);
      forall n: nat | n < |t.records|
        ensures RunOps(ttlMs, ops).records[n].cid == t.records[n].cid && RunOps(ttlMs, ops).records[n].p == t.records[n].p
      {
        StepKeepsFate(t, ttlMs, ops[|ops| - 1], n);
      }
    }
  }

  /** Conservation: over any interleaving, every insertion made is taken, swept, removed on publish failure,
      overwritten or still pending, and exactly one of these. */
  lemma InsertionsConserved(ttlMs: int, ops: seq<Op>)
    ensures var t := RunOps(ttlMs, ops);
            |Insertions(ops)| == CountFate(t.records, Taken) + CountFate(t.records, Swept) + CountFate(t.records, PublishFailed)
                                 + CountFate(t.records, Overwritten) + |Pending(t)|
  {
    var t := RunOps(ttlMs, ops);
    AlwaysConsistent(ttlMs, ops);
    RecordsAreInsertions(ttlMs, ops);
    CountsAddUp(t.records);
    WaitingArePending(t);
    assert Pending(t).Keys == t.slot.Keys;
    assert |Pending(t).Keys| == |t.slot.Keys|;
  }

  // ---------- Age of a taken entry ----------

  function Now(start: int, ops: seq<Op>): int {
    if ops == [] then start else ops[|ops| - 1].at
  }

  /** Sections run in clock order, readings are made before or after them as the program does, and no
      thread waits a full ttl between reading the clock and inserting. A sweep's reading may be as stale
      as it likes. */
  ghost predicate Timely(ttlMs: int, start: int, ops: seq<Op>) {
    ops == [] ||
    (var op := ops[|ops| - 1];
     && Timely(ttlMs, start, ops[..|ops| - 1])
     && Now(start, ops[..|ops| - 1]) <= op.at
     && (op.Insert? ==> op.p.createdMs <= op.at < op.p.createdMs + ttlMs)
     && (op.Sweep? ==> op.now <= op.at)
     && (op.Take? ==> op.at <= op.now))
  }

  /** What the last sweep read on the clock. */
  function LastSweep(ops: seq<Op>): Option<int> {
    if ops == [] then None
    else if ops[|ops| - 1].Sweep? then Some(ops[|ops| - 1].now)
    else LastSweep(ops[..|ops| - 1])
  }

  /** What still waits was created by now, and after the deadline of the last sweep. */
  ghost predicate Young(t: Table, ttlMs: int, now: int, lastSweep: Option<int>) {
    forall r | r in t.records && r.fate.Waiting? ::
      r.p.createdMs <= now && (lastSweep.Some? ==> r.p.createdMs > lastSweep.value - ttlMs)
  }

  lemma {:induction false} PendingIsYoung(ttlMs: int, start: int, ops: seq<Op>)
    requires Timely(ttlMs, start, ops)
    ensures LastSweep(ops).Some? ==> LastSweep(ops).value <= Now(start, ops)
    ensures Consistent(RunOps(ttlMs, ops))
    ensures Young(RunOps(ttlMs, ops), ttlMs, Now(start, ops), LastSweep(ops))
  {
    AlwaysConsistent(ttlMs, ops);
    if ops != [] {
      var before, op := ops[..|ops| - 1], ops[|ops| - 1];
      PendingIsYoung(ttlMs, start, before);
      var t, t' := RunOps(ttlMs, before), RunOps(ttlMs, ops);
      forall n | 0 <= n < |t'.records| && t'.records[n].fate.Waiting?
        ensures t'.records[n].p.createdMs <= op.at
        ensures LastSweep(ops).Some? ==> t'.records[n].p.createdMs > LastSweep(ops).value - ttlMs
      {
        if n < |t.records| {
          assert t.records[n] in t.records;
        }
      }
    }
  }

  lemma PendingIsRecorded(t: Table, ttlMs: int, now: int, lastSweep: Option<int>, cid: string)
    requires Consistent(t) && Young(t, ttlMs, now, lastSweep) && cid in Pending(t)
    ensures Pending(t)[cid].createdMs <= now
    ensures lastSweep.Some? ==> Pending(t)[cid].createdMs > lastSweep.value - ttlMs
  {
    assert t.records[t.slot[cid]] in t.records;
  }

  /** static_cast<uint64_t> of a 64-bit difference. */
  function AsUInt64(x: int): nat {
    x % TWO_POW_64
  }

  /** The latency measured when an entry is taken, after a last sweep that read s, lies in
      [0, ttl + (now - s)), so the unsigned cast of it is exact. */
  lemma TakenLatency(ttlMs: int, start: int, ops: seq<Op>, take: Op)
    requires Timely(ttlMs, start, ops + [take]) && take.Take?
    requires take.cid in Pending(RunOps(ttlMs, ops))
    ensures var latency := take.now - Pending(RunOps(ttlMs, ops))[take.cid].createdMs;
            && 0 <= latency
            && (LastSweep(ops).Some? ==> latency < ttlMs + (take.now - LastSweep(ops).value))
            && (latency < TWO_POW_63 ==> AsUInt64(latency) == latency)
  {
    assert (ops + [take])[..|ops|] == ops;
    PendingIsYoung(ttlMs, start, ops);
    PendingIsRecorded(RunOps(ttlMs, ops), ttlMs, Now(start, ops), LastSweep(ops), take.cid);
    CastExact(take.now - Pending(RunOps(ttlMs, ops))[take.cid].createdMs);
  }

  lemma CastExact(x: int)
    ensures 0 <= x < TWO_POW_64 ==> AsUInt64(x) == x
  {
  }
}
