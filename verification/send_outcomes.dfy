/** What becomes of one send, told by the sections that run after its insertion: exactly when its record is
    still pending, when its age bound holds, and which record a failed publish erases. */
module SendOutcomes {
  import opened Common
  import opened PendingSends

  // ---------- A record stays pending until something disturbs it ----------

  /** The section would end a pending record of this key and contents. */
  predicate Disturbs(op: Op, ttlMs: int, cid: string, p: PendingSend) {
    match op
    case Insert(_, k, _) => k == cid
    case Fail(_, k) => k == cid
    case Take(_, k, _) => k == cid
    case Sweep(_, now) => p.createdMs <= now - ttlMs
  }

  predicate Undisturbed(ops: seq<Op>, ttlMs: int, cid: string, p: PendingSend) {
    forall op | op in ops :: !Disturbs(op, ttlMs, cid, p)
  }

  ghost predicate Holds(t: Table, cid: string, n: nat) {
    cid in t.slot && t.slot[cid] == n
  }

  /** Record n is this insertion. */
  ghost predicate Records(t: Table, n: nat, cid: string, p: PendingSend) {
    n < |t.records| && t.records[n].cid == cid && t.records[n].p == p
  }

  lemma StepHoldsIff(t: Table, ttlMs: int, op: Op, cid: string, p: PendingSend, n: nat)
    requires Consistent(t) && Records(t, n, cid, p)
    ensures var t' := Apply(t, ttlMs, op);
            && Records(t', n, cid, p)
            && (Holds(t', cid, n) <==> Holds(t, cid, n) && !Disturbs(op, ttlMs, cid, p))
  {
    StepKeepsFate(t, ttlMs, op, n);
  }

  lemma RunSnoc(ttlMs: int, ops: seq<Op>, op: Op)
    ensures RunOps(ttlMs, ops + [op]) == Apply(RunOps(ttlMs, ops), ttlMs, op)
  {
    assert (ops + [op])[..|ops|] == ops;
  }

  /** After its insertion a record still holds its key exactly as long as no section disturbs it. */
  lemma {:induction false} PendingIffUndisturbed(ttlMs: int, ops: seq<Op>, ins: Op, mid: seq<Op>)
    requires ins.Insert?
    ensures var n, t := |RunOps(ttlMs, ops).records|, RunOps(ttlMs, ops + [ins] + mid);
            && Records(t, n, ins.cid, ins.p)
            && (Holds(t, ins.cid, n) <==> Undisturbed(mid, ttlMs, ins.cid, ins.p))
  {
    var n := |RunOps(ttlMs, ops).records|;
    if mid == [] {
      assert ops + [ins] + mid == ops + [ins];
      RunSnoc(ttlMs, ops, ins);
    } else {
      var init, op := mid[..|mid| - 1], mid[|mid| - 1];
      assert mid == init + [op];
      assert ops + [ins] + mid == (ops + [ins] + init) + [op];
      PendingIffUndisturbed(ttlMs, ops, ins, init);
      RunSnoc(ttlMs, ops + [ins] + init, op);
      AlwaysConsistent(ttlMs, ops + [ins] + init);
      StepHoldsIff(RunOps(ttlMs, ops + [ins] + init), ttlMs, op, ins.cid, ins.p, n);
      UndisturbedSnoc(init, op, ttlMs, ins.cid, ins.p);
    }
  }

  lemma UndisturbedSnoc(ops: seq<Op>, op: Op, ttlMs: int, cid: string, p: PendingSend)
    ensures Undisturbed(ops + [op], ttlMs, cid, p) <==> Undisturbed(ops, ttlMs, cid, p) && !Disturbs(op, ttlMs, cid, p)
  {
    if Undisturbed(ops + [op], ttlMs, cid, p) {
      forall o | o in ops + [op] ensures !Disturbs(o, ttlMs, cid, p) {
      }
      assert op in ops + [op];
      forall o | o in ops ensures !Disturbs(o, ttlMs, cid, p) {
        assert o in ops + [op];
      }
    }
  }

  lemma StepGrows(t: Table, ttlMs: int, op: Op)
    ensures |Apply(t, ttlMs, op).records| == |t.records| + if op.Insert? then 1 else 0
  {
  }

  /** A record made during `more` was made by one of its insertions. */
  lemma {:induction false} InsertionBehind(ttlMs: int, ops: seq<Op>, more: seq<Op>, n: nat) returns (i: nat)
    requires |RunOps(ttlMs, ops).records| <= n < |RunOps(ttlMs, ops + more).records|
    ensures i < |more| && more[i].Insert? && n == |RunOps(ttlMs, ops + more[..i]).records|
  {
    assert more == [] ==> ops + more == ops;
    if more != [] {
      var init, op := more[..|more| - 1], more[|more| - 1];
      assert ops + more == (ops + init) + [op];
      RunSnoc(ttlMs, ops + init, op);
      StepGrows(RunOps(ttlMs, ops + init), ttlMs, op);
      if n < |RunOps(ttlMs, ops + init).records| {
        i := InsertionBehind(ttlMs, ops, init, n);
        assert init[..i] == more[..i];
      } else {
        i := |more| - 1;
      }
    }
  }

  lemma {:induction false} RunGrows(ttlMs: int, ops: seq<Op>, more: seq<Op>)
    ensures |RunOps(ttlMs, ops).records| <= |RunOps(ttlMs, ops + more).records|
  {
    if more == [] {
      assert ops + more == ops;
    } else {
      var init, op := more[..|more| - 1], more[|more| - 1];
      assert ops + more == (ops + init) + [op];
      RunGrows(ttlMs, ops, init);
      RunSnoc(ttlMs, ops + init, op);
      StepGrows(RunOps(ttlMs, ops + init), ttlMs, op);
    }
  }

  /** The i-th section of `more` is an insertion whose record is still pending at the end of `more`. */
  ghost predicate Survives(more: seq<Op>, i: nat, ttlMs: int) {
    i < |more| && more[i].Insert? && Undisturbed(more[i + 1..], ttlMs, more[i].cid, more[i].p)
  }

  /** The record pending under a key, if made during `more`, is that of the insertion of `more` that survives. */
  lemma SurvivorIffPending(ttlMs: int, ops: seq<Op>, more: seq<Op>, i: nat)
    requires i < |more| && more[i].Insert?
    ensures var t, n := RunOps(ttlMs, ops + more), |RunOps(ttlMs, ops + more[..i]).records|;
            && |RunOps(ttlMs, ops).records| <= n
            && Records(t, n, more[i].cid, more[i].p)
            && (Survives(more, i, ttlMs) <==> Holds(t, more[i].cid, n))
  {
    RunGrows(ttlMs, ops, more[..i]);
    assert ops + more == (ops + more[..i]) + [more[i]] + more[i + 1..];
    PendingIffUndisturbed(ttlMs, ops + more[..i], more[i], more[i + 1..]);
  }

  // ---------- The age bound ----------

  /** At the clock reading s of a sweep, every entry pending now was younger than ttl. */
  ghost predicate YoungAt(t: Table, ttlMs: int, s: int) {
    forall k | k in Pending(t) :: s - Pending(t)[k].createdMs < ttlMs
  }

  /** By the reading s of a sweep, the entry would have been due already. */
  predicate Late(ins: Op, ttlMs: int, s: int)
    requires ins.Insert?
  {
    ins.p.createdMs <= s - ttlMs
  }

  /** The age bound of a sweep that read s, for any clock and any threads, whatever follows the sweep: it
      holds for every pending entry unless a thread inserted late after the sweep and its record survives. */
  lemma AgeBoundIff(ttlMs: int, before: seq<Op>, sweep: Op, after: seq<Op>)
    requires sweep.Sweep?
    ensures YoungAt(RunOps(ttlMs, before + [sweep] + after), ttlMs, sweep.now)
       <==> !exists i: nat :: Survives(after, i, ttlMs) && Late(after[i], ttlMs, sweep.now)
  {
    var ops, s := before + [sweep], sweep.now;
    var t := RunOps(ttlMs, ops + after);
    AlwaysConsistent(ttlMs, ops + after);
    if i: nat :| Survives(after, i, ttlMs) && Late(after[i], ttlMs, s) {
      SurvivorIffPending(ttlMs, ops, after, i);
      assert after[i].cid in Pending(t);
    }
    forall k | k in Pending(t) && s - Pending(t)[k].createdMs >= ttlMs
      ensures exists i: nat :: Survives(after, i, ttlMs) && Late(after[i], ttlMs, s)
    {
      var n := t.slot[k];
      if n < |RunOps(ttlMs, ops).records| {
        SweptLeavesYoung(ttlMs, before, sweep, n);
        FateIsFinal(ttlMs, ops, after, n);
        assert false;
      } else {
        var i := InsertionBehind(ttlMs, ops, after, n);
        SurvivorIffPending(ttlMs, ops, after, i);
        assert Survives(after, i, ttlMs);
      }
    }
  }

  lemma SweptLeavesYoung(ttlMs: int, before: seq<Op>, sweep: Op, n: nat)
    requires sweep.Sweep? && n < |RunOps(ttlMs, before + [sweep]).records|
    ensures var r := RunOps(ttlMs, before + [sweep]).records[n];
            r.fate.Waiting? ==> sweep.now - r.p.createdMs < ttlMs
  {
    RunSnoc(ttlMs, before, sweep);
  }

  /** Sections run in clock order, and a sweep reads the clock before its own. */
  ghost predicate Ordered(ops: seq<Op>) {
    && (forall i, j | 0 <= i < j < |ops| :: ops[i].at <= ops[j].at)
    && (forall op | op in ops && op.Sweep? :: op.now <= op.at)
  }

  /** Under clock order only a slow thread breaks the bound: if it fails, some thread waited a full ttl between
      reading the clock and inserting after the sweep, and its record is still pending. */
  lemma OnlySlowThreadsBreakAgeBound(ttlMs: int, before: seq<Op>, sweep: Op, after: seq<Op>) returns (i: nat)
    requires sweep.Sweep? && Ordered(before + [sweep] + after)
    requires !YoungAt(RunOps(ttlMs, before + [sweep] + after), ttlMs, sweep.now)
    ensures Survives(after, i, ttlMs) && after[i].at - after[i].p.createdMs >= ttlMs
  {
    AgeBoundIff(ttlMs, before, sweep, after);
    i :| Survives(after, i, ttlMs) && Late(after[i], ttlMs, sweep.now);
    var ops := before + [sweep] + after;
    assert ops[|before|] == sweep && ops[|before| + 1 + i] == after[i];
  }

  /** A thread that waits a full ttl between reading the clock and inserting breaks the age bound: its
      entry, inserted after a sweep, is already older than the sweep tolerates. */
  lemma SlowInsertBreaksAgeBound(p: PendingSend, ttlMs: int)
    requires 0 < ttlMs && p.createdMs == 0
    ensures !YoungAt(RunOps(ttlMs, [Sweep(ttlMs, ttlMs), Insert(ttlMs, "m", p)]), ttlMs, ttlMs)
  {
    var sweep, ins := Sweep(ttlMs, ttlMs), Insert(ttlMs, "m", p);
    assert [sweep, ins] == [] + [sweep] + [ins];
    AgeBoundIff(ttlMs, [], sweep, [ins]);
    assert [ins][1..] == [];
    assert Survives([ins], 0, ttlMs) && Late([ins][0], ttlMs, ttlMs);
  }

  // ---------- Publish failure erases by key ----------

  /** Between two tables record n is ended by a publish failure. */
  ghost predicate FailsNow(t: Table, t': Table, n: nat) {
    n < |t.records| && n < |t'.records| && t.records[n].fate.Waiting? && t'.records[n].fate.PublishFailed?
  }

  lemma FailEndsHolder(t: Table, ttlMs: int, fail: Op, n: nat)
    requires Consistent(t) && fail.Fail?
    ensures FailsNow(t, Apply(t, ttlMs, fail), n) <==> Holds(t, fail.cid, n)
  {
  }

  /** The failure of a send's own publish, after any other sections in between, ends its own record exactly
      when none of them inserted, failed or took under the key or swept the record; and it ends the record of
      another send exactly when one of them inserted under the key and its record survives. */
  lemma FailureErasesByKey(ttlMs: int, ops: seq<Op>, ins: Op, mid: seq<Op>, fail: Op)
    requires ins.Insert? && fail.Fail? && fail.cid == ins.cid
    ensures var own := |RunOps(ttlMs, ops).records|;
            var t, t' := RunOps(ttlMs, ops + [ins] + mid), RunOps(ttlMs, ops + [ins] + mid + [fail]);
            && (FailsNow(t, t', own) <==> Undisturbed(mid, ttlMs, ins.cid, ins.p))
            && ((exists n: nat :: n != own && FailsNow(t, t', n))
                <==> exists i: nat :: Survives(mid, i, ttlMs) && mid[i].cid == ins.cid)
  {
    var own, all := |RunOps(ttlMs, ops).records|, ops + [ins] + mid;
    var t, t' := RunOps(ttlMs, all), RunOps(ttlMs, all + [fail]);
    RunSnoc(ttlMs, all, fail);
    AlwaysConsistent(ttlMs, all);
    PendingIffUndisturbed(ttlMs, ops, ins, mid);
    FailEndsHolder(t, ttlMs, fail, own);
    if n: nat :| n != own && FailsNow(t, t', n) {
      FailEndsHolder(t, ttlMs, fail, n);
      EarlierIsOverwritten(ttlMs, ops, ins, mid, n);
      var i := InsertionBehind(ttlMs, ops + [ins], mid, n);
      SurvivorIffPending(ttlMs, ops + [ins], mid, i);
      assert Survives(mid, i, ttlMs) && mid[i].cid == ins.cid;
    }
    if i: nat :| Survives(mid, i, ttlMs) && mid[i].cid == ins.cid {
      SurvivorIffPending(ttlMs, ops + [ins], mid, i);
      var n := |RunOps(ttlMs, ops + [ins] + mid[..i]).records|;
      RunSnoc(ttlMs, ops, ins);
      FailEndsHolder(t, ttlMs, fail, n);
      assert n != own && FailsNow(t, t', n);
    }
  }

  /** An insertion ends whatever was pending under its key, so the key's holder is never older. */
  lemma EarlierIsOverwritten(ttlMs: int, ops: seq<Op>, ins: Op, mid: seq<Op>, n: nat)
    requires ins.Insert? && Holds(RunOps(ttlMs, ops + [ins] + mid), ins.cid, n) && n != |RunOps(ttlMs, ops).records|
    ensures |RunOps(ttlMs, ops + [ins]).records| <= n < |RunOps(ttlMs, ops + [ins] + mid).records|
  {
    AlwaysConsistent(ttlMs, ops + [ins] + mid);
    AlwaysConsistent(ttlMs, ops);
    RunSnoc(ttlMs, ops, ins);
    if n < |RunOps(ttlMs, ops).records| {
      InsertKeepsConsistent(RunOps(ttlMs, ops), ins.cid, ins.p);
      FateIsFinal(ttlMs, ops + [ins], mid, n);
      assert false;
    }
  }

  /** Two users with one client message id: the failure of the earlier send ends the later one's record, whose
      own publish succeeded. */
  lemma FailureMayEndAnother(p: PendingSend, q: PendingSend, ttlMs: int)
    ensures RunOps(ttlMs, [Insert(0, "m", p), Insert(0, "m", q), Fail(0, "m")])
         == Table(map[], [Record("m", p, Overwritten), Record("m", q, PublishFailed)])
  {
    var a, b, c := Insert(0, "m", p), Insert(0, "m", q), Fail(0, "m");
    assert [a][..0] == [] && [a, b][..1] == [a] && [a, b, c][..2] == [a, b];
    assert RunOps(ttlMs, [a]) == Table(map["m" := 0], [Record("m", p, Waiting)]);
    assert RunOps(ttlMs, [a, b]) == Table(map["m" := 1], [Record("m", p, Overwritten), Record("m", q, Waiting)]);
  }
}
