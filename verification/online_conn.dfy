/** One registered connection and its per-second frame allowance. */
module OnlineConnection {
  import opened Common

  datatype Bucket = Bucket(refillAt: int, tokens: int)

  /** ConsumeToken: refill when a second has passed, then spend a token if there is one. */
  function Consumed(b: Bucket, now: int, rate: int): (Bucket, bool) {
    var b' := if now - b.refillAt >= 1000 then Bucket(now, rate) else b;
    if b'.tokens <= 0 then (b', false) else (b'.(tokens := b'.tokens - 1), true)
  }

  class OnlineConn {
    const userId: nat
    const deviceId: string
    const hasSession: bool
    const loginAt: int
    var lastActiveTs: int
    var bucketRefillTs: int
    var bucketTokens: int32

    constructor (userId: nat, deviceId: string, hasSession: bool, now: int, rateLimit: int32)
      ensures this.userId == userId && this.deviceId == deviceId && this.hasSession == hasSession && loginAt == now
      ensures lastActiveTs == now && BucketView() == Bucket(now, rateLimit as int)
    {
      this.userId, this.deviceId, this.hasSession, loginAt := userId, deviceId, hasSession, now;
      lastActiveTs, bucketRefillTs, bucketTokens := now, now, rateLimit;
    }

    ghost function BucketView(): Bucket
      reads this
    {
      Bucket(bucketRefillTs, bucketTokens as int)
    }

    method ConsumeToken(now: int, rateLimit: int32) returns (ok: bool)
      modifies this`bucketRefillTs, this`bucketTokens
      ensures (BucketView(), ok) == Consumed(old(BucketView()), now, rateLimit as int)
    {
      var tokens := bucketTokens;
      if now - bucketRefillTs >= 1000 {
        bucketRefillTs := now;
        tokens := rateLimit;
        bucketTokens := tokens;
      }
      if tokens <= 0 {
        return false;
      }
      bucketTokens := tokens - 1;
      return true;
    }
  }

  // ---------- The rate bound ----------

  /** How many of the calls made at these times succeed with a time in [from, until). */
  function Successes(b: Bucket, times: seq<int>, rate: int, from: int, until: int): nat
    decreases |times|
  {
    if times == [] then 0
    else
      var (b', ok) := Consumed(b, times[0], rate);
      (if ok && from <= times[0] < until then 1 else 0) + Successes(b', times[1..], rate, from, until)
  }

  ghost predicate InClockOrder(start: int, times: seq<int>)
    decreases |times|
  {
    times == [] || (start <= times[0] && InClockOrder(times[0], times[1..]))
  }

  function CeilSeconds(ms: nat): nat {
    (ms + 999) / 1000
  }

  /** Refills that can still happen in [from, until), the last one having been at `refillAt`. */
  function RefillsLeft(refillAt: int, from: int, until: int): nat {
    var next := Max(from, refillAt + 1000);
    if next < until then CeilSeconds(until - next) else 0
  }

  lemma NoSuccessPast(b: Bucket, times: seq<int>, rate: int, from: int, until: int)
    requires InClockOrder(until, times)
    ensures Successes(b, times, rate, from, until) == 0
    decreases |times|
  {
    if times != [] {
      OrderFrom(until, times);
      NoSuccessPast(Consumed(b, times[0], rate).0, times[1..], rate, from, until);
    }
  }

  /** Calls in order from times[0] are in order from any earlier start. */
  lemma OrderFrom(start: int, times: seq<int>)
    requires times != [] && InClockOrder(start, times)
    ensures InClockOrder(start, times[1..])
  {
  }

  /** A call before `until` that refills uses up one of the refills left; one that does not, none. */
  lemma RefillsShrink(b: Bucket, now: int, rate: int, until: int, start: int)
    requires start <= now < until
    ensures var left, left' := RefillsLeft(b.refillAt, start, until), RefillsLeft(Consumed(b, now, rate).0.refillAt, now, until);
            left' + (if now - b.refillAt >= 1000 then 1 else 0) <= left
  {
  }

  /** What one call spends is covered by the tokens at hand and, if it refills, one full rate. */
  lemma CallIsCovered(b: Bucket, now: int, rate: int, left: nat, left': nat)
    requires left' + (if now - b.refillAt >= 1000 then 1 else 0) <= left
    ensures var (b', ok) := Consumed(b, now, rate);
            (if ok then 1 else 0) + Max(b'.tokens, 0) + left' * Max(rate, 0) <= Max(b.tokens, 0) + left * Max(rate, 0)
  {
    var r := Max(rate, 0);
    if now - b.refillAt >= 1000 {
      MulMonotone(left' + 1, left, r);
      assert (left' + 1) * r == left' * r + r;
    } else {
      MulMonotone(left', left, r);
    }
  }

  /** From any bucket, the calls before `until` spend at most the tokens at hand plus one full rate for
      each refill that still fits. */
  lemma {:induction false} SpendingBound(b: Bucket, times: seq<int>, rate: int, from: int, until: int, start: int)
    requires InClockOrder(start, times) && from <= start
    ensures Successes(b, times, rate, from, until) <= Max(b.tokens, 0) + RefillsLeft(b.refillAt, start, until) * Max(rate, 0)
    decreases |times|
  {
    MulMonotone(0, RefillsLeft(b.refillAt, start, until), Max(rate, 0));
    if times != [] {
      var now := times[0];
      if now >= until {
        assert InClockOrder(until, times);
        NoSuccessPast(b, times, rate, from, until);
      } else {
        var b' := Consumed(b, now, rate).0;
        SpendingBound(b', times[1..], rate, from, until, now);
        RefillsShrink(b, now, rate, until, start);
        CallIsCovered(b, now, rate, RefillsLeft(b.refillAt, start, until), RefillsLeft(b'.refillAt, now, until));
      }
    }
  }

  lemma MulMonotone(x: nat, y: nat, r: nat)
    requires x <= y
    ensures x * r <= y * r
  {
  }

  /** A call that refills makes the tokens at hand worthless. */
  lemma RefillForgets(b: Bucket, times: seq<int>, rate: int, from: int, until: int)
    requires times != [] ==> times[0] - b.refillAt >= 1000
    ensures Successes(b, times, rate, from, until) == Successes(b.(tokens := 0), times, rate, from, until)
  {
  }

  /** Calls from the start of the interval on. */
  lemma IntervalBound(b: Bucket, times: seq<int>, rate: int, from: int, until: int)
    requires InClockOrder(from, times) && b.tokens <= Max(rate, 0) && from < until
    ensures Successes(b, times, rate, from, until) <= (CeilSeconds(until - from - 1) + 1) * Max(rate, 0)
  {
    var r := Max(rate, 0);
    var n := CeilSeconds(until - from - 1);
    if b.refillAt + 1000 <= from {
      RefillForgets(b, times, rate, from, until);
      SpendingBound(b.(tokens := 0), times, rate, from, until, from);
      MulMonotone(RefillsLeft(b.refillAt, from, until), n + 1, r);
    } else {
      SpendingBound(b, times, rate, from, until, from);
      MulMonotone(RefillsLeft(b.refillAt, from, until), n, r);
      assert (n + 1) * r == n * r + r;
    }
  }

  /** Skipping the calls before `from` leaves at most one full rate of tokens. */
  lemma {:induction false} WindowBound(b: Bucket, times: seq<int>, rate: int, from: int, until: int, start: int)
    requires InClockOrder(start, times) && b.tokens <= Max(rate, 0) && from < until
    ensures Successes(b, times, rate, from, until) <= (CeilSeconds(until - from - 1) + 1) * Max(rate, 0)
    decreases |times|
  {
    if times != [] && times[0] < from {
      WindowBound(Consumed(b, times[0], rate).0, times[1..], rate, from, until, times[0]);
    } else {
      assert InClockOrder(from, times);
      IntervalBound(b, times, rate, from, until);
    }
  }

  /** For one connection created at `created`, with a fixed rate and calls in clock order, any half-open
      interval of length L >= 1 ms sees at most (ceil((L - 1) / 1 s) + 1) * max(rate, 0) successes. */
  lemma RateBound(created: int, times: seq<int>, rate: int, from: int, until: int)
    requires InClockOrder(created, times) && from < until
    ensures Successes(Bucket(created, rate), times, rate, from, until) <= (CeilSeconds(until - from - 1) + 1) * Max(rate, 0)
  {
    WindowBound(Bucket(created, rate), times, rate, from, until, created);
  }

  // ---------- The bound is met ----------

  /** The verdicts of the calls, in order. */
  function Verdicts(b: Bucket, times: seq<int>, rate: int): (vs: seq<bool>)
    ensures |vs| == |times|
    decreases |times|
  {
    if times == [] then []
    else
      var (b', ok) := Consumed(b, times[0], rate);
      [ok] + Verdicts(b', times[1..], rate)
  }

  /** Within the second after a refill the calls that succeed are exactly the first ones, as many as there
      are tokens. */
  lemma {:induction false} BurstGrantsRate(b: Bucket, times: seq<int>, rate: int, i: nat)
    requires InClockOrder(b.refillAt, times) && (forall t | t in times :: t < b.refillAt + 1000)
    requires i < |times|
    ensures Verdicts(b, times, rate)[i] <==> i < b.tokens
    decreases |times|
  {
    assert times[0] in times;
    OrderFrom(b.refillAt, times);
    assert forall t | t in times[1..] :: t in times;
    if i > 0 {
      BurstGrantsRate(Consumed(b, times[0], rate).0, times[1..], rate, i - 1);
    }
  }

  /** n calls at time t, then the rest. */
  function Burst(n: nat, t: int, rest: seq<int>): seq<int> {
    if n == 0 then rest else [t] + Burst(n - 1, t, rest)
  }

  /** `seconds` bursts of n calls, one second apart, the first at t. */
  function Bursts(seconds: nat, n: nat, t: int): seq<int>
    decreases seconds
  {
    if seconds == 0 then [] else Burst(n, t, Bursts(seconds - 1, n, t + 1000))
  }

  lemma {:induction false} BurstOrder(n: nat, start: int, t: int, rest: seq<int>)
    requires start <= t && InClockOrder(t, rest)
    ensures InClockOrder(start, Burst(n, t, rest))
  {
    if n > 0 {
      BurstOrder(n - 1, t, t, rest);
    } else if rest != [] {
      assert start <= rest[0];
    }
  }

  lemma {:induction false} BurstsOrder(seconds: nat, n: nat, start: int, t: int)
    requires start <= t
    ensures InClockOrder(start, Bursts(seconds, n, t))
    decreases seconds
  {
    if seconds > 0 {
      BurstsOrder(seconds - 1, n, t, t + 1000);
      BurstOrder(n, start, t, Bursts(seconds - 1, n, t + 1000));
    }
  }

  /** A burst that the tokens at hand cover succeeds whole. */
  lemma {:induction false} BurstSpends(b: Bucket, n: nat, t: int, rest: seq<int>, rate: int, from: int, until: int)
    requires t < b.refillAt + 1000 && n <= b.tokens && from <= t < until
    ensures Successes(b, Burst(n, t, rest), rate, from, until)
         == n + Successes(b.(tokens := b.tokens - n), rest, rate, from, until)
    decreases n
  {
    if n > 0 {
      assert ([t] + Burst(n - 1, t, rest))[1..] == Burst(n - 1, t, rest);
      BurstSpends(b.(tokens := b.tokens - 1), n - 1, t, rest, rate, from, until);
    }
  }

  /** A burst of `rate` calls that begins with a refill succeeds whole. */
  lemma RefilledBurst(b: Bucket, t: int, rest: seq<int>, rate: nat, from: int, until: int)
    requires 0 < rate && b.refillAt + 1000 <= t && from <= t < until
    ensures Successes(b, Burst(rate, t, rest), rate, from, until) == rate + Successes(Bucket(t, 0), rest, rate, from, until)
  {
    var times := Burst(rate, t, rest);
    assert times[0] == t;
    assert Consumed(b, t, rate) == Consumed(Bucket(t, rate), t, rate);
    BurstSpends(Bucket(t, rate), rate, t, rest, rate, from, until);
  }

  lemma {:induction false} BurstsSpend(b: Bucket, seconds: nat, t: int, rate: nat, from: int, until: int)
    requires 0 < rate && b.refillAt + 1000 <= t && from <= t && (seconds > 0 ==> t + 1000 * (seconds - 1) < until)
    ensures Successes(b, Bursts(seconds, rate, t), rate, from, until) == seconds * rate
    decreases seconds
  {
    if seconds > 0 {
      RefilledBurst(b, t, Bursts(seconds - 1, rate, t + 1000), rate, from, until);
      BurstsSpend(Bucket(t, 0), seconds - 1, t + 1000, rate, from, until);
      assert seconds * rate == rate + (seconds - 1) * rate;
    }
  }

  /** The bound is met for every positive rate and every length: a burst in the last millisecond of a second,
      then one at each turn of a second. */
  lemma RateBoundIsTight(created: int, rate: nat, length: nat) returns (times: seq<int>, from: int)
    requires 0 < rate && 1 <= length
    ensures InClockOrder(created, times)
    ensures Successes(Bucket(created, rate), times, rate, from, from + length) == (CeilSeconds(length - 1) + 1) * rate
  {
    var n := CeilSeconds(length - 1);
    from := created + 999;
    var rest := Bursts(n, rate, created + 1000);
    times := Burst(rate, from, rest);
    BurstsOrder(n, rate, from, created + 1000);
    BurstOrder(rate, created, from, rest);
    BurstSpends(Bucket(created, rate), rate, from, rest, rate, from, from + length);
    BurstsSpend(Bucket(created, 0), n, created + 1000, rate, from, from + length);
    assert (n + 1) * rate == rate + n * rate;
  }
}
