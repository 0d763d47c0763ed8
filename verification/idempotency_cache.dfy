/** The consumer's duplicate filter: a list of marks, newest first, plus a hash index into it.
    Despite its class name the cache is a FIFO: a rejected duplicate is not moved to the front. */
module IdempotencyCache {
  import opened Common

  // ---------- The list as a value ----------

  datatype Entry = Entry(key: string, expireAt: int)

  /** Sweep: drop from the old end while the tail has expired or the list is over capacity. */
  function Swept(es: seq<Entry>, capacity: nat, now: int): (r: seq<Entry>)
    ensures r <= es
  {
    if es == [] || (es[|es| - 1].expireAt > now && |es| <= capacity) then es
    else Swept(es[..|es| - 1], capacity, now)
  }

  function Find(es: seq<Entry>, key: string): (r: Option<nat>)
    ensures r.None? <==> forall i | 0 <= i < |es| :: es[i].key != key
    ensures r.Some? ==> r.value < |es| && es[r.value].key == key
    ensures r.Some? ==> forall i | 0 <= i < r.value :: es[i].key != key
  {
    if es == [] then None
    else if es[0].key == key then Some(0)
    else match Find(es[1..], key) case None => None case Some(i) => Some(i + 1)
  }

  function EraseAt(es: seq<Entry>, i: nat): seq<Entry>
    requires i < |es|
  {
    es[..i] + es[i + 1..]
  }

  function Trim(es: seq<Entry>, capacity: nat): seq<Entry> {
    if |es| > capacity then es[..capacity] else es
  }

  /** TryMark after its sweep: the new list and whether the key was accepted. */
  function MarkedSwept(s: seq<Entry>, capacity: nat, ttl: int, key: string, now: int): (seq<Entry>, bool) {
    var at := Find(s, key);
    if at.Some? && s[at.value].expireAt > now then (s, false)
    else
      var rest := if at.Some? then EraseAt(s, at.value) else s;
      (Trim([Entry(key, now + ttl)] + rest, capacity), true)
  }

  function Marked(es: seq<Entry>, capacity: nat, ttl: int, key: string, now: int): (seq<Entry>, bool) {
    if key == "" then (es, false) else MarkedSwept(Swept(es, capacity, now), capacity, ttl, key, now)
  }

  /** For any clock, even one that goes backwards: within capacity, a sweep removes only expired
      entries and stops at one that is not. */
  lemma {:induction false} SweepRemovesOnlyExpired(es: seq<Entry>, capacity: nat, now: int)
    requires |es| <= capacity
    ensures var r := Swept(es, capacity, now);
            && (forall i | |r| <= i < |es| :: es[i].expireAt <= now)
            && (r != [] ==> r[|r| - 1].expireAt > now)
  {
    if es != [] && es[|es| - 1].expireAt <= now {
      SweepRemovesOnlyExpired(es[..|es| - 1], capacity, now);
    }
  }

  // ---------- The cache object ----------

  /** A list node; a C++ list iterator is modelled as a reference to the node it points at. */
  class Node {
    const key: string
    const expireAt: int

    constructor (key: string, expireAt: int)
      ensures this.key == key && this.expireAt == expireAt
    {
      this.key, this.expireAt := key, expireAt;
    }
  }

  function View(nodes: seq<Node>): (es: seq<Entry>)
    ensures |es| == |nodes|
  {
    seq(|nodes|, i requires 0 <= i < |nodes| => Entry(nodes[i].key, nodes[i].expireAt))
  }

  /** List and index are in bijection; nothing here depends on the clock. */
  ghost predicate Linked(lru: seq<Node>, index: map<string, Node>) {
    && (forall i, j | 0 <= i < j < |lru| :: lru[i].key != lru[j].key)
    && (forall i | 0 <= i < |lru| :: lru[i].key in index && index[lru[i].key] == lru[i])
    && (forall k | k in index :: index[k] in lru && index[k].key == k)
  }

  lemma EraseKeepsLinked(lru: seq<Node>, index: map<string, Node>, i: nat)
    requires Linked(lru, index) && i < |lru|
    ensures Linked(lru[..i] + lru[i + 1..], index - {lru[i].key})
  {
    var rest, index' := lru[..i] + lru[i + 1..], index - {lru[i].key};
    forall k | k in index' ensures index'[k] in rest {
      var j :| 0 <= j < |lru| && lru[j] == index[k];
      assert rest[if j < i then j else j - 1] == lru[j];
    }
  }

  lemma EraseView(lru: seq<Node>, i: nat)
    requires i < |lru|
    ensures View(lru[..i] + lru[i + 1..]) == EraseAt(View(lru), i)
  {
  }

  lemma FindAt(lru: seq<Node>, i: nat)
    requires i < |lru| && forall j, k | 0 <= j < k < |lru| :: lru[j].key != lru[k].key
    ensures Find(View(lru), lru[i].key) == Some(i)
  {
    var at := Find(View(lru), lru[i].key);
    assert View(lru)[i].key == lru[i].key;
    assert View(lru)[at.value].key == lru[at.value].key;
  }

  lemma PushKeepsLinked(lru: seq<Node>, index: map<string, Node>, n: Node)
    requires Linked(lru, index) && n.key !in index
    ensures Linked([n] + lru, index[n.key := n])
  {
    var lru', index' := [n] + lru, index[n.key := n];
    forall k | k in index' ensures index'[k] in lru' {
      if k != n.key {
        var j :| 0 <= j < |lru| && lru[j] == index[k];
        assert lru'[j + 1] == lru[j];
      }
    }
  }

  lemma IndexedIffFound(lru: seq<Node>, index: map<string, Node>, key: string)
    requires Linked(lru, index)
    ensures key in index <==> Find(View(lru), key).Some?
    ensures key in index ==> lru[Find(View(lru), key).value] == index[key]
  {
    var at := Find(View(lru), key);
    if key in index {
      var j :| 0 <= j < |lru| && lru[j] == index[key];
      assert View(lru)[j].key == key;
    }
    if at.Some? {
      assert lru[at.value].key == key;
    }
  }

  class LruIdempotencyCache {
    const capacity: nat
    const ttlMs: int
    var lru: seq<Node>
    var index: map<string, Node>

    ghost predicate Valid()
      reads this
    {
      Linked(lru, index) && |lru| <= capacity
    }

    ghost function Entries(): seq<Entry>
      reads this
    {
      View(lru)
    }

    constructor (capacity: nat, ttlMs: int)
      ensures Valid() && Entries() == []
      ensures this.capacity == capacity && this.ttlMs == ttlMs
    {
      this.capacity, this.ttlMs := capacity, ttlMs;
      lru, index := [], map[];
    }

    /** Pops the tail of the list together with its index entry. */
    method PopBack()
      requires Linked(lru, index) && lru != []
      modifies this
      ensures Linked(lru, index) && lru == old(lru)[..|old(lru)| - 1]
      ensures Entries() == old(Entries())[..|lru|]
    {
      EraseKeepsLinked(lru, index, |lru| - 1);
      EraseView(lru, |lru| - 1);
      assert lru[..|lru| - 1] + lru[|lru|..] == lru[..|lru| - 1];
      index := index - {lru[|lru| - 1].key};
      lru := lru[..|lru| - 1];
    }

    /** Sweeping from any linked state terminates and keeps list and index linked. */
    method Sweep(now: int)
      requires Linked(lru, index)
      modifies this
      ensures Linked(lru, index)
      ensures Entries() == Swept(old(Entries()), capacity, now)
    {
      while |lru| != 0
        invariant Linked(lru, index)
        invariant Swept(Entries(), capacity, now) == Swept(old(Entries()), capacity, now)
        decreases |lru|
      {
        var it := lru[|lru| - 1];
        if it.expireAt > now && |lru| <= capacity {
          break;
        }
        PopBack();
      }
    }

    /** Erases the node the key's iterator points at, and its index entry. */
    method EraseNode(key: string)
      requires Linked(lru, index) && key in index
      modifies this
      ensures Linked(lru, index) && key !in index
      ensures Find(old(Entries()), key).Some?
      ensures Entries() == EraseAt(old(Entries()), Find(old(Entries()), key).value)
    {
      var i :| 0 <= i < |lru| && lru[i] == index[key];
      EraseKeepsLinked(lru, index, i);
      EraseView(lru, i);
      FindAt(lru, i);
      index := index - {key};
      lru := lru[..i] + lru[i + 1..];
    }

    /** Puts a new node at the front and points the index at it. */
    method PushFront(key: string, expireAt: int)
      requires Linked(lru, index) && key !in index
      modifies this
      ensures Linked(lru, index)
      ensures Entries() == [Entry(key, expireAt)] + old(Entries())
    {
      var n := new Node(key, expireAt);
      PushKeepsLinked(lru, index, n);
      assert View([n] + lru) == [Entry(key, expireAt)] + View(lru);
      lru := [n] + lru;
      index := index[key := n];
    }

    /** The branches after the sweep. */
    method MarkAfterSweep(key: string, now: int) returns (ok: bool)
      requires Linked(lru, index) && |lru| <= capacity
      modifies this
      ensures Valid()
      ensures (Entries(), ok) == MarkedSwept(old(Entries()), capacity, ttlMs, key, now)
    {
      IndexedIffFound(lru, index, key);
      if key in index {
        if index[key].expireAt > now {
          return false;
        }
        EraseNode(key);
      }
      PushFront(key, now + ttlMs);
      EvictOverflow();
      return true;
    }

    /** The two eviction loops and the three branches together compute Marked, for any clock whatever. */
    method TryMark(key: string, now: int) returns (ok: bool)
      requires Valid()
      requires FitsInt64(now + ttlMs)
      modifies this
      ensures Valid()
      ensures (Entries(), ok) == Marked(old(Entries()), capacity, ttlMs, key, now)
    {
      if key == "" {
        return false;
      }
      Sweep(now);
      ok := MarkAfterSweep(key, now);
    }

    /** The loop that pops the tail until the list is within capacity. */
    method EvictOverflow()
      requires Linked(lru, index)
      modifies this
      ensures Valid()
      ensures Entries() == Trim(old(Entries()), capacity)
    {
      while |lru| > capacity
        invariant Linked(lru, index)
        invariant |lru| <= |old(lru)| && (|lru| == |old(lru)| || |lru| >= capacity)
        invariant Entries() == old(Entries())[..|lru|]
        decreases |lru|
      {
        PopBack();
      }
    }
  }

  // ---------- What the list holds: the newest unexpired accepted marks ----------

  datatype Mark = Mark(key: string, at: int)

  /** Accepted marks, oldest first, made in clock order and no later than `now`. */
  ghost predicate Chronological(h: seq<Mark>, now: int) {
    && (forall i, j | 0 <= i < j < |h| :: h[i].at <= h[j].at)
    && (forall i | 0 <= i < |h| :: h[i].at <= now)
  }

  function Unexpired(h: seq<Mark>, ttl: int, now: int): (n: nat)
    ensures n <= |h|
  {
    if h == [] then 0
    else Unexpired(h[..|h| - 1], ttl, now) + if h[|h| - 1].at + ttl > now then 1 else 0
  }

  /** The newest n marks of the history, newest first, as list entries. */
  function Newest(h: seq<Mark>, ttl: int, n: nat): (es: seq<Entry>)
    requires n <= |h|
    ensures |es| == n
  {
    seq(n, i requires 0 <= i < n => Entry(h[|h| - 1 - i].key, h[|h| - 1 - i].at + ttl))
  }

  function Window(h: seq<Mark>, capacity: nat, ttl: int, now: int): seq<Entry> {
    Newest(h, ttl, Min(capacity, Unexpired(h, ttl, now)))
  }

  /** The key was marked among the newest `capacity` accepted marks and that mark has not expired. */
  ghost predicate Blocked(h: seq<Mark>, capacity: nat, ttl: int, key: string, now: int) {
    exists i | 0 <= i < |h| :: |h| - i <= capacity && h[i].key == key && h[i].at + ttl > now
  }

  /** Marks lo..hi-1 carry pairwise distinct keys, none of them `key`. */
  ghost predicate DistinctOthers(h: seq<Mark>, lo: int, hi: int, key: string) {
    && 0 <= lo <= hi <= |h|
    && (forall a | lo <= a < hi :: h[a].key != key)
    && (forall a, b | lo <= a < b < hi :: h[a].key != h[b].key)
  }

  /** Two accepted marks of one key are a full ttl apart, or at least `capacity` accepted marks with
      pairwise distinct other keys lie strictly between them. */
  ghost predicate Sparse(h: seq<Mark>, capacity: nat, ttl: int) {
    forall i, j | 0 <= i < j < |h| && h[i].key == h[j].key ::
      h[j].at >= h[i].at + ttl || (i < j - capacity && DistinctOthers(h, j - capacity, j, h[j].key))
  }

  lemma {:induction false} UnexpiredIsSuffix(h: seq<Mark>, ttl: int, t: int, now: int)
    requires Chronological(h, t)
    ensures forall i | 0 <= i < |h| :: h[i].at + ttl > now <==> i >= |h| - Unexpired(h, ttl, now)
  {
    if h != [] {
      UnexpiredIsSuffix(h[..|h| - 1], ttl, t, now);
    }
  }

  lemma {:induction false} SweptNewest(h: seq<Mark>, capacity: nat, ttl: int, t: int, now: int, n: nat)
    requires Chronological(h, t) && n <= |h| && n <= capacity
    ensures Swept(Newest(h, ttl, n), capacity, now) == Newest(h, ttl, Min(n, Unexpired(h, ttl, now)))
  {
    UnexpiredIsSuffix(h, ttl, t, now);
    var es := Newest(h, ttl, n);
    if n > 0 && es[n - 1].expireAt <= now {
      assert es[..n - 1] == Newest(h, ttl, n - 1);
      SweptNewest(h, capacity, ttl, t, now, n - 1);
    }
  }

  lemma UnexpiredShrinks(h: seq<Mark>, ttl: int, t: int, now: int)
    requires t <= now
    ensures Unexpired(h, ttl, now) <= Unexpired(h, ttl, t)
  {
  }

  lemma BlockedIsAmongNewest(h: seq<Mark>, capacity: nat, ttl: int, key: string, now: int, n: nat)
    requires n <= |h| && forall i | 0 <= i < |h| :: h[i].at + ttl > now <==> i >= |h| - n
    requires Blocked(h, capacity, ttl, key, now)
    ensures Find(Newest(h, ttl, Min(capacity, n)), key).Some?
  {
    var i :| 0 <= i < |h| && |h| - i <= capacity && h[i].key == key && h[i].at + ttl > now;
    assert Newest(h, ttl, Min(capacity, n))[|h| - 1 - i].key == key;
  }

  lemma BlockedIffAmongNewest(h: seq<Mark>, capacity: nat, ttl: int, key: string, now: int, n: nat)
    requires n <= |h| && forall i | 0 <= i < |h| :: h[i].at + ttl > now <==> i >= |h| - n
    ensures var w := Newest(h, ttl, Min(capacity, n));
            && (Blocked(h, capacity, ttl, key, now) <==> Find(w, key).Some?)
            && (forall e | e in w :: e.expireAt > now)
  {
    var w := Newest(h, ttl, Min(capacity, n));
    if Blocked(h, capacity, ttl, key, now) {
      BlockedIsAmongNewest(h, capacity, ttl, key, now, n);
    }
    var at := Find(w, key);
    if at.Some? {
      assert h[|h| - 1 - at.value].key == key;
    }
  }

  lemma BlockedIffInWindow(h: seq<Mark>, capacity: nat, ttl: int, key: string, now: int)
    requires Chronological(h, now)
    ensures Blocked(h, capacity, ttl, key, now) <==> Find(Window(h, capacity, ttl, now), key).Some?
    ensures forall e | e in Window(h, capacity, ttl, now) :: e.expireAt > now
  {
    UnexpiredIsSuffix(h, ttl, now, now);
    BlockedIffAmongNewest(h, capacity, ttl, key, now, Unexpired(h, ttl, now));
  }

  /** Pushing a mark made now onto the swept window gives the window of the extended history. */
  lemma PushRefines(h: seq<Mark>, capacity: nat, ttl: int, key: string, now: int)
    requires 0 < ttl
    ensures Trim([Entry(key, now + ttl)] + Window(h, capacity, ttl, now), capacity)
         == Window(h + [Mark(key, now)], capacity, ttl, now)
  {
    var h' := h + [Mark(key, now)];
    assert h'[..|h'| - 1] == h;
    var k := Min(capacity, Unexpired(h, ttl, now));
    assert Unexpired(h', ttl, now) == Unexpired(h, ttl, now) + 1;
    assert [Entry(key, now + ttl)] + Newest(h, ttl, k) == Newest(h', ttl, k + 1);
  }

  lemma SweepRefines(h: seq<Mark>, capacity: nat, ttl: int, t: int, now: int)
    requires Chronological(h, t) && t <= now
    ensures Swept(Window(h, capacity, ttl, t), capacity, now) == Window(h, capacity, ttl, now)
  {
    UnexpiredShrinks(h, ttl, t, now);
    SweptNewest(h, capacity, ttl, t, now, Min(capacity, Unexpired(h, ttl, t)));
  }

  /** One call of TryMark on a list that is the window of its history: it is accepted exactly when the
      key is not blocked, and the new list is the window of the extended history. The branch for a key
      found but expired is never taken: everything left by the sweep is unexpired. */
  lemma MarkRefines(h: seq<Mark>, capacity: nat, ttl: int, t: int, key: string, now: int)
    requires Chronological(h, t) && t <= now && 0 < ttl && key != ""
    ensures var (es, ok) := Marked(Window(h, capacity, ttl, t), capacity, ttl, key, now);
            && (ok <==> !Blocked(h, capacity, ttl, key, now))
            && (es == Window(if ok then h + [Mark(key, now)] else h, capacity, ttl, now))
    ensures forall e | e in Swept(Window(h, capacity, ttl, t), capacity, now) :: e.expireAt > now
  {
    SweepRefines(h, capacity, ttl, t, now);
    BlockedIffInWindow(h, capacity, ttl, key, now);
    PushRefines(h, capacity, ttl, key, now);
    var s := Window(h, capacity, ttl, now);
    if Find(s, key).Some? {
      assert s[Find(s, key).value] in s;
    }
  }

  lemma WindowKeysDistinct(h: seq<Mark>, capacity: nat, ttl: int, now: int, lo: int)
    requires Chronological(h, now) && Sparse(h, capacity, ttl)
    requires 0 <= lo <= |h| && |h| - lo <= capacity
    requires lo < |h| ==> h[lo].at + ttl > now
    ensures forall a, b | lo <= a < b < |h| :: h[a].key != h[b].key
  {
  }

  lemma AcceptKeepsSparse(h: seq<Mark>, capacity: nat, ttl: int, key: string, now: int)
    requires Chronological(h, now) && Sparse(h, capacity, ttl) && 0 < ttl
    requires !Blocked(h, capacity, ttl, key, now)
    ensures Chronological(h + [Mark(key, now)], now) && Sparse(h + [Mark(key, now)], capacity, ttl)
  {
    var h' := h + [Mark(key, now)];
    var n := |h|;
    forall i, j | 0 <= i < j < |h'| && h'[i].key == h'[j].key
      ensures h'[j].at >= h'[i].at + ttl || (i < j - capacity && DistinctOthers(h', j - capacity, j, h'[j].key))
    {
      if j < n {
        assert h'[i] == h[i] && h'[j] == h[j];
        if h[j].at < h[i].at + ttl {
          assert DistinctOthers(h, j - capacity, j, h[j].key);
          assert DistinctOthers(h', j - capacity, j, h'[j].key);
        }
      } else if h[i].at + ttl > now {
        assert |h| - i > capacity;
        WindowKeysDistinct(h, capacity, ttl, now, n - capacity);
        forall a | n - capacity <= a < n ensures h'[a].key != key {
          assert h[a].at >= h[i].at;
        }
        assert DistinctOthers(h', n - capacity, n, key);
      }
    }
  }

  /** The invariant of the cache under a non-decreasing clock: the list is the window of the history
      as of the last sweep, and repeated keys are sparse in the history. */
  ghost predicate Faithful(es: seq<Entry>, h: seq<Mark>, capacity: nat, ttl: int, sweptAt: int) {
    && es == Window(h, capacity, ttl, sweptAt)
    && Chronological(h, sweptAt)
    && Sparse(h, capacity, ttl)
  }

  /** Every call keeps the invariant, and refuses a key exactly when it is empty or blocked. */
  lemma MarkKeepsFaithful(es: seq<Entry>, h: seq<Mark>, capacity: nat, ttl: int, sweptAt: int, key: string, now: int)
    requires Faithful(es, h, capacity, ttl, sweptAt) && sweptAt <= now && 0 < ttl
    ensures var (es', ok) := Marked(es, capacity, ttl, key, now);
            && (ok <==> key != "" && !Blocked(h, capacity, ttl, key, now))
            && Faithful(es', if ok then h + [Mark(key, now)] else h, capacity, ttl, if key == "" then sweptAt else now)
  {
    if key != "" {
      MarkRefines(h, capacity, ttl, sweptAt, key, now);
      if !Blocked(h, capacity, ttl, key, now) {
        AcceptKeepsSparse(h, capacity, ttl, key, now);
      }
    }
  }

  // ---------- Whole runs of one cache ----------

  datatype Run = Run(entries: seq<Entry>, history: seq<Mark>, sweptAt: int)

  /** The state after a sequence of calls TryMark(calls[i].key, calls[i].at) on a new cache. */
  function RunCalls(capacity: nat, ttl: int, start: int, calls: seq<Mark>): Run {
    if calls == [] then Run([], [], start)
    else
      var r := RunCalls(capacity, ttl, start, calls[..|calls| - 1]);
      var c := calls[|calls| - 1];
      var (es, ok) := Marked(r.entries, capacity, ttl, c.key, c.at);
      Run(es, if ok then r.history + [c] else r.history, if c.key == "" then r.sweptAt else c.at)
  }

  function EndTime(start: int, calls: seq<Mark>): int {
    if calls == [] then start else calls[|calls| - 1].at
  }

  /** Each call is made no earlier than the one before it, the first no earlier than `start`. */
  ghost predicate InClockOrder(start: int, calls: seq<Mark>) {
    calls == [] || (InClockOrder(start, calls[..|calls| - 1])
                    && EndTime(start, calls[..|calls| - 1]) <= EndTime(start, calls))
  }

  /** The refinement: after any calls in clock order, the list is exactly the newest min(capacity,
      number unexpired) accepted marks as of the last call that swept, and repeats are sparse. */
  lemma {:induction false} CacheRefinesHistory(capacity: nat, ttl: int, start: int, calls: seq<Mark>)
    requires InClockOrder(start, calls) && 0 < ttl
    ensures var r := RunCalls(capacity, ttl, start, calls);
            && Faithful(r.entries, r.history, capacity, ttl, r.sweptAt)
            && r.sweptAt <= EndTime(start, calls)
  {
    if calls != [] {
      var before, c := calls[..|calls| - 1], calls[|calls| - 1];
      CacheRefinesHistory(capacity, ttl, start, before);
      var r := RunCalls(capacity, ttl, start, before);
      MarkKeepsFaithful(r.entries, r.history, capacity, ttl, r.sweptAt, c.key, c.at);
    }
  }

  /** The verdict on one more call, in terms of the history alone: a key is refused exactly when it is
      empty or one of the newest `capacity` accepted marks carries it and is younger than ttl. */
  lemma TryMarkVerdict(capacity: nat, ttl: int, start: int, calls: seq<Mark>, next: Mark)
    requires InClockOrder(start, calls + [next]) && 0 < ttl
    ensures var r := RunCalls(capacity, ttl, start, calls);
            Marked(r.entries, capacity, ttl, next.key, next.at).1
            <==> next.key != ""
                 && !exists i | 0 <= i < |r.history| ::
                      |r.history| - i <= capacity && r.history[i].key == next.key && r.history[i].at + ttl > next.at
  {
    assert (calls + [next])[..|calls|] == calls;
    CacheRefinesHistory(capacity, ttl, start, calls);
    var r := RunCalls(capacity, ttl, start, calls);
    MarkKeepsFaithful(r.entries, r.history, capacity, ttl, r.sweptAt, next.key, next.at);
  }
}
