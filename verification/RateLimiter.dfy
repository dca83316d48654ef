/** The sliding-window limiter on token issuance (proxy/rate_limiter.py). */
module RateLimiter {
  import opened PyText

  datatype RateLimitResult = RateLimitResult(allowed: bool, attemptsInWindow: int, limit: int)

  /** Per-key attempt times, oldest first. */
  type Windows = map<PyStr, seq<int>>

  function WindowOf(w: Windows, key: PyStr): seq<int> {
    if key in w then w[key] else []
  }

  /** The window after its leading expired times are popped. */
  function Evict(window: seq<int>, cutoff: int): seq<int> {
    if window != [] && window[0] < cutoff then Evict(window[1..], cutoff) else window
  }

  /** The windows after an attempt is recorded, allowed or not. */
  function Recorded(w: Windows, span: int, key: PyStr, now: int): Windows {
    w[key := Evict(WindowOf(w, key), now - span) + [now]]
  }

  function Verdict(w: Windows, limit: int, span: int, key: PyStr, now: int): RateLimitResult {
    var n := |Evict(WindowOf(w, key), now - span)|;
    RateLimitResult(n < limit, n + 1, limit)
  }

  class SlidingWindowRateLimiter {
    const maxAttempts: int
    const windowSeconds: int
    var attempts: Windows

    constructor (maxAttempts: int, windowSeconds: int)
      ensures this.maxAttempts == maxAttempts && this.windowSeconds == windowSeconds && attempts == map[]
    {
      this.maxAttempts := maxAttempts;
      this.windowSeconds := windowSeconds;
      attempts := map[];
    }

    method CheckAndRecord(key: PyStr, now: int) returns (r: RateLimitResult)
      modifies this
      ensures attempts == Recorded(old(attempts), windowSeconds, key, now)
      ensures r == Verdict(old(attempts), maxAttempts, windowSeconds, key, now)
    {
      var window := WindowOf(attempts, key);
      var cutoff := now - windowSeconds;
      while window != [] && window[0] < cutoff
        invariant Evict(window, cutoff) == Evict(WindowOf(attempts, key), cutoff)
        decreases |window|
      {
        window := window[1..];
      }
      var allowed := |window| < maxAttempts;
      window := window + [now];
      attempts := attempts[key := window];
      r := RateLimitResult(allowed, |window|, maxAttempts);
    }
  }

  // ----- the full history -----

  datatype Attempt = Attempt(key: PyStr, time: int)

  predicate Clocked(hist: seq<Attempt>) {
    forall i, j | 0 <= i < j < |hist| :: hist[i].time <= hist[j].time
  }

  function Replay(span: int, hist: seq<Attempt>): Windows {
    if hist == [] then map[]
    else
      var a := hist[|hist| - 1];
      Recorded(Replay(span, hist[..|hist| - 1]), span, a.key, a.time)
  }

  /** Whether an attempt is allowed after the given history. */
  predicate Allows(limit: int, span: int, hist: seq<Attempt>, a: Attempt) {
    Verdict(Replay(span, hist), limit, span, a.key, a.time).allowed
  }

  /** Every attempt time of a key, rejected attempts included. */
  function TimesOf(hist: seq<Attempt>, key: PyStr): seq<int> {
    if hist == [] then []
    else
      var before, a := TimesOf(hist[..|hist| - 1], key), hist[|hist| - 1];
      if a.key == key then before + [a.time] else before
  }

  /** The times at or after the cutoff. */
  function Since(ts: seq<int>, cutoff: int): (r: seq<int>)
    ensures |r| <= |ts|
  {
    if ts == [] then []
    else
      var before, t := Since(ts[..|ts| - 1], cutoff), ts[|ts| - 1];
      if t >= cutoff then before + [t] else before
  }

  predicate Ascending(ts: seq<int>) {
    forall i, j | 0 <= i < j < |ts| :: ts[i] <= ts[j]
  }

  lemma {:induction false} TimesAscend(hist: seq<Attempt>, key: PyStr)
    requires Clocked(hist)
    ensures Ascending(TimesOf(hist, key))
    ensures hist != [] ==> AtMost(TimesOf(hist, key), hist[|hist| - 1].time)
  {
    if hist != [] {
      var init := hist[..|hist| - 1];
      TimesAscend(init, key);
      if init == [] {
        assert TimesOf(init, key) == [];
      } else {
        assert hist[|init| - 1].time <= hist[|init|].time;
      }
    }
  }

  predicate AtMost(ts: seq<int>, c: int) {
    forall i | 0 <= i < |ts| :: ts[i] <= c
  }

  predicate AtLeast(ts: seq<int>, c: int) {
    forall i | 0 <= i < |ts| :: ts[i] >= c
  }

  lemma {:induction false} SinceKeepsAll(ts: seq<int>, cutoff: int)
    requires AtLeast(ts, cutoff)
    ensures Since(ts, cutoff) == ts
  {
    if ts != [] {
      SinceKeepsAll(ts[..|ts| - 1], cutoff);
      assert ts == ts[..|ts| - 1] + [ts[|ts| - 1]];
    }
  }

  lemma {:induction false} SinceDropsHead(ts: seq<int>, cutoff: int)
    requires ts != [] && ts[0] < cutoff
    ensures Since(ts, cutoff) == Since(ts[1..], cutoff)
  {
    if |ts| > 1 {
      var init := ts[..|ts| - 1];
      SinceDropsHead(init, cutoff);
      assert ts[1..][..|ts| - 2] == init[1..];
    } else {
      assert Since(ts[..0], cutoff) == [];
    }
  }

  /** Popping from the front of a sorted window filters it. */
  lemma {:induction false} EvictIsSince(ts: seq<int>, cutoff: int)
    requires Ascending(ts)
    ensures Evict(ts, cutoff) == Since(ts, cutoff)
  {
    if ts != [] && ts[0] < cutoff {
      SinceDropsHead(ts, cutoff);
      EvictIsSince(ts[1..], cutoff);
    } else {
      assert AtLeast(ts, cutoff);
      SinceKeepsAll(ts, cutoff);
    }
  }

  lemma {:induction false} SinceTwice(ts: seq<int>, c: int, d: int)
    requires c <= d
    ensures Since(Since(ts, c), d) == Since(ts, d)
  {
    if ts != [] {
      var init, t := ts[..|ts| - 1], ts[|ts| - 1];
      SinceTwice(init, c, d);
      var s := Since(ts, c);
      if t >= c {
        assert s[..|s| - 1] == Since(init, c);
      } else {
        assert s == Since(init, c);
      }
    }
  }

  lemma {:induction false} SinceAscends(ts: seq<int>, c: int)
    requires Ascending(ts)
    ensures Ascending(Since(ts, c)) && forall b :: AtMost(ts, b) ==> AtMost(Since(ts, c), b)
  {
    if ts != [] {
      var init := ts[..|ts| - 1];
      SinceAscends(init, c);
      forall b | AtMost(ts, b) ensures AtMost(Since(ts, c), b) {
        assert AtMost(init, b);
      }
      assert AtMost(init, ts[|ts| - 1]);
    }
  }

  /** What the last attempt of a history does to a key's deque and to its attempt times. */
  lemma {:induction false} LastAttempt(span: int, hist: seq<Attempt>, key: PyStr)
    requires hist != []
    ensures var init, a := hist[..|hist| - 1], hist[|hist| - 1];
            var was, times := WindowOf(Replay(span, init), key), TimesOf(init, key);
            && WindowOf(Replay(span, hist), key) == (if a.key == key then Evict(was, a.time - span) + [a.time] else was)
            && TimesOf(hist, key) == (if a.key == key then times + [a.time] else times)
  {
    hide Evict;
  }

  /**
   * The deque is a filter of the full history: at any later cutoff it yields exactly the key's
   * attempts since that cutoff, whatever the other keys did, and it stays sorted.
   */
  lemma {:induction false} WindowIsHistory(span: int, hist: seq<Attempt>, key: PyStr, cutoff: int)
    requires Clocked(hist) && (hist != [] ==> cutoff >= hist[|hist| - 1].time - span)
    ensures Ascending(WindowOf(Replay(span, hist), key))
    ensures Evict(WindowOf(Replay(span, hist), key), cutoff) == Since(TimesOf(hist, key), cutoff)
  {
    hide Replay, TimesOf, WindowOf, Evict, Since, Ascending;
    if hist == [] {
      NothingYet(span, key, cutoff);
    } else {
      var init, a := hist[..|hist| - 1], hist[|hist| - 1];
      if init != [] { assert hist[|init| - 1].time <= a.time; }
      LastAttempt(span, hist, key);
      if a.key == key {
        WindowIsHistory(span, init, key, a.time - span);
        TimesAscend(init, key);
        if init == [] { NothingYet(span, key, cutoff); }
        WindowStep(TimesOf(init, key), a.time, a.time - span, cutoff);
      } else {
        WindowIsHistory(span, init, key, cutoff);
      }
    }
  }

  lemma {:induction false} NothingYet(span: int, key: PyStr, cutoff: int)
    ensures TimesOf([], key) == [] && WindowOf(Replay(span, []), key) == []
    ensures Since([], cutoff) == [] == Evict([], cutoff) && Ascending([])
  {}

  lemma {:induction false} WindowStep(ts: seq<int>, t: int, c: int, d: int)
    requires Ascending(ts) && AtMost(ts, t) && c <= d
    ensures Ascending(Since(ts, c) + [t])
    ensures Evict(Since(ts, c) + [t], d) == Since(ts + [t], d)
  {
    SinceAscends(ts, c);
    assert AtMost(Since(ts, c), t);
    var w := Since(ts, c) + [t];
    EvictIsSince(w, d);
    SinceTwice(ts, c, d);
    assert w[..|w| - 1] == Since(ts, c) && (ts + [t])[..|ts|] == ts;
  }

  /** After a call, the key's deque is exactly its attempts in the last `span` seconds. */
  lemma {:induction false} DequeAfterCall(span: int, hist: seq<Attempt>, a: Attempt)
    requires Clocked(hist + [a]) && span >= 0
    ensures WindowOf(Replay(span, hist + [a]), a.key) == Since(TimesOf(hist + [a], a.key), a.time - span)
  {
    ClockedPrefix(hist, a);
    WindowIsHistory(span, hist, a.key, a.time - span);
    OneMore(span, hist, a);
    var ts := TimesOf(hist, a.key);
    assert (ts + [a.time])[..|ts|] == ts;
  }

  lemma {:induction false} ReplayNone(span: int)
    ensures Replay(span, []) == map[]
  {}

  /** One more attempt, seen by the limiter and by the history. */
  lemma {:induction false} OneMore(span: int, hist: seq<Attempt>, a: Attempt)
    ensures Replay(span, hist + [a]) == Recorded(Replay(span, hist), span, a.key, a.time)
    ensures TimesOf(hist + [a], a.key) == TimesOf(hist, a.key) + [a.time]
  {
    hide Recorded;
    assert (hist + [a])[..|hist|] == hist;
  }

  lemma {:induction false} ClockedPrefix(hist: seq<Attempt>, a: Attempt)
    requires Clocked(hist + [a])
    ensures Clocked(hist) && forall i | 0 <= i < |hist| :: hist[i].time <= a.time
  {
    var all := hist + [a];
    forall i, j | 0 <= i < j < |hist| ensures hist[i].time <= hist[j].time {
      assert all[i].time <= all[j].time;
    }
    forall i | 0 <= i < |hist| ensures hist[i].time <= a.time {
      assert all[i].time <= all[|hist|].time;
    }
  }

  /** An attempt is allowed exactly when fewer than `limit` of its key's attempts lie in the window. */
  lemma {:induction false} AllowsIff(limit: int, span: int, hist: seq<Attempt>, a: Attempt)
    requires Clocked(hist + [a])
    ensures Allows(limit, span, hist, a) <==> |Since(TimesOf(hist, a.key), a.time - span)| < limit
  {
    ClockedPrefix(hist, a);
    WindowIsHistory(span, hist, a.key, a.time - span);
  }

  lemma {:induction false} SinceMonotone(ts: seq<int>, c: int, d: int)
    requires c <= d
    ensures |Since(ts, d)| <= |Since(ts, c)|
  {
    SinceTwice(ts, c, d);
  }

  // ----- sustained bursts -----

  /** Each time, and the new one, comes at most `gap` after the one before it. */
  predicate Dense(ts: seq<int>, gap: int) {
    forall i | 0 < i < |ts| :: ts[i] - ts[i - 1] <= gap
  }

  lemma {:induction false} DenseReach(ts: seq<int>, gap: int, m: nat)
    requires Dense(ts, gap) && m < |ts|
    ensures ts[|ts| - 1] - ts[|ts| - 1 - m] <= m * gap
  {
    if m > 0 {
      DenseReach(ts, gap, m - 1);
      var i := |ts| - m;
      assert ts[i] - ts[i - 1] <= gap;
      assert m * gap == (m - 1) * gap + gap;
    }
  }

  lemma {:induction false} SinceHolds(ts: seq<int>, c: int, m: nat)
    requires Ascending(ts) && m <= |ts| && (m > 0 ==> ts[|ts| - m] >= c)
    ensures |Since(ts, c)| >= m
  {
    if m > 0 {
      var init := ts[..|ts| - 1];
      assert ts[|ts| - m] <= ts[|ts| - 1] by { if m > 1 { assert |ts| - m < |ts| - 1; } }
      SinceHolds(init, c, m - 1);
    }
  }

  /**
   * While a key keeps knocking with gaps such that `limit` of them fit in the window, every attempt
   * after its first `limit` is rejected.
   */
  lemma {:induction false} BurstStaysLimited(limit: nat, span: int, hist: seq<Attempt>, a: Attempt, gap: int)
    requires Clocked(hist + [a]) && limit * gap <= span
    requires |TimesOf(hist, a.key)| >= limit && Dense(TimesOf(hist, a.key) + [a.time], gap)
    ensures !Allows(limit, span, hist, a)
  {
    var ts := TimesOf(hist, a.key);
    var all := ts + [a.time];
    AllowsIff(limit, span, hist, a);
    ClockedPrefix(hist, a);
    TimesAscend(hist, a.key);
    DenseReach(all, gap, limit);
    SinceHolds(ts, a.time - span, limit);
  }

  lemma {:induction false} SinceNone(ts: seq<int>, c: int)
    requires AtMost(ts, c - 1)
    ensures Since(ts, c) == []
  {
    if ts != [] {
      SinceNone(ts[..|ts| - 1], c);
    }
  }

  /** A key silent for longer than the window is allowed again. */
  lemma {:induction false} SilenceForgives(limit: int, span: int, hist: seq<Attempt>, a: Attempt)
    requires Clocked(hist + [a]) && limit >= 1
    requires AtMost(TimesOf(hist, a.key), a.time - span - 1)
    ensures Allows(limit, span, hist, a)
  {
    AllowsIff(limit, span, hist, a);
    SinceNone(TimesOf(hist, a.key), a.time - span);
  }

  // ----- the bound on every interval -----

  /** How many of a key's attempts in the closed interval [lo, lo + width] were allowed. */
  function AllowedWithin(limit: int, span: int, hist: seq<Attempt>, key: PyStr, lo: int, width: int): nat {
    if hist == [] then 0
    else
      var init, a := hist[..|hist| - 1], hist[|hist| - 1];
      AllowedWithin(limit, span, init, key, lo, width)
      + if a.key == key && lo <= a.time <= lo + width && Allows(limit, span, init, a) then 1 else 0
  }

  lemma {:induction false} AllowedNone(limit: int, span: int, key: PyStr, lo: int, width: int)
    ensures AllowedWithin(limit, span, [], key, lo, width) == 0
  {}

  lemma {:induction false} AllowedMore(limit: int, span: int, hist: seq<Attempt>, a: Attempt, key: PyStr, lo: int, width: int)
    ensures AllowedWithin(limit, span, hist + [a], key, lo, width)
            == AllowedWithin(limit, span, hist, key, lo, width)
               + if a.key == key && lo <= a.time <= lo + width && Allows(limit, span, hist, a) then 1 else 0
  {
    hide Allows;
    assert (hist + [a])[..|hist|] == hist;
  }

  /** No attempt of the key carries a reading more than `skew` before one made earlier. */
  predicate Skewed(hist: seq<Attempt>, key: PyStr, skew: int) {
    forall i, j | 0 <= i < j < |hist| && hist[i].key == key && hist[j].key == key :: hist[i].time - skew <= hist[j].time
  }

  predicate NoneAfter(hist: seq<Attempt>, key: PyStr, t: int) {
    forall i | 0 <= i < |hist| && hist[i].key == key :: hist[i].time <= t
  }

  lemma {:induction false} SinceConcat(a: seq<int>, t: int, c: int)
    ensures Since(a + [t], c) == if t >= c then Since(a, c) + [t] else Since(a, c)
  {
    assert (a + [t])[..|a|] == a;
  }

  /** Popping what lies before one cutoff loses nothing at or after a later one, sorted or not. */
  lemma {:induction false} EvictKeeps(ts: seq<int>, c: int, d: int)
    requires c <= d
    ensures Since(Evict(ts, c), d) == Since(ts, d)
  {
    if ts != [] && ts[0] < c {
      SinceDropsHead(ts, d);
      EvictKeeps(ts[1..], c, d);
    }
  }

  /** The deque holds every attempt of the key since any cutoff that no eviction so far has passed. */
  lemma {:induction false} DequeHolds(span: int, hist: seq<Attempt>, key: PyStr, cutoff: int)
    requires NoneAfter(hist, key, cutoff + span)
    ensures Since(WindowOf(Replay(span, hist), key), cutoff) == Since(TimesOf(hist, key), cutoff)
  {
    hide Replay, TimesOf, WindowOf, Evict, Since;
    if hist == [] {
      NothingYet(span, key, cutoff);
    } else {
      var init, a := hist[..|hist| - 1], hist[|hist| - 1];
      DequeHolds(span, init, key, cutoff);
      LastAttempt(span, hist, key);
      if a.key == key {
        var w := WindowOf(Replay(span, init), key);
        EvictKeeps(w, a.time - span, cutoff);
        SinceConcat(Evict(w, a.time - span), a.time, cutoff);
        SinceConcat(TimesOf(init, key), a.time, cutoff);
      }
    }
  }

  lemma {:induction false} SkewedPrefix(hist: seq<Attempt>, a: Attempt, skew: int)
    requires Skewed(hist + [a], a.key, skew)
    ensures Skewed(hist, a.key, skew) && NoneAfter(hist, a.key, a.time + skew)
  {
    var all := hist + [a];
    forall i, j | 0 <= i < j < |hist| && hist[i].key == a.key && hist[j].key == a.key
      ensures hist[i].time - skew <= hist[j].time
    {
      assert all[i].time - skew <= all[j].time;
    }
    forall i | 0 <= i < |hist| && hist[i].key == a.key ensures hist[i].time <= a.time + skew {
      assert all[i].time - skew <= all[|hist|].time;
    }
  }

  lemma {:induction false} AllowedAreAttempts(limit: int, span: int, hist: seq<Attempt>, key: PyStr, lo: int, width: int)
    ensures AllowedWithin(limit, span, hist, key, lo, width) <= |Since(TimesOf(hist, key), lo)|
  {
    hide Allows;
    if hist != [] {
      var init, a := hist[..|hist| - 1], hist[|hist| - 1];
      AllowedAreAttempts(limit, span, init, key, lo, width);
      if a.key == key { SinceConcat(TimesOf(init, key), a.time, lo); }
    }
  }

  /**
   * When readings of a key's attempts may come out of order by `skew`, as they do when the clock is read
   * before the lock is taken, an interval shorter than the window by that much holds at most `limit`.
   */
  lemma {:induction false} SkewedBound(limit: int, span: int, hist: seq<Attempt>, key: PyStr, skew: nat, lo: int, width: int)
    requires Skewed(hist, key, skew) && width <= span - skew
    ensures AllowedWithin(limit, span, hist, key, lo, width) <= if limit > 0 then limit else 0
  {
    hide Allows, Skewed, NoneAfter;
    if hist != [] {
      var init, a := hist[..|hist| - 1], hist[|hist| - 1];
      SkewedInit(hist, key, skew);
      SkewedBound(limit, span, init, key, skew, lo, width);
      if a.key == key && lo <= a.time <= lo + width && Allows(limit, span, init, a) {
        SkewedRoom(limit, span, init, a, skew, lo);
        AllowedAreAttempts(limit, span, init, key, lo, width);
      }
    }
  }

  lemma {:induction false} SkewedInit(hist: seq<Attempt>, key: PyStr, skew: int)
    requires Skewed(hist, key, skew) && hist != []
    ensures var init, a := hist[..|hist| - 1], hist[|hist| - 1];
            Skewed(init, key, skew) && (a.key == key ==> NoneAfter(init, key, a.time + skew))
  {
    var init, a := hist[..|hist| - 1], hist[|hist| - 1];
    assert hist == init + [a];
    if a.key == key { SkewedPrefix(init, a, skew); }
  }

  /** When an attempt is allowed, fewer than the limit lie between `lo` and it. */
  lemma {:induction false} SkewedRoom(limit: int, span: int, hist: seq<Attempt>, a: Attempt, skew: nat, lo: int)
    requires NoneAfter(hist, a.key, a.time + skew) && Allows(limit, span, hist, a) && lo >= a.time + skew - span
    ensures |Since(TimesOf(hist, a.key), lo)| < limit
  {
    hide Replay, TimesOf, WindowOf, Evict, Since, NoneAfter;
    var c, w := a.time + skew - span, WindowOf(Replay(span, hist), a.key);
    assert c + span == a.time + skew;
    DequeHolds(span, hist, a.key, c);
    EvictKeeps(w, a.time - span, c);
    SinceMonotone(TimesOf(hist, a.key), c, lo);
  }

  /** No closed interval as long as the window holds more than `limit` allowed attempts of a key. */
  lemma {:induction false} IntervalBound(limit: int, span: int, hist: seq<Attempt>, key: PyStr, lo: int)
    requires Clocked(hist)
    ensures AllowedWithin(limit, span, hist, key, lo, span) <= if limit > 0 then limit else 0
  {
    hide AllowedWithin;
    assert Skewed(hist, key, 0);
    SkewedBound(limit, span, hist, key, 0, lo, span);
  }

  // ----- exactly how long an interval the bound holds for -----

  /** A limit of nothing allows nothing. */
  lemma {:induction false} NothingAllowed(limit: int, span: int, hist: seq<Attempt>, key: PyStr, lo: int, width: int)
    requires limit <= 0
    ensures AllowedWithin(limit, span, hist, key, lo, width) == 0
  {
    if hist != [] { NothingAllowed(limit, span, hist[..|hist| - 1], key, lo, width); }
  }

  lemma {:induction false} EvictAll(ts: seq<int>, c: int)
    ensures Evict(ts, c) == [] <==> AtMost(ts, c - 1)
  {
    if ts != [] && ts[0] < c {
      EvictAll(ts[1..], c);
      assert ts == [ts[0]] + ts[1..];
    }
  }

  lemma {:induction false} EvictBelow(ts: seq<int>, c: int, d: int)
    requires c <= d && AtMost(Evict(ts, c), d - 1)
    ensures AtMost(ts, d - 1)
  {
    if ts != [] && ts[0] < c {
      EvictBelow(ts[1..], c, d);
      assert ts == [ts[0]] + ts[1..];
    }
  }

  /** With a limit of one, a deque that a reading empties has let nothing in for a window before it, in any order. */
  lemma {:induction false} OneRoom(span: nat, hist: seq<Attempt>, key: PyStr, lo: int, width: int, y: int)
    requires AllowedWithin(1, span, hist, key, lo, width) > 0
    requires AtMost(WindowOf(Replay(span, hist), key), y - span - 1)
    ensures y > lo + span
  {
    hide Replay, WindowOf, Evict;
    var init, a := hist[..|hist| - 1], hist[|hist| - 1];
    LastAttempt(span, hist, key);
    if a.key == key {
      var w := WindowOf(Replay(span, init), key);
      var kept := Evict(w, a.time - span);
      var w' := kept + [a.time];
      assert w'[|w'| - 1] == a.time;
      assert AtMost(w', y - span - 1);
      forall i | 0 <= i < |kept| ensures kept[i] <= y - span - 1 {
        assert w'[i] == kept[i];
      }
      if AllowedWithin(1, span, init, key, lo, width) > 0 {
        EvictBelow(w, a.time - span, y - span);
        OneRoom(span, init, key, lo, width, y);
      }
    } else {
      OneRoom(span, init, key, lo, width, y);
    }
  }

  /** With a limit of one the bound holds for window-length intervals whatever the order of the readings. */
  lemma {:induction false} OneAtATime(span: nat, hist: seq<Attempt>, key: PyStr, lo: int, width: int)
    requires width <= span
    ensures AllowedWithin(1, span, hist, key, lo, width) <= 1
  {
    hide Replay, WindowOf, Evict;
    if hist != [] {
      var init, a := hist[..|hist| - 1], hist[|hist| - 1];
      OneAtATime(span, init, key, lo, width);
      if a.key == key && Allows(1, span, init, a) && AllowedWithin(1, span, init, key, lo, width) > 0 {
        EvictAll(WindowOf(Replay(span, init), key), a.time - span);
        OneRoom(span, init, key, lo, width, a.time);
      }
    }
  }

  lemma {:induction false} OneMoreAllowed(limit: int, span: int, hist: seq<Attempt>, a: Attempt, lo: int, width: int)
    ensures var w := WindowOf(Replay(span, hist), a.key);
            && WindowOf(Replay(span, hist + [a]), a.key) == Evict(w, a.time - span) + [a.time]
            && AllowedWithin(limit, span, hist + [a], a.key, lo, width)
               == AllowedWithin(limit, span, hist, a.key, lo, width)
                  + if lo <= a.time <= lo + width && |Evict(w, a.time - span)| < limit then 1 else 0
  {
    hide Evict;
    OneMore(span, hist, a);
    assert (hist + [a])[..|hist|] == hist;
  }

  function Zeros(n: nat): seq<int> { seq(n, _ => 0) }

  /** n attempts at time 0. */
  function Burst(key: PyStr, n: nat): seq<Attempt> { seq(n, _ => Attempt(key, 0)) }

  lemma {:induction false} BurstAllowed(limit: nat, span: nat, key: PyStr, n: nat, width: nat)
    requires n <= limit
    ensures WindowOf(Replay(span, Burst(key, n)), key) == Zeros(n)
    ensures AllowedWithin(limit, span, Burst(key, n), key, 0, width) == n
  {
    hide Replay, WindowOf, AllowedWithin;
    if n == 0 {
      NothingYet(span, key, 0);
      AllowedNone(limit, span, key, 0, width);
      assert Burst(key, 0) == [];
    } else {
      BurstAllowed(limit, span, key, n - 1, width);
      OneMoreAllowed(limit, span, Burst(key, n - 1), Attempt(key, 0), 0, width);
      assert Burst(key, n) == Burst(key, n - 1) + [Attempt(key, 0)];
      assert Zeros(n) == Zeros(n - 1) + [0];
    }
  }

  lemma {:induction false} ZerosGone(n: nat)
    ensures Evict(Zeros(n), 1) == []
  {
    if n > 0 {
      ZerosGone(n - 1);
      assert Zeros(n)[1..] == Zeros(n - 1);
    }
  }

  /** As many attempts as allowed at 0, and one when they have just left the window. */
  function Renewed(key: PyStr, limit: nat, span: nat): seq<Attempt> { Burst(key, limit) + [Attempt(key, span + 1)] }

  lemma {:induction false} RenewedAllowed(limit: nat, span: nat, key: PyStr, width: nat)
    requires limit >= 1
    ensures WindowOf(Replay(span, Renewed(key, limit, span)), key) == [span + 1]
    ensures AllowedWithin(limit, span, Renewed(key, limit, span), key, 0, width)
            == limit + if span + 1 <= width then 1 else 0
  {
    hide Replay, WindowOf, AllowedWithin;
    BurstAllowed(limit, span, key, limit, width);
    ZerosGone(limit);
    OneMoreAllowed(limit, span, Burst(key, limit), Attempt(key, span + 1), 0, width);
  }

  /** An attempt that read the clock at t and is let in after those. */
  lemma {:induction false} LateAllowed(limit: nat, span: nat, key: PyStr, t: nat, width: nat)
    requires limit >= 2 && t <= span + 1 && t <= width <= span
    ensures AllowedWithin(limit, span, Renewed(key, limit, span) + [Attempt(key, t)], key, 0, width) == limit + 1
  {
    hide Replay, WindowOf, AllowedWithin;
    RenewedAllowed(limit, span, key, width);
    OneMoreAllowed(limit, span, Renewed(key, limit, span), Attempt(key, t), 0, width);
  }

  /** The bound of `limit` on every closed interval of the given width, however the readings are skewed. */
  ghost predicate BoundHolds(limit: int, span: int, key: PyStr, skew: nat, width: int) {
    forall hist, lo | Skewed(hist, key, skew) ::
      AllowedWithin(limit, span, hist, key, lo, width) <= if limit > 0 then limit else 0
  }

  /**
   * Exactly how long an interval the bound holds for: a window's length shortened by the skew, or the
   * whole window's when only one attempt is allowed at a time.
   */
  lemma {:induction false} SkewedBoundIff(limit: int, span: nat, key: PyStr, skew: nat, width: nat)
    ensures BoundHolds(limit, span, key, skew, width)
            <==> limit <= 0 || width <= if limit == 1 then span else span - skew
  {
    hide AllowedWithin, Skewed;
    if limit <= 0 || width <= if limit == 1 then span else span - skew {
      forall hist, lo | Skewed(hist, key, skew)
        ensures AllowedWithin(limit, span, hist, key, lo, width) <= if limit > 0 then limit else 0
      {
        if limit <= 0 {
          NothingAllowed(limit, span, hist, key, lo, width);
        } else if limit == 1 {
          OneAtATime(span, hist, key, lo, width);
        } else {
          SkewedBound(limit, span, hist, key, skew, lo, width);
        }
      }
    } else {
      BoundFails(limit, span, key, skew, width);
    }
  }

  lemma {:induction false} BoundFails(limit: nat, span: nat, key: PyStr, skew: nat, width: nat)
    requires limit >= 1 && width > if limit == 1 then span else span - skew
    ensures !BoundHolds(limit, span, key, skew, width)
  {
    hide AllowedWithin;
    var hist := Renewed(key, limit, span);
    if width > span {
      RenewedAllowed(limit, span, key, width);
      assert Skewed(hist, key, skew);
      assert AllowedWithin(limit, span, hist, key, 0, width) > limit;
    } else {
      var t := if skew <= span then span + 1 - skew else 0;
      var late := hist + [Attempt(key, t)];
      LateAllowed(limit, span, key, t, width);
      assert Skewed(late, key, skew);
      assert AllowedWithin(limit, span, late, key, 0, width) > limit;
    }
  }

  /**
   * With the limiter's own numbers: five attempts at 0, one at 31, and one that read the clock at 1 and
   * was let in last make six within 30.
   */
  lemma {:induction false} LateReadingExceeds(key: PyStr)
    ensures AllowedWithin(5, 30, Burst(key, 5) + [Attempt(key, 31)] + [Attempt(key, 1)], key, 0, 30) == 6
  {
    hide AllowedWithin;
    LateAllowed(5, 30, key, 1, 30);
  }
}
