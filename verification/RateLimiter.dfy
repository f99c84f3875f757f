/** The two sliding-window limiters: the in-process one, which keeps a pruned list
    of accepted hits per key, and the Redis script, which keeps a sorted set of
    millisecond stamps under a key that expires. Both are compared with the plain
    rule "fewer than max accepted hits of the whole history lie in the window". */
module RateLimiter {
  import opened Prelude

  datatype Config = Config(windowMs: int, max: int)

  // ---- the plain rule, over the full history ----

  /** Hits h[i] with now - window < h[i] <= now. */
  function InWindow(h: seq<int>, now: int, window: int): nat {
    if h == [] then 0
    else InWindow(h[..|h| - 1], now, window) + if now - window < h[|h| - 1] <= now then 1 else 0
  }

  predicate Allows(c: Config, h: seq<int>, now: int) {
    InWindow(h, now, c.windowMs) < c.max
  }

  /** The accepted hits among calls at times `ts`. */
  function History(c: Config, ts: seq<int>): (h: seq<int>)
    ensures |h| <= |ts|
  {
    if ts == [] then []
    else
      var h := History(c, ts[..|ts| - 1]);
      if Allows(c, h, ts[|ts| - 1]) then h + [ts[|ts| - 1]] else h
  }

  ghost predicate Nondecreasing(ts: seq<int>) {
    forall i, j :: 0 <= i <= j < |ts| ==> ts[i] <= ts[j]
  }

  ghost predicate Increasing(ts: seq<int>) {
    forall i, j :: 0 <= i < j < |ts| ==> ts[i] < ts[j]
  }

  ghost predicate NoLaterThan(h: seq<int>, now: int) {
    forall i :: 0 <= i < |h| ==> h[i] <= now
  }

  lemma {:induction false} HistoryIsOrdered(c: Config, ts: seq<int>, now: int)
    requires Nondecreasing(ts) && NoLaterThan(ts, now)
    ensures Nondecreasing(History(c, ts)) && NoLaterThan(History(c, ts), now)
    decreases |ts|
  {
    if ts != [] {
      HistoryIsOrdered(c, ts[..|ts| - 1], ts[|ts| - 1]);
    }
  }

  // ---- the in-process limiter ----

  /** How many hits at the front are no later than `start`. */
  function Stale(ts: seq<int>, start: int): (n: nat)
    ensures n <= |ts| && (forall i :: 0 <= i < n ==> ts[i] <= start) && (n < |ts| ==> ts[n] > start)
  {
    if ts != [] && ts[0] <= start then 1 + Stale(ts[1..], start) else 0
  }

  function Active(c: Config, stored: seq<int>, now: int): seq<int> {
    stored[Stale(stored, now - c.windowMs)..]
  }

  lemma ActiveIs(c: Config, ts: seq<int>, now: int, n: nat)
    requires n <= |ts| && (forall i :: 0 <= i < n ==> ts[i] <= now - c.windowMs) && (n < |ts| ==> ts[n] > now - c.windowMs)
    ensures Active(c, ts, now) == ts[n..]
  {
  }

  /** The stored list after a check; a refusal leaves the unpruned list in place. */
  function Stored(c: Config, stored: seq<int>, now: int): seq<int> {
    if |Active(c, stored, now)| < c.max then Active(c, stored, now) + [now] else stored
  }

  /** The list a key holds after checks at `ts`. */
  function StoredAfter(c: Config, ts: seq<int>): seq<int> {
    if ts == [] then [] else Stored(c, StoredAfter(c, ts[..|ts| - 1]), ts[|ts| - 1])
  }

  function RetryMs(c: Config, active: seq<int>, now: int): int
    requires active != []
  {
    Max(0, active[0] + c.windowMs - now)
  }

  function CeilDiv1000(ms: nat): nat {
    (ms + 999) / 1000
  }

  datatype Answer = Allowed | Refused(retryAfterSeconds: Option<nat>)

  /** With nothing in the window a refusal (max <= 0) computes NaN: no number at all. */
  function AnswerOf(c: Config, stored: seq<int>, now: int): Answer {
    var active := Active(c, stored, now);
    if |active| < c.max then Allowed
    else if active == [] then Refused(None)
    else Refused(Some(CeilDiv1000(RetryMs(c, active, now))))
  }

  class SlidingWindowRateLimiter {
    const config: Config
    var hits: map<string, seq<int>>

    constructor (windowMs: int, max: int)
      ensures config == Config(windowMs, max) && hits == map[]
    {
      config := Config(windowMs, max);
      hits := map[];
    }

    function ListOf(key: string): seq<int>
      reads this
    {
      if key in hits then hits[key] else []
    }

    method Check(key: string, now: int) returns (answer: Answer)
      modifies this`hits
      ensures answer == AnswerOf(config, old(ListOf(key)), now)
      ensures ListOf(key) == Stored(config, old(ListOf(key)), now)
      ensures forall k :: k != key ==> ListOf(k) == old(ListOf(k))
    {
      hide Active;
      var windowStart := now - config.windowMs;
      var timestamps := if key in hits then hits[key] else [];
      var idx := 0;
      while idx < |timestamps| && timestamps[idx] <= windowStart
        invariant 0 <= idx <= |timestamps|
        invariant forall i :: 0 <= i < idx ==> timestamps[i] <= windowStart
      {
        idx := idx + 1;
      }
      ActiveIs(config, timestamps, now, idx);
      var active := if idx > 0 then timestamps[idx..] else timestamps;
      if |active| >= config.max {
        if active == [] {
          return Refused(None);
        }
        var retryAfterMs := Max(0, active[0] + config.windowMs - now);
        return Refused(Some((retryAfterMs + 999) / 1000));
      }
      active := active + [now];
      hits := hits[key := active];
      answer := Allowed;
    }
  }

  /** On a sorted history, counting the window is pruning its stale front. */
  lemma {:induction false} CountIsPruning(h: seq<int>, now: int, window: int, k: nat)
    requires Nondecreasing(h) && NoLaterThan(h, now) && k <= |h|
    requires forall i :: 0 <= i < k ==> h[i] <= now - window
    requires k == |h| || h[k] > now - window
    ensures InWindow(h, now, window) == |h| - k
    decreases |h|
  {
    if h != [] {
      var front := h[..|h| - 1];
      if k == |h| {
        CountIsPruning(front, now, window, k - 1);
      } else {
        CountIsPruning(front, now, window, k);
      }
    }
  }

  /** What the pruned list still knows: it is the end of the history, and what it lacks is stale for good. */
  ghost predicate Remembers(c: Config, stored: seq<int>, h: seq<int>, now: int) {
    && |stored| <= |h|
    && stored == h[|h| - |stored|..]
    && forall i :: 0 <= i < |h| - |stored| ==> h[i] <= now - c.windowMs
  }

  lemma ActiveCountsTheWindow(c: Config, stored: seq<int>, h: seq<int>, before: int, now: int)
    requires Remembers(c, stored, h, before) && before <= now && Nondecreasing(h) && NoLaterThan(h, now)
    ensures |Active(c, stored, now)| == InWindow(h, now, c.windowMs)
    ensures Remembers(c, Active(c, stored, now), h, now)
  {
    var dropped := |h| - |stored|;
    var k := dropped + Stale(stored, now - c.windowMs);
    forall i | 0 <= i < k ensures h[i] <= now - c.windowMs {
      if i >= dropped {
        assert h[i] == stored[i - dropped];
      }
    }
    assert k < |h| ==> h[k] == stored[k - dropped];
    assert Active(c, stored, now) == h[k..];
    CountIsPruning(h, now, c.windowMs, k);
  }

  lemma RemembersLater(c: Config, stored: seq<int>, h: seq<int>, t: int, now: int)
    requires Remembers(c, stored, h, t) && t <= now
    ensures Remembers(c, stored, h, now)
  {
  }

  lemma AppendRemembers(c: Config, stored: seq<int>, h: seq<int>, t: int)
    requires Remembers(c, stored, h, t)
    ensures Remembers(c, stored + [t], h + [t], t)
  {
    assert stored + [t] == (h + [t])[|h| - |stored|..];
  }

  lemma CheckRemembers(c: Config, stored: seq<int>, h: seq<int>, t: int)
    requires Remembers(c, stored, h, t) && Nondecreasing(h) && NoLaterThan(h, t)
    ensures Remembers(c, Stored(c, stored, t), if Allows(c, h, t) then h + [t] else h, t)
  {
    hide Active, InWindow, Remembers, Nondecreasing, NoLaterThan;
    ActiveCountsTheWindow(c, stored, h, t, t);
    AppendRemembers(c, Active(c, stored, t), h, t);
  }

  lemma {:induction false} StoredRemembers(c: Config, ts: seq<int>, now: int)
    requires Nondecreasing(ts) && NoLaterThan(ts, now)
    ensures Remembers(c, StoredAfter(c, ts), History(c, ts), now)
    decreases |ts|
  {
    if ts != [] {
      var t := ts[|ts| - 1];
      var rest := ts[..|ts| - 1];
      StoredRemembers(c, rest, t);
      HistoryIsOrdered(c, rest, t);
      CheckRemembers(c, StoredAfter(c, rest), History(c, rest), t);
      assert Remembers(c, StoredAfter(c, ts), History(c, ts), t);
      RemembersLater(c, StoredAfter(c, ts), History(c, ts), t, now);
    }
  }

  /** The limiter refines the plain rule: after any calls at nondecreasing times,
      the next one is allowed exactly when fewer than max accepted hits of the
      full history lie in (now - window, now]. */
  lemma PrunedListRefinesFullHistory(c: Config, ts: seq<int>, now: int)
    requires Nondecreasing(ts) && NoLaterThan(ts, now)
    ensures AnswerOf(c, StoredAfter(c, ts), now).Allowed? <==> Allows(c, History(c, ts), now)
  {
    StoredRemembers(c, ts, now);
    HistoryIsOrdered(c, ts, now);
    ActiveCountsTheWindow(c, StoredAfter(c, ts), History(c, ts), now, now);
  }

  /** Counting only shrinks when the end of the window moves past every hit. */
  lemma {:induction false} WindowSlides(h: seq<int>, a: int, t: int, window: int)
    requires NoLaterThan(h, a) && a <= t
    ensures InWindow(h, t, window) <= InWindow(h, a, window)
    decreases |h|
  {
    if h != [] {
      WindowSlides(h[..|h| - 1], a, t, window);
    }
  }

  /** No window of that length, wherever it ends, ever holds more than max accepted hits. */
  lemma {:induction false} NoWindowOverflows(c: Config, ts: seq<int>, t: int)
    requires Nondecreasing(ts) && c.max >= 0
    ensures InWindow(History(c, ts), t, c.windowMs) <= c.max
    decreases |ts|
  {
    if ts != [] {
      var rest, a := ts[..|ts| - 1], ts[|ts| - 1];
      NoWindowOverflows(c, rest, t);
      var h := History(c, rest);
      if Allows(c, h, a) {
        assert (h + [a])[..|h|] == h;
        if a <= t {
          HistoryIsOrdered(c, rest, a);
          WindowSlides(h, a, t, c.windowMs);
        }
      }
    }
  }

  /** On a sorted history with k stale hits and more than k hits, the window is
      full enough to refuse until hit k leaves it, and no longer. */
  lemma OldestDecides(h: seq<int>, now: int, t: int, c: Config, k: nat)
    requires Nondecreasing(h) && NoLaterThan(h, now) && now <= t && k < |h|
    requires forall i :: 0 <= i < k ==> h[i] <= now - c.windowMs
    requires h[k] > now - c.windowMs && |h| - k == c.max
    ensures Allows(c, h, t) <==> t >= h[k] + c.windowMs
  {
    if t < h[k] + c.windowMs {
      CountIsPruning(h, t, c.windowMs, k);
    } else {
      var stale := Stale(h, t - c.windowMs);
      assert stale > k;
      CountIsPruning(h, t, c.windowMs, stale);
    }
  }

  /** A refusal finds the window full: it holds exactly max hits, the last ones of the history. */
  lemma RefusedIsFull(c: Config, ts: seq<int>, now: int)
    requires Nondecreasing(ts) && NoLaterThan(ts, now) && c.max >= 1
    requires |Active(c, StoredAfter(c, ts), now)| >= c.max
    ensures |Active(c, StoredAfter(c, ts), now)| == c.max <= |History(c, ts)|
    ensures Remembers(c, Active(c, StoredAfter(c, ts), now), History(c, ts), now)
    ensures Nondecreasing(History(c, ts)) && NoLaterThan(History(c, ts), now)
    ensures Active(c, StoredAfter(c, ts), now)[0] > now - c.windowMs
    ensures History(c, ts + [now]) == History(c, ts)
  {
    var h, stored := History(c, ts), StoredAfter(c, ts);
    StoredRemembers(c, ts, now);
    HistoryIsOrdered(c, ts, now);
    ActiveCountsTheWindow(c, stored, h, now, now);
    NoWindowOverflows(c, ts, now);
    assert (ts + [now])[..|ts|] == ts;
  }

  /** The advice of a refusal is exact. A refused caller that then stays alone on
      its key is allowed at `t` exactly from the retry instant on. */
  lemma RetryInstantIsExact(c: Config, ts: seq<int>, now: int, t: int)
    requires Nondecreasing(ts) && NoLaterThan(ts, now) && c.max >= 1 && now <= t
    requires |Active(c, StoredAfter(c, ts), now)| >= c.max
    ensures RetryMs(c, Active(c, StoredAfter(c, ts), now), now) > 0
    ensures Allows(c, History(c, ts + [now]), t) <==> t >= now + RetryMs(c, Active(c, StoredAfter(c, ts), now), now)
  {
    hide History, StoredAfter, Active, Allows, Nondecreasing, NoLaterThan;
    RefusedIsFull(c, ts, now);
    var h, active := History(c, ts), Active(c, StoredAfter(c, ts), now);
    var k := |h| - |active|;
    assert h[k] == active[0];
    OldestDecides(h, now, t, c, k);
  }

  /** In the whole seconds the caller is told: that many suffice and one fewer does not. */
  lemma RetryAdviceIsExact(c: Config, ts: seq<int>, now: int, t: int)
    requires Nondecreasing(ts) && NoLaterThan(ts, now) && c.max >= 1 && now <= t
    requires AnswerOf(c, StoredAfter(c, ts), now).Refused?
    ensures var s := AnswerOf(c, StoredAfter(c, ts), now).retryAfterSeconds;
      && s.Some? && s.value >= 1
      && (t >= now + 1000 * s.value ==> Allows(c, History(c, ts + [now]), t))
      && (t <= now + 1000 * (s.value - 1) ==> !Allows(c, History(c, ts + [now]), t))
  {
    RetryInstantIsExact(c, ts, now, t);
  }

  // ---- keys do not interfere ----

  datatype Call = Call(key: string, at: int)

  function TimesOf(calls: seq<Call>, key: string): seq<int> {
    if calls == [] then []
    else
      var last := calls[|calls| - 1];
      TimesOf(calls[..|calls| - 1], key) + if last.key == key then [last.at] else []
  }

  function TableAfter(c: Config, calls: seq<Call>): map<string, seq<int>> {
    if calls == [] then map[]
    else
      var last := calls[|calls| - 1];
      var t := TableAfter(c, calls[..|calls| - 1]);
      t[last.key := Stored(c, if last.key in t then t[last.key] else [], last.at)]
  }

  /** Whatever other keys do, a key's list is the one its own calls produce. */
  lemma {:induction false} KeysAreIndependent(c: Config, calls: seq<Call>, key: string)
    ensures (if key in TableAfter(c, calls) then TableAfter(c, calls)[key] else []) == StoredAfter(c, TimesOf(calls, key))
    decreases |calls|
  {
    if calls != [] {
      var last := calls[|calls| - 1];
      KeysAreIndependent(c, calls[..|calls| - 1], key);
      if last.key == key {
        var before := TimesOf(calls[..|calls| - 1], key);
        assert (before + [last.at])[..|before|] == before;
      } else {
        assert TimesOf(calls, key) == TimesOf(calls[..|calls| - 1], key);
      }
    }
  }

  // ---- the Redis script ----

  /** A sorted set whose members are their own scores, and when Redis drops the key. */
  datatype Bucket = Bucket(stamps: set<int>, deadline: int)

  function Live(b: Bucket, now: int): set<int> {
    if now > b.deadline then {} else b.stamps
  }

  /** ZREMRANGEBYSCORE key 0 window_start. */
  function Kept(c: Config, b: Bucket, now: int): set<int> {
    set s | s in Live(b, now) && !(0 <= s <= now - c.windowMs)
  }

  predicate ScriptAllows(c: Config, b: Bucket, now: int) {
    |Kept(c, b, now)| < c.max
  }

  function ScriptNext(c: Config, b: Bucket, now: int): Bucket {
    var kept := Kept(c, b, now);
    if |kept| < c.max then Bucket(kept + {now}, now + c.windowMs + 1000)
    else if now > b.deadline then Bucket({}, b.deadline)
    else Bucket(kept, b.deadline)
  }

  class RedisRateKey {
    const config: Config
    var bucket: Bucket

    constructor (config: Config)
      ensures this.config == config && bucket == Bucket({}, 0)
    {
      this.config := config;
      bucket := Bucket({}, 0);
    }

    /** Returns the verdict and retry_after_ms, zero on a yes. */
    method AllowRate(now: int) returns (allowed: bool, retryAfterMs: int)
      modifies this`bucket
      ensures bucket.stamps == (set s | s in old(bucket.stamps) && now <= old(bucket.deadline) && !(0 <= s <= now - config.windowMs))
                               + if allowed then {now} else {}
      ensures bucket.deadline == if allowed then now + config.windowMs + 1000 else old(bucket.deadline)
      ensures bucket == ScriptNext(config, old(bucket), now)
      ensures allowed <==> ScriptAllows(config, old(bucket), now)
      ensures allowed ==> retryAfterMs == 0
      ensures !allowed && Kept(config, old(bucket), now) == {} ==> retryAfterMs == Max(0, config.windowMs)
      ensures !allowed && Kept(config, old(bucket), now) != {} ==>
        exists oldest :: oldest in Kept(config, old(bucket), now)
          && (forall s :: s in Kept(config, old(bucket), now) ==> oldest <= s)
          && retryAfterMs == Max(0, oldest + config.windowMs - now)
    {
      var stamps := if now > bucket.deadline then {} else bucket.stamps;
      stamps := set s | s in stamps && !(0 <= s <= now - config.windowMs);
      assert stamps == Kept(config, bucket, now);
      bucket := bucket.(stamps := stamps);
      if |stamps| >= config.max {
        hide Kept;
        var oldest := Oldest(stamps, now);
        return false, Max(0, oldest + config.windowMs - now);
      }
      bucket := Bucket(stamps + {now}, now + config.windowMs + 1000);
      return true, 0;
    }
  }

  /** ZRANGE key 0 0: the least stamp, `none` when there is none. */
  method Oldest(stamps: set<int>, none: int) returns (oldest: int)
    ensures stamps == {} ==> oldest == none
    ensures stamps != {} ==> oldest in stamps && forall s :: s in stamps ==> oldest <= s
  {
    oldest := none;
    if stamps != {} {
      LeastExists(stamps);
      oldest :| oldest in stamps && forall s :: s in stamps ==> oldest <= s;
    }
  }

  lemma {:induction false} LeastExists(s: set<int>)
    requires s != {}
    ensures exists x :: x in s && forall y :: y in s ==> x <= y
    decreases |s|
  {
    assert exists x :: x in s by {
      if forall x :: x !in s {
        assert false;
      }
    }
    var x :| x in s;
    var rest := s - {x};
    if rest != {} {
      LeastExists(rest);
      var y :| y in rest && forall z :: z in rest ==> y <= z;
      assert forall z :: z in s ==> z == x || z in rest;
      if y < x {
        assert forall z :: z in s ==> y <= z;
      } else {
        assert forall z :: z in s ==> x <= z;
      }
    } else {
      assert forall z :: z in s ==> z == x;
    }
  }

  function BucketAfter(c: Config, ts: seq<int>): Bucket {
    if ts == [] then Bucket({}, 0) else ScriptNext(c, BucketAfter(c, ts[..|ts| - 1]), ts[|ts| - 1])
  }

  /** Different millisecond stamps of `h` in the window. */
  function StampsInWindow(h: seq<int>, now: int, window: int): set<int> {
    set i | 0 <= i < |h| && now - window < h[i] <= now :: h[i]
  }

  predicate AllowsStamps(c: Config, h: seq<int>, now: int) {
    |StampsInWindow(h, now, c.windowMs)| < c.max
  }

  /** The accepted hits when equal stamps count once. */
  function StampHistory(c: Config, ts: seq<int>): seq<int> {
    if ts == [] then []
    else
      var h := StampHistory(c, ts[..|ts| - 1]);
      if AllowsStamps(c, h, ts[|ts| - 1]) then h + [ts[|ts| - 1]] else h
  }

  /** What the bucket still knows: every remembered stamp was accepted, and
      whatever is missing, by pruning or by the key expiring, is stale for good. */
  ghost predicate BucketRemembers(c: Config, b: Bucket, h: seq<int>, now: int) {
    && (forall s :: s in b.stamps ==> s in h && 0 <= s)
    && (forall s :: s in h ==> s in b.stamps || s <= now - c.windowMs)
    && (forall s :: s in b.stamps ==> s + c.windowMs + 1000 <= b.deadline || s <= now - c.windowMs)
    && NoLaterThan(h, now)
  }

  lemma KeptIsTheWindow(c: Config, b: Bucket, h: seq<int>, now: int)
    requires BucketRemembers(c, b, h, now)
    ensures Kept(c, b, now) == StampsInWindow(h, now, c.windowMs)
  {
    forall s ensures s in Kept(c, b, now) <==> s in StampsInWindow(h, now, c.windowMs) {
      if s in StampsInWindow(h, now, c.windowMs) {
        assert s in h && s in b.stamps;
      }
      if s in Kept(c, b, now) {
        var i :| 0 <= i < |h| && h[i] == s;
      }
    }
  }

  lemma ScriptRemembers(c: Config, b: Bucket, h: seq<int>, t: int)
    requires BucketRemembers(c, b, h, t) && t >= 0
    ensures BucketRemembers(c, ScriptNext(c, b, t), if AllowsStamps(c, h, t) then h + [t] else h, t)
  {
    KeptIsTheWindow(c, b, h, t);
    forall s | s in h && s !in Kept(c, b, t) ensures s <= t - c.windowMs {
      assert s !in StampsInWindow(h, t, c.windowMs);
      var i :| 0 <= i < |h| && h[i] == s;
    }
  }

  lemma BucketRemembersLater(c: Config, b: Bucket, h: seq<int>, t: int, now: int)
    requires BucketRemembers(c, b, h, t) && t <= now
    ensures BucketRemembers(c, b, h, now)
  {
  }

  lemma {:induction false} BucketAfterRemembers(c: Config, ts: seq<int>, now: int)
    requires Nondecreasing(ts) && NoLaterThan(ts, now) && (forall i :: 0 <= i < |ts| ==> 0 <= ts[i])
    ensures BucketRemembers(c, BucketAfter(c, ts), StampHistory(c, ts), now)
    decreases |ts|
  {
    if ts == [] {
      assert BucketRemembers(c, Bucket({}, 0), [], now);
    } else {
      var t, rest := ts[|ts| - 1], ts[..|ts| - 1];
      BucketAfterRemembers(c, rest, t);
      hide ScriptNext, AllowsStamps, BucketRemembers;
      ScriptRemembers(c, BucketAfter(c, rest), StampHistory(c, rest), t);
      BucketRemembersLater(c, BucketAfter(c, ts), StampHistory(c, ts), t, now);
    }
  }

  /** The script, pruning and key expiry included, allows a call exactly when fewer
      than max different millisecond stamps of its accepted history lie in the
      window; this holds for all nondecreasing clocks. */
  lemma ScriptCountsStamps(c: Config, ts: seq<int>, now: int)
    requires Nondecreasing(ts) && NoLaterThan(ts, now) && (forall i :: 0 <= i < |ts| ==> 0 <= ts[i])
    ensures ScriptAllows(c, BucketAfter(c, ts), now) <==> AllowsStamps(c, StampHistory(c, ts), now)
  {
    BucketAfterRemembers(c, ts, now);
    KeptIsTheWindow(c, BucketAfter(c, ts), StampHistory(c, ts), now);
  }

  predicate Recent(x: int, now: int, window: int) {
    now - window < x <= now
  }

  /** No two hits of the window share a stamp. */
  ghost predicate DistinctInWindow(h: seq<int>, now: int, window: int) {
    forall i, j :: 0 <= i < j < |h| && Recent(h[i], now, window) && Recent(h[j], now, window) ==> h[i] != h[j]
  }

  lemma StampsOfLonger(h: seq<int>, x: int, now: int, window: int)
    ensures StampsInWindow(h + [x], now, window) == StampsInWindow(h, now, window) + if Recent(x, now, window) then {x} else {}
  {
    var s := h + [x];
    forall y | y in StampsInWindow(h, now, window) ensures y in StampsInWindow(s, now, window) {
      var i :| 0 <= i < |h| && h[i] == y;
      assert s[i] == y;
    }
    if Recent(x, now, window) {
      assert s[|h|] == x;
    }
  }

  lemma DistinctOfLonger(h: seq<int>, x: int, now: int, window: int)
    ensures DistinctInWindow(h + [x], now, window)
            <==> DistinctInWindow(h, now, window) && (Recent(x, now, window) ==> x !in StampsInWindow(h, now, window))
  {
    var s := h + [x];
    if DistinctInWindow(s, now, window) {
      forall i, j | 0 <= i < j < |h| && Recent(h[i], now, window) && Recent(h[j], now, window) ensures h[i] != h[j] {
        assert s[i] == h[i] && s[j] == h[j];
      }
      if Recent(x, now, window) {
        forall i | 0 <= i < |h| && Recent(h[i], now, window) ensures h[i] != x {
          assert s[i] == h[i] && s[|h|] == x;
        }
      }
    }
  }

  /** Counting stamps never exceeds counting hits, and equals it exactly when the hits of
      the window are pairwise distinct. */
  lemma {:induction false} StampsAgainstHits(h: seq<int>, now: int, window: int)
    ensures |StampsInWindow(h, now, window)| <= InWindow(h, now, window)
    ensures |StampsInWindow(h, now, window)| == InWindow(h, now, window) <==> DistinctInWindow(h, now, window)
    decreases |h|
  {
    if h == [] {
      assert StampsInWindow(h, now, window) == {};
    } else {
      var front, x := h[..|h| - 1], h[|h| - 1];
      assert h == front + [x];
      StampsAgainstHits(front, now, window);
      StampsOfLonger(front, x, now, window);
      DistinctOfLonger(front, x, now, window);
      hide StampsInWindow, DistinctInWindow;
      if Recent(x, now, window) {
        var fs := StampsInWindow(front, now, window);
        assert x in fs ==> fs + {x} == fs;
        assert x !in fs ==> |fs + {x}| == |fs| + 1;
      }
    }
  }

  /** Max lies above the stamps of the window and not above its hits. */
  predicate Splits(c: Config, h: seq<int>, now: int) {
    |StampsInWindow(h, now, c.windowMs)| < c.max <= InWindow(h, now, c.windowMs)
  }

  /** On one accepted history the two rules decide the next call differently exactly when max
      lies between the two counts, and then it is the script that lets the call through. */
  lemma RulesDifferIffSplit(c: Config, h: seq<int>, now: int)
    ensures AllowsStamps(c, h, now) != Allows(c, h, now) <==> Splits(c, h, now)
    ensures Allows(c, h, now) ==> AllowsStamps(c, h, now)
  {
    StampsAgainstHits(h, now, c.windowMs);
  }

  /** They decide alike under every max exactly when no two accepted hits of the window share a stamp. */
  lemma RulesAgreeForEveryMaxIffDistinct(h: seq<int>, now: int, window: int)
    ensures (forall max :: AllowsStamps(Config(window, max), h, now) == Allows(Config(window, max), h, now))
            <==> DistinctInWindow(h, now, window)
  {
    StampsAgainstHits(h, now, window);
    var max := InWindow(h, now, window);
    assert AllowsStamps(Config(window, max), h, now) == Allows(Config(window, max), h, now)
      ==> |StampsInWindow(h, now, window)| >= InWindow(h, now, window);
  }

  predicate DecidedAlike(c: Config, ts: seq<int>, now: int) {
    ScriptAllows(c, BucketAfter(c, ts), now) == AnswerOf(c, StoredAfter(c, ts), now).Allowed?
  }

  /** Both implementations give every call of `ts` the same verdict. */
  predicate LimitersAgree(c: Config, ts: seq<int>) {
    forall i :: 0 <= i < |ts| ==> DecidedAlike(c, ts[..i], ts[i])
  }

  /** No call of `ts` comes when max splits the window of the in-process limiter's accepted hits. */
  predicate NeverSplit(c: Config, ts: seq<int>) {
    forall i :: 0 <= i < |ts| ==> !Splits(c, History(c, ts[..i]), ts[i])
  }

  lemma LastCall(c: Config, ts: seq<int>)
    requires ts != []
    ensures LimitersAgree(c, ts) <==> LimitersAgree(c, ts[..|ts| - 1]) && DecidedAlike(c, ts[..|ts| - 1], ts[|ts| - 1])
    ensures NeverSplit(c, ts) <==> NeverSplit(c, ts[..|ts| - 1]) && !Splits(c, History(c, ts[..|ts| - 1]), ts[|ts| - 1])
  {
    hide DecidedAlike, Splits, History;
    var front := ts[..|ts| - 1];
    forall i | 0 <= i < |front| ensures ts[..i] == front[..i] && ts[i] == front[i] {
    }
    if LimitersAgree(c, ts) {
      forall i | 0 <= i < |front| ensures DecidedAlike(c, front[..i], front[i]) {
        assert DecidedAlike(c, ts[..i], ts[i]);
      }
    }
    if NeverSplit(c, ts) {
      forall i | 0 <= i < |front| ensures !Splits(c, History(c, front[..i]), front[i]) {
        assert !Splits(c, History(c, ts[..i]), ts[i]);
      }
    }
  }

  /** The two implementations, pruning and key expiry included, decide a whole run of calls
      alike if and only if max never splits a window; and then they accept the same hits. */
  lemma {:induction false} LimitersAgreeIffNeverSplit(c: Config, ts: seq<int>)
    requires Nondecreasing(ts) && (forall i :: 0 <= i < |ts| ==> 0 <= ts[i])
    ensures LimitersAgree(c, ts) <==> NeverSplit(c, ts)
    ensures LimitersAgree(c, ts) ==> StampHistory(c, ts) == History(c, ts)
    decreases |ts|
  {
    hide LimitersAgree, NeverSplit, ScriptAllows, AnswerOf, AllowsStamps, Allows, Splits;
    if ts == [] {
      NoCalls(c);
    } else {
      var front, t := ts[..|ts| - 1], ts[|ts| - 1];
      LimitersAgreeIffNeverSplit(c, front);
      LastCall(c, ts);
      ScriptCountsStamps(c, front, t);
      PrunedListRefinesFullHistory(c, front, t);
      RulesDifferIffSplit(c, History(c, front), t);
    }
  }

  lemma NoCalls(c: Config)
    ensures LimitersAgree(c, []) && NeverSplit(c, [])
  {
  }

  lemma {:induction false} IncreasingNeverSplits(c: Config, ts: seq<int>)
    requires Increasing(ts)
    ensures NeverSplit(c, ts)
  {
    forall i | 0 <= i < |ts| ensures !Splits(c, History(c, ts[..i]), ts[i]) {
      HistoryIsIncreasing(c, ts[..i]);
      StampsAgainstHits(History(c, ts[..i]), ts[i], c.windowMs);
    }
  }

  lemma {:induction false} HistoryIsIncreasing(c: Config, ts: seq<int>)
    requires Increasing(ts)
    ensures Increasing(History(c, ts))
    ensures ts != [] ==> NoLaterThan(History(c, ts), ts[|ts| - 1])
    decreases |ts|
  {
    if ts != [] {
      var rest := ts[..|ts| - 1];
      HistoryIsIncreasing(c, rest);
      assert rest != [] ==> rest[|rest| - 1] < ts[|ts| - 1];
    }
  }

  /** When no two calls share a millisecond, both implementations decide alike. */
  lemma ScriptAgreesOnIncreasingStamps(c: Config, ts: seq<int>)
    requires Increasing(ts) && (forall i :: 0 <= i < |ts| ==> 0 <= ts[i])
    ensures LimitersAgree(c, ts)
  {
    IncreasingNeverSplits(c, ts);
    LimitersAgreeIffNeverSplit(c, ts);
  }

  /** Two hits at one instant. */
  lemma TwoHits(c: Config, t: int)
    requires c.max >= 2 && c.windowMs > 0
    ensures History(c, [t, t]) == [t, t] && InWindow([t, t], t, c.windowMs) == 2
  {
    assert [t, t][..1] == [t] && [t][..0] == [];
    assert InWindow([t], t, c.windowMs) == 1;
    assert History(c, [t]) == [t];
  }

  lemma OneStamp(t: int, window: int)
    requires window > 0
    ensures StampsInWindow([t, t], t, window) == {t}
  {
    assert t in StampsInWindow([t, t], t, window) by {
      assert [t, t][0] == t;
    }
  }

  /** They do not agree in general: of three calls in one millisecond under max 2,
      the in-process limiter refuses the third and the script lets it through. */
  lemma ScriptMissesHitsInOneMillisecond(t: nat)
    ensures !LimitersAgree(Config(1000, 2), [t, t, t])
    ensures ScriptAllows(Config(1000, 2), BucketAfter(Config(1000, 2), [t, t]), t)
  {
    var c, ts := Config(1000, 2), [t, t, t];
    TwoHits(c, t);
    OneStamp(t, 1000);
    hide LimitersAgree, History, InWindow, StampsInWindow, ScriptAllows, BucketAfter, StampHistory;
    assert ts[..2] == [t, t] && Splits(c, History(c, ts[..2]), ts[2]);
    LimitersAgreeIffNeverSplit(c, ts);
    TwoCallsAgree(c, t);
    LimitersAgreeIffNeverSplit(c, [t, t]);
    ScriptCountsStamps(c, [t, t], t);
  }

  lemma TwoCallsAgree(c: Config, t: nat)
    requires c.max == 2
    ensures NeverSplit(c, [t, t])
  {
    forall i | 0 <= i < 2 ensures !Splits(c, History(c, [t, t][..i]), t) {
      AtMostAll(History(c, [t, t][..i]), t, c.windowMs);
    }
  }

  lemma {:induction false} AtMostAll(h: seq<int>, now: int, window: int)
    ensures InWindow(h, now, window) <= |h|
    decreases |h|
  {
    if h != [] {
      AtMostAll(h[..|h| - 1], now, window);
    }
  }
}
