/** The bounded fixed-window rate limiter and the path of its retry hint to the client. */
module RateLimiter {
  import opened Text
  import opened Sequences

  /** Instants and durations in nanoseconds. */
  const SECOND: int := 1_000_000_000

  datatype Bucket = Bucket(windowStart: int, lastSeen: int, count: int)

  type Table = map<string, Bucket>

  datatype Config = Config(capacity: int, limit: int, window: int, ttl: int)

  datatype Answer = Answer(allowed: bool, retry: int)

  datatype Call = Call(key: string, at: int)

  function Cleaned(c: Config, t: Table, now: int): Table
  {
    map k | k in t && now - t[k].lastSeen < c.ttl :: t[k]
  }

  /** The key's bucket as a call finds it: created when absent, restarted when its window is over. */
  function Current(c: Config, t: Table, key: string, now: int): Bucket
  {
    var b := if key in t then t[key] else Bucket(now, now, 0);
    if now - b.windowStart >= c.window then Bucket(now, now, 0) else b.(lastSeen := now)
  }

  function Retry(c: Config, b: Bucket, now: int): int
  {
    var remaining := c.window - (now - b.windowStart);
    if remaining < SECOND then SECOND else remaining
  }

  /** One call against a table that has room for the key. */
  function Serve(c: Config, t: Table, key: string, now: int): (Table, Answer)
  {
    var b := Current(c, t, key, now);
    if b.count >= c.limit then (t[key := b], Answer(false, Retry(c, b, now)))
    else (t[key := b.(count := b.count + 1)], Answer(true, 0))
  }

  predicate Full(c: Config, t: Table, call: Call)
  {
    var cleaned := Cleaned(c, t, call.at);
    call.key != "" && call.key !in cleaned && |cleaned| >= c.capacity
  }

  function Allowed(c: Config, t: Table, call: Call): (Table, Answer)
  {
    if call.key == "" then (t, Answer(false, SECOND))
    else if Full(c, t, call) then (Cleaned(c, t, call.at), Answer(false, SECOND))
    else Serve(c, Cleaned(c, t, call.at), call.key, call.at)
  }

  /** The limiter that never evicts and never runs out of room. */
  function Unbounded(c: Config, t: Table, call: Call): (Table, Answer)
  {
    if call.key == "" then (t, Answer(false, SECOND)) else Serve(c, t, call.key, call.at)
  }

  class BoundedRateLimiter {
    const config: Config
    var entries: Table

    constructor (config: Config)
      ensures this.config == config && entries == map[]
    {
      this.config := config;
      entries := map[];
    }

    method CleanupLocked(now: int)
      modifies this
      ensures entries == Cleaned(config, old(entries), now)
    {
      var keys := entries.Keys;
      while keys != {}
        invariant keys <= entries.Keys <= old(entries).Keys
        invariant forall k :: k in entries ==> entries[k] == old(entries)[k]
        invariant forall k :: k in old(entries) ==>
                    (k in entries <==> k in keys || now - old(entries)[k].lastSeen < config.ttl)
        decreases keys
      {
        var key :| key in keys;
        keys := keys - {key};
        if now - entries[key].lastSeen >= config.ttl { entries := entries - {key}; }
      }
    }

    method Allow(key: string, now: int) returns (allowed: bool, retry: int)
      modifies this
      ensures (entries, Answer(allowed, retry)) == Allowed(config, old(entries), Call(key, now))
    {
      if key == "" { return false, SECOND; }
      CleanupLocked(now);
      var entry := Bucket(now, now, 0);
      if key in entries {
        entry := entries[key];
      } else if |entries| >= config.capacity {
        return false, SECOND;
      }
      if now - entry.windowStart >= config.window { entry := entry.(windowStart := now, count := 0); }
      entry := entry.(lastSeen := now);
      if entry.count >= config.limit {
        entries := entries[key := entry];
        retry := config.window - (now - entry.windowStart);
        if retry < SECOND { retry := SECOND; }
        return false, retry;
      }
      entry := entry.(count := entry.count + 1);
      entries := entries[key := entry];
      return true, 0;
    }
  }

  // ---- Runs

  predicate Ordered(from: int, calls: seq<Call>)
  {
    && (forall i :: 0 <= i < |calls| ==> from <= calls[i].at)
    && (forall i, j :: 0 <= i < j < |calls| ==> calls[i].at <= calls[j].at)
  }

  lemma OrderedTail(from: int, calls: seq<Call>)
    requires Ordered(from, calls) && calls != []
    ensures Ordered(calls[0].at, calls[1..])
  {
  }

  function After(c: Config, t: Table, calls: seq<Call>): Table
    decreases |calls|
  {
    if calls == [] then t else After(c, Allowed(c, t, calls[0]).0, calls[1..])
  }

  function Answers(c: Config, t: Table, calls: seq<Call>): (r: seq<Answer>)
    ensures |r| == |calls|
    decreases |calls|
  {
    if calls == [] then []
    else [Allowed(c, t, calls[0]).1] + Answers(c, Allowed(c, t, calls[0]).0, calls[1..])
  }

  function UnboundedAnswers(c: Config, t: Table, calls: seq<Call>): (r: seq<Answer>)
    ensures |r| == |calls|
    decreases |calls|
  {
    if calls == [] then []
    else [Unbounded(c, t, calls[0]).1] + UnboundedAnswers(c, Unbounded(c, t, calls[0]).0, calls[1..])
  }

  /** Buckets at time `now`: seen no earlier than their window began, and neither in the future. */
  ghost predicate Timely(t: Table, now: int)
  {
    forall k :: k in t ==> t[k].windowStart <= t[k].lastSeen <= now
  }

  lemma AllowedTimely(c: Config, t: Table, call: Call, from: int)
    requires Timely(t, from) && from <= call.at
    ensures Timely(Allowed(c, t, call).0, call.at)
  {
  }

  // ---- The table stays within its capacity

  lemma CleanedIsSmaller(c: Config, t: Table, now: int)
    ensures |Cleaned(c, t, now)| <= |t|
  {
    assert Cleaned(c, t, now).Keys <= t.Keys;
    SubsetSize(Cleaned(c, t, now).Keys, t.Keys);
    assert |Cleaned(c, t, now)| == |Cleaned(c, t, now).Keys| && |t| == |t.Keys|;
  }

  lemma CallWithinCapacity(c: Config, t: Table, call: Call)
    requires |t| <= c.capacity
    ensures |Allowed(c, t, call).0| <= c.capacity
  {
    if call.key != "" {
      CleanedIsSmaller(c, t, call.at);
      var cleaned := Cleaned(c, t, call.at);
      PutSize(cleaned, call.key, Current(c, cleaned, call.key, call.at));
      var b := Current(c, cleaned, call.key, call.at);
      PutSize(cleaned, call.key, b.(count := b.count + 1));
    }
  }

  lemma {:induction false} TableWithinCapacity(c: Config, t: Table, calls: seq<Call>)
    requires |t| <= c.capacity
    ensures |After(c, t, calls)| <= c.capacity
    decreases |calls|
  {
    if calls != [] {
      CallWithinCapacity(c, t, calls[0]);
      TableWithinCapacity(c, Allowed(c, t, calls[0]).0, calls[1..]);
    }
  }

  // ---- Eviction is transparent

  /** Same buckets, except that the unbounded table may also hold some whose window is over. */
  ghost predicate Agrees(c: Config, bounded: Table, unbounded: Table, now: int)
  {
    && Timely(unbounded, now)
    && (forall k :: k in bounded ==> k in unbounded && unbounded[k] == bounded[k])
    && (forall k :: k in unbounded && k !in bounded ==> now - unbounded[k].windowStart >= c.window)
  }

  lemma CleanedAgrees(c: Config, bounded: Table, unbounded: Table, from: int, now: int)
    requires c.ttl >= c.window && Agrees(c, bounded, unbounded, from) && from <= now
    ensures Agrees(c, Cleaned(c, bounded, now), unbounded, now)
  {
  }

  lemma CallAgrees(c: Config, bounded: Table, unbounded: Table, from: int, call: Call)
    requires c.ttl >= c.window && Agrees(c, bounded, unbounded, from) && from <= call.at && !Full(c, bounded, call)
    ensures Allowed(c, bounded, call).1 == Unbounded(c, unbounded, call).1
    ensures Agrees(c, Allowed(c, bounded, call).0, Unbounded(c, unbounded, call).0, call.at)
  {
    CleanedAgrees(c, bounded, unbounded, from, call.at);
  }

  predicate NeverFull(c: Config, t: Table, calls: seq<Call>)
    decreases |calls|
  {
    calls == [] || (!Full(c, t, calls[0]) && NeverFull(c, Allowed(c, t, calls[0]).0, calls[1..]))
  }

  lemma {:induction false} RunAgrees(c: Config, bounded: Table, unbounded: Table, from: int, calls: seq<Call>)
    requires c.ttl >= c.window && Agrees(c, bounded, unbounded, from) && Ordered(from, calls) && NeverFull(c, bounded, calls)
    ensures Answers(c, bounded, calls) == UnboundedAnswers(c, unbounded, calls)
    decreases |calls|
  {
    if calls != [] {
      CallAgrees(c, bounded, unbounded, from, calls[0]);
      OrderedTail(from, calls);
      RunAgrees(c, Allowed(c, bounded, calls[0]).0, Unbounded(c, unbounded, calls[0]).0, calls[0].at, calls[1..]);
    }
  }

  /** As long as it never runs out of room, the bounded limiter answers every call, hint included, like the unbounded one. */
  lemma EvictionIsTransparent(c: Config, from: int, calls: seq<Call>)
    requires c.ttl >= c.window && Ordered(from, calls) && NeverFull(c, map[], calls)
    ensures Answers(c, map[], calls) == UnboundedAnswers(c, map[], calls)
  {
    RunAgrees(c, map[], map[], from, calls);
  }

  // ---- Entries leave the table

  /** The last call of a key, if it made one. */
  function LastCallOf(calls: seq<Call>, key: string): Option<int>
  {
    if calls == [] then None
    else
      var last := calls[|calls| - 1];
      if last.key == key then Some(last.at) else LastCallOf(calls[..|calls| - 1], key)
  }

  /** The key called less than the time to live before. */
  predicate Recent(c: Config, calls: seq<Call>, key: string, now: int)
  {
    LastCallOf(calls, key).Some? && now - LastCallOf(calls, key).value < c.ttl
  }

  lemma {:induction false} AfterSnoc(c: Config, t: Table, calls: seq<Call>, last: Call)
    ensures After(c, t, calls + [last]) == Allowed(c, After(c, t, calls), last).0
    decreases |calls|
  {
    if calls == [] {
      assert ([] + [last])[1..] == [];
    } else {
      assert (calls + [last])[1..] == calls[1..] + [last];
      AfterSnoc(c, Allowed(c, t, calls[0]).0, calls[1..], last);
    }
  }

  /** Every entry was last seen at its key's last call. */
  lemma {:induction false} EntriesAreSeen(c: Config, calls: seq<Call>, key: string)
    requires key in After(c, map[], calls)
    ensures key != "" && LastCallOf(calls, key) == Some(After(c, map[], calls)[key].lastSeen)
    decreases |calls|
  {
    if calls != [] {
      var front, last := calls[..|calls| - 1], calls[|calls| - 1];
      assert calls == front + [last];
      AfterSnoc(c, map[], front, last);
      if key in After(c, map[], front) { EntriesAreSeen(c, front, key); }
    }
  }

  /** The keys that called less than the time to live before. */
  function RecentKeys(c: Config, calls: seq<Call>, now: int): set<string>
  {
    set call | call in calls && call.key != "" && Recent(c, calls, call.key, now) :: call.key
  }

  lemma {:induction false} LastCallIsCall(calls: seq<Call>, key: string)
    ensures LastCallOf(calls, key).Some? <==> exists i :: 0 <= i < |calls| && calls[i].key == key
    decreases |calls|
  {
    if calls != [] && calls[|calls| - 1].key != key { LastCallIsCall(calls[..|calls| - 1], key); }
  }

  lemma CleanedAreRecent(c: Config, calls: seq<Call>, now: int)
    ensures Cleaned(c, After(c, map[], calls), now).Keys <= RecentKeys(c, calls, now)
  {
    forall key | key in Cleaned(c, After(c, map[], calls), now) ensures key in RecentKeys(c, calls, now) {
      EntriesAreSeen(c, calls, key);
      LastCallIsCall(calls, key);
      var i :| 0 <= i < |calls| && calls[i].key == key;
      assert calls[i] in calls;
    }
  }

  /** After any calls the table holds nobody who had not called less than the time to live before the last of them. */
  lemma OnlyRecentKeysStay(c: Config, calls: seq<Call>, last: Call, key: string)
    requires last.key != "" && key in After(c, map[], calls + [last])
    ensures key == last.key || Recent(c, calls, key, last.at)
  {
    AfterSnoc(c, map[], calls, last);
    CleanedAreRecent(c, calls, last.at);
    if key != last.key {
      assert key in Cleaned(c, After(c, map[], calls), last.at);
      EntriesAreSeen(c, calls, key);
    }
  }

  /** A call meets a full table only when as many other keys as fit called less than the time to live before. */
  lemma FullByOthers(c: Config, calls: seq<Call>, call: Call)
    requires Full(c, After(c, map[], calls), call)
    ensures |RecentKeys(c, calls, call.at) - {call.key}| >= c.capacity
  {
    var cleaned := Cleaned(c, After(c, map[], calls), call.at);
    CleanedAreRecent(c, calls, call.at);
    SubsetSize(cleaned.Keys, RecentKeys(c, calls, call.at) - {call.key});
    assert |cleaned| == |cleaned.Keys|;
  }

  /** So a key that did not call within the time to live is admitted whenever fewer others than fit did. */
  lemma NewcomerIsAdmitted(c: Config, calls: seq<Call>, call: Call)
    requires c.limit >= 1 && call.key != "" && !Recent(c, calls, call.key, call.at)
    requires |RecentKeys(c, calls, call.at)| < c.capacity
    ensures Allowed(c, After(c, map[], calls), call).1 == Answer(true, 0)
    ensures call.key in Allowed(c, After(c, map[], calls), call).0
  {
    var t := After(c, map[], calls);
    if Full(c, t, call) {
      FullByOthers(c, calls, call);
      SubsetSize(RecentKeys(c, calls, call.at) - {call.key}, RecentKeys(c, calls, call.at));
    }
    if call.key in Cleaned(c, t, call.at) { EntriesAreSeen(c, calls, call.key); }
  }

  // ---- A time to live shorter than the window

  function UnboundedAfter(c: Config, t: Table, calls: seq<Call>): Table
    decreases |calls|
  {
    if calls == [] then t else UnboundedAfter(c, Unbounded(c, t, calls[0]).0, calls[1..])
  }

  lemma {:induction false} LastAnswers(c: Config, t: Table, u: Table, calls: seq<Call>, last: Call)
    ensures Answers(c, t, calls + [last])[|calls|] == Allowed(c, After(c, t, calls), last).1
    ensures UnboundedAnswers(c, u, calls + [last])[|calls|] == Unbounded(c, UnboundedAfter(c, u, calls), last).1
    ensures NeverFull(c, t, calls) && !Full(c, After(c, t, calls), last) ==> NeverFull(c, t, calls + [last])
    decreases |calls|
  {
    if calls == [] {
      assert ([] + [last])[1..] == [];
    } else {
      assert (calls + [last])[1..] == calls[1..] + [last];
      LastAnswers(c, Allowed(c, t, calls[0]).0, Unbounded(c, u, calls[0]).0, calls[1..], last);
    }
  }

  /** n calls of one key at time 0. */
  function Burst(n: nat): seq<Call> { if n == 0 then [] else [Call("k", 0)] + Burst(n - 1) }

  function One(count: int): Table { map["k" := Bucket(0, 0, count)] }

  lemma BurstStep(c: Config, count: int)
    requires 0 <= count < c.limit && c.ttl > 0 && c.window > 0
    ensures var t, call := One(count), Call("k", 0);
            Allowed(c, t, call).0 == One(count + 1) && Unbounded(c, t, call).0 == One(count + 1) && !Full(c, t, call)
  {
    var t := One(count);
    assert Cleaned(c, t, 0) == t;
    assert t["k" := Bucket(0, 0, count + 1)] == One(count + 1);
  }

  lemma {:induction false} BurstIsEarly(n: nat)
    ensures Ordered(0, Burst(n)) && |Burst(n)| == n && forall i :: 0 <= i < n ==> Burst(n)[i] == Call("k", 0)
  {
    if n > 0 { BurstIsEarly(n - 1); }
  }

  lemma {:induction false} BurstFills(c: Config, count: int, n: nat)
    requires 0 <= count && count + n <= c.limit && c.ttl > 0 && c.window > 0
    ensures After(c, One(count), Burst(n)) == One(count + n) && UnboundedAfter(c, One(count), Burst(n)) == One(count + n)
    ensures NeverFull(c, One(count), Burst(n))
    decreases n
  {
    if n > 0 {
      BurstStep(c, count);
      assert Burst(n)[0] == Call("k", 0) && Burst(n)[1..] == Burst(n - 1);
      BurstFills(c, count + 1, n - 1);
    }
  }

  /** A burst on an empty table. */
  lemma BurstFromEmpty(c: Config)
    requires c.limit >= 1 && c.ttl > 0 && c.window > 0 && c.capacity >= 1
    ensures After(c, map[], Burst(c.limit)) == One(c.limit) && UnboundedAfter(c, map[], Burst(c.limit)) == One(c.limit)
    ensures NeverFull(c, map[], Burst(c.limit))
  {
    var call := Call("k", 0);
    assert Cleaned(c, map[], 0) == map[];
    assert Allowed(c, map[], call).0 == One(1) && Unbounded(c, map[], call).0 == One(1) && !Full(c, map[], call);
    assert Burst(c.limit)[0] == call && Burst(c.limit)[1..] == Burst(c.limit - 1);
    BurstFills(c, 1, c.limit - 1);
  }

  /** With a shorter time to live the call after a burst that used up the limit is let through too early. */
  lemma ShortTtlForgets(c: Config) returns (calls: seq<Call>)
    requires 0 < c.ttl < c.window && c.limit >= 1 && c.capacity >= 1
    ensures Ordered(0, calls) && NeverFull(c, map[], calls)
    ensures Answers(c, map[], calls) != UnboundedAnswers(c, map[], calls)
  {
    var burst, last := Burst(c.limit), Call("k", c.ttl);
    calls := burst + [last];
    BurstIsEarly(c.limit);
    BurstFromEmpty(c);
    LateCallForgets(c, last);
    LastAnswers(c, map[], map[], burst, last);
  }

  lemma LateCallForgets(c: Config, last: Call)
    requires 0 < c.ttl < c.window && c.limit >= 1 && c.capacity >= 1 && last == Call("k", c.ttl)
    ensures Allowed(c, One(c.limit), last).1.allowed && !Full(c, One(c.limit), last)
    ensures !Unbounded(c, One(c.limit), last).1.allowed
  {
    assert Cleaned(c, One(c.limit), c.ttl) == map[];
  }

  /** Eviction is transparent exactly if entries live at least as long as the window. */
  lemma TransparentExactly(c: Config)
    requires c.ttl > 0 && c.window > 0 && c.limit >= 1 && c.capacity >= 1
    ensures c.ttl >= c.window <==>
            forall calls :: Ordered(0, calls) && NeverFull(c, map[], calls) ==> Answers(c, map[], calls) == UnboundedAnswers(c, map[], calls)
  {
    if c.ttl >= c.window {
      forall calls | Ordered(0, calls) && NeverFull(c, map[], calls)
        ensures Answers(c, map[], calls) == UnboundedAnswers(c, map[], calls)
      {
        EvictionIsTransparent(c, 0, calls);
      }
    } else {
      var calls := ShortTtlForgets(c);
    }
  }

  // ---- Twice the limit in any window

  /** How many of the calls for the key in [a, a + window) are admitted. */
  function Admitted(c: Config, t: Table, calls: seq<Call>, key: string, a: int): nat
    decreases |calls|
  {
    if calls == [] then 0
    else
      (if calls[0].key == key && a <= calls[0].at < a + c.window && Allowed(c, t, calls[0]).1.allowed then 1 else 0)
      + Admitted(c, Allowed(c, t, calls[0]).0, calls[1..], key, a)
  }

  /** What the key may still be admitted in [a, a + window), from its bucket or, without one, from the time. */
  function Budget(c: Config, t: Table, key: string, now: int, a: int): int
  {
    if key in t then
      var b := t[key];
      if b.windowStart >= a + c.window then 0
      else if b.windowStart >= a then c.limit - b.count
      else if b.windowStart > a - c.window then c.limit - b.count + c.limit
      else 2 * c.limit
    else if now >= a + c.window then 0
    else if now >= a then c.limit
    else 2 * c.limit
  }

  ghost predicate Counted(c: Config, t: Table)
  {
    forall k :: k in t ==> 0 <= t[k].count <= c.limit
  }

  /** Every table that calls in order make is timely, and counts no more than the limit. */
  lemma {:induction false} ReachedTables(c: Config, t: Table, calls: seq<Call>, from: int, until: int)
    requires c.limit >= 0 && Timely(t, from) && Counted(c, t) && Ordered(from, calls) && from <= until
    requires forall i :: 0 <= i < |calls| ==> calls[i].at <= until
    ensures Timely(After(c, t, calls), until) && Counted(c, After(c, t, calls))
    decreases |calls|
  {
    if calls != [] {
      AllowedTimely(c, t, calls[0], from);
      OrderedTail(from, calls);
      ReachedTables(c, Allowed(c, t, calls[0]).0, calls[1..], calls[0].at, until);
    }
  }

  lemma CleaningKeepsBudget(c: Config, t: Table, key: string, from: int, now: int, a: int)
    requires c.ttl >= c.window > 0 && c.limit >= 0 && Timely(t, from) && Counted(c, t) && from <= now
    ensures Budget(c, Cleaned(c, t, now), key, now, a) <= Budget(c, t, key, from, a)
  {
  }

  lemma CallSpendsBudget(c: Config, t: Table, call: Call, key: string, from: int, a: int)
    requires c.ttl >= c.window > 0 && c.limit >= 0 && Timely(t, from) && Counted(c, t) && from <= call.at
    ensures var (after, answer) := Allowed(c, t, call);
            var spent := if call.key == key && a <= call.at < a + c.window && answer.allowed then 1 else 0;
            Counted(c, after) && spent + Budget(c, after, key, call.at, a) <= Budget(c, t, key, from, a)
  {
    CleaningKeepsBudget(c, t, key, from, call.at, a);
  }

  lemma {:induction false} RunWithinBudget(c: Config, t: Table, calls: seq<Call>, key: string, from: int, a: int)
    requires c.ttl >= c.window > 0 && c.limit >= 0 && Timely(t, from) && Counted(c, t) && Ordered(from, calls)
    ensures Admitted(c, t, calls, key, a) <= Budget(c, t, key, from, a)
    decreases |calls|
  {
    if calls != [] {
      CallSpendsBudget(c, t, calls[0], key, from, a);
      AllowedTimely(c, t, calls[0], from);
      OrderedTail(from, calls);
      RunWithinBudget(c, Allowed(c, t, calls[0]).0, calls[1..], key, calls[0].at, a);
    }
  }

  /** Any half-open interval one window long admits at most twice the limit for a key. */
  lemma TwiceTheLimit(c: Config, calls: seq<Call>, key: string, from: int, a: int)
    requires c.ttl >= c.window > 0 && c.limit >= 0 && Ordered(from, calls)
    ensures Admitted(c, map[], calls, key, a) <= 2 * c.limit
  {
    RunWithinBudget(c, map[], calls, key, from, a);
  }

  // ---- The retry hint

  /** The key has used up the window that began at `start`. */
  predicate Exhausted(c: Config, t: Table, key: string, start: int)
  {
    key in t && t[key].windowStart == start <= t[key].lastSeen && t[key].count >= c.limit
  }

  /** The key's own calls among these come before `end`. */
  predicate OwnBefore(calls: seq<Call>, key: string, end: int)
  {
    forall i :: 0 <= i < |calls| && calls[i].key == key ==> calls[i].at < end
  }

  /** The last instant the key is touched by the calls, or `seen`. */
  function LastTouch(calls: seq<Call>, key: string, seen: int): int
  {
    if calls == [] then seen
    else LastTouch(calls[1..], key, if calls[0].key == key then calls[0].at else seen)
  }

  lemma {:induction false} LastTouchCases(calls: seq<Call>, key: string, seen: int, end: int)
    requires Ordered(seen, calls) && OwnBefore(calls, key, end)
    ensures var last := LastTouch(calls, key, seen);
            last == seen || (calls != [] && calls[0].at <= last < end)
    decreases |calls|
  {
    if calls != [] {
      var next := if calls[0].key == key then calls[0].at else seen;
      OrderedTail(seen, calls);
      LastTouchCases(calls[1..], key, next, end);
    }
  }

  lemma {:induction false} StaysExhausted(c: Config, t: Table, key: string, start: int, calls: seq<Call>, until: int)
    requires c.ttl >= c.window && key != "" && Exhausted(c, t, key, start)
    requires Ordered(t[key].lastSeen, calls) && OwnBefore(calls, key, start + c.window)
    requires forall i :: 0 <= i < |calls| ==> calls[i].at <= until
    requires until - LastTouch(calls, key, t[key].lastSeen) < c.ttl
    ensures var after := After(c, t, calls);
            Exhausted(c, after, key, start) && after[key].lastSeen == LastTouch(calls, key, t[key].lastSeen)
    decreases |calls|
  {
    if calls != [] {
      LastTouchCases(calls, key, t[key].lastSeen, start + c.window);
      var next := Allowed(c, t, calls[0]).0;
      assert key in Cleaned(c, t, calls[0].at);
      assert Exhausted(c, next, key, start);
      OrderedTail(t[key].lastSeen, calls);
      StaysExhausted(c, next, key, start, calls[1..], until);
    }
  }

  /**
   * The hint of a count-based refusal is usable: if the key's own calls in between came before its
   * window ended, its next call at or after now + hint, within the bucket's time to live, is admitted.
   */
  lemma HintIsUsable(c: Config, t: Table, refused: Call, between: seq<Call>, at: int)
    requires c.ttl >= c.window && c.limit >= 1 && refused.key != "" && Timely(t, refused.at)
    requires !Full(c, t, refused) && !Allowed(c, t, refused).1.allowed
    requires var (next, answer) := Allowed(c, t, refused);
             && Ordered(refused.at, between) && (forall i :: 0 <= i < |between| ==> between[i].at <= at)
             && OwnBefore(between, refused.key, next[refused.key].windowStart + c.window)
             && refused.at + answer.retry <= at
             && at - LastTouch(between, refused.key, refused.at) < c.ttl
    ensures Allowed(c, After(c, Allowed(c, t, refused).0, between), Call(refused.key, at)).1.allowed
  {
    var (next, answer) := Allowed(c, t, refused);
    var start := next[refused.key].windowStart;
    StaysExhausted(c, next, refused.key, start, between, at);
  }

  /** Unless it was rounded up to a second, the hint is exactly the rest of the window. */
  lemma HintIsRestOfWindow(c: Config, t: Table, refused: Call)
    requires c.limit >= 1 && refused.key != "" && !Full(c, t, refused) && !Allowed(c, t, refused).1.allowed
    ensures var (next, answer) := Allowed(c, t, refused);
            var end := next[refused.key].windowStart + c.window;
            && refused.at < end && answer.retry >= SECOND && refused.at + answer.retry >= end
            && (answer.retry > SECOND ==> refused.at + answer.retry == end)
            && (Timely(t, refused.at) ==> answer.retry <= (if c.window < SECOND then SECOND else c.window))
  {
  }

  // ---- The hint when the key's own calls did not wait for it

  /** When the key's own calls come. */
  function OwnTimes(calls: seq<Call>, key: string): seq<int>
  {
    if calls == [] then []
    else (if calls[0].key == key then [calls[0].at] else []) + OwnTimes(calls[1..], key)
  }

  /**
   * Of own calls after a window that began at `start`: those in the last window that they opened, the call that
   * opened it first; none when they opened none.
   */
  function LastWindow(window: int, start: int, own: seq<int>): seq<int>
    decreases |own|
  {
    if own == [] then []
    else if own[0] - start >= window then
      var later := LastWindow(window, own[0], own[1..]);
      if later == [] then own else later
    else LastWindow(window, start, own[1..])
  }

  function Min(a: int, b: int): int { if a < b then a else b }

  /** None of the key's own calls meets a full table. */
  predicate OwnFits(c: Config, t: Table, calls: seq<Call>, key: string)
    decreases |calls|
  {
    calls == [] || ((calls[0].key == key ==> !Full(c, t, calls[0])) && OwnFits(c, Allowed(c, t, calls[0]).0, calls[1..], key))
  }

  /** The key's bucket counts this window, or has been evicted after it was over. */
  predicate Counts(c: Config, t: Table, key: string, start: int, count: int, now: int)
  {
    if key in t then t[key].windowStart == start && t[key].count == count else now - start >= c.window
  }

  lemma OwnCallCounts(c: Config, t: Table, key: string, start: int, count: int, from: int, call: Call)
    requires c.ttl >= c.window && c.limit >= 1 && key != "" && call.key == key && Timely(t, from) && from <= call.at
    requires Counts(c, t, key, start, count, from) && count <= c.limit && !Full(c, t, call)
    ensures var (next, answer) := Allowed(c, t, call);
            && answer.allowed == (call.at - start >= c.window || count < c.limit)
            && (if call.at - start >= c.window then Counts(c, next, key, call.at, 1, call.at)
                else Counts(c, next, key, start, Min(c.limit, count + 1), call.at))
  {
  }

  lemma OtherCallCounts(c: Config, t: Table, key: string, start: int, count: int, from: int, call: Call)
    requires c.ttl >= c.window && call.key != key && Timely(t, from) && from <= call.at
    requires Counts(c, t, key, start, count, from)
    ensures Counts(c, Allowed(c, t, call).0, key, start, count, call.at)
  {
  }

  /** After any calls the key's bucket counts its own calls in the last window they opened, up to the limit. */
  lemma {:induction false} CountsLastWindow(c: Config, t: Table, key: string, start: int, count: int, from: int, calls: seq<Call>, until: int)
    requires c.ttl >= c.window && c.limit >= 1 && key != "" && Timely(t, from) && Ordered(from, calls) && from <= until
    requires Counts(c, t, key, start, count, from) && count <= c.limit && OwnFits(c, t, calls, key)
    requires forall i :: 0 <= i < |calls| ==> calls[i].at <= until
    ensures var own := OwnTimes(calls, key);
            var last := LastWindow(c.window, start, own);
            Counts(c, After(c, t, calls), key, if last == [] then start else last[0],
                   Min(c.limit, if last == [] then count + |own| else |last|), until)
    decreases |calls|
  {
    if calls != [] {
      var call, rest := calls[0], calls[1..];
      var next := Allowed(c, t, call).0;
      AllowedTimely(c, t, call, from);
      OrderedTail(from, calls);
      if call.key != key {
        assert OwnTimes(calls, key) == OwnTimes(rest, key);
        OtherCallCounts(c, t, key, start, count, from, call);
        CountsLastWindow(c, next, key, start, count, call.at, rest, until);
      } else {
        OwnCallCounts(c, t, key, start, count, from, call);
        var own := OwnTimes(calls, key);
        assert own[0] == call.at && own[1..] == OwnTimes(rest, key);
        if call.at - start >= c.window {
          CountsLastWindow(c, next, key, call.at, 1, call.at, rest, until);
        } else {
          CountsLastWindow(c, next, key, start, Min(c.limit, count + 1), call.at, rest, until);
        }
      }
    }
  }

  /**
   * The hint exactly, whatever the key's own calls did meanwhile and however long a window is: the call at or
   * after now + hint is admitted if and only if no own call opened a new window, or the last window they
   * opened is over too, or their calls in it have not used up the limit.
   */
  lemma HintExactly(c: Config, t: Table, refused: Call, between: seq<Call>, at: int)
    requires c.ttl >= c.window && c.limit >= 1 && refused.key != "" && Timely(t, refused.at) && Counted(c, t)
    requires !Full(c, t, refused) && !Allowed(c, t, refused).1.allowed
    requires var (next, answer) := Allowed(c, t, refused);
             && Ordered(refused.at, between) && (forall i :: 0 <= i < |between| ==> between[i].at <= at)
             && refused.at + answer.retry <= at
             && OwnFits(c, next, between, refused.key) && !Full(c, After(c, next, between), Call(refused.key, at))
    ensures var next := Allowed(c, t, refused).0;
            var last := LastWindow(c.window, next[refused.key].windowStart, OwnTimes(between, refused.key));
            Allowed(c, After(c, next, between), Call(refused.key, at)).1.allowed <==>
              last == [] || at - last[0] >= c.window || |last| < c.limit
  {
    var (next, answer) := Allowed(c, t, refused);
    var key, start := refused.key, next[refused.key].windowStart;
    var own := OwnTimes(between, key);
    var last := LastWindow(c.window, start, own);
    HintIsRestOfWindow(c, t, refused);
    AllowedTimely(c, t, refused, refused.at);
    assert next[key].count == c.limit;
    CountsLastWindow(c, next, key, start, c.limit, refused.at, between, at);
    TimelyAfter(c, next, between, refused.at, at);
    OwnCallCounts(c, After(c, next, between), key, if last == [] then start else last[0],
                  Min(c.limit, if last == [] then c.limit + |own| else |last|), at, Call(key, at));
  }

  lemma {:induction false} TimelyAfter(c: Config, t: Table, calls: seq<Call>, from: int, until: int)
    requires Timely(t, from) && Ordered(from, calls) && from <= until
    requires forall i :: 0 <= i < |calls| ==> calls[i].at <= until
    ensures Timely(After(c, t, calls), until)
    decreases |calls|
  {
    if calls != [] {
      AllowedTimely(c, t, calls[0], from);
      OrderedTail(from, calls);
      TimelyAfter(c, Allowed(c, t, calls[0]).0, calls[1..], calls[0].at, until);
    }
  }

  // ---- A key that keeps its entry meets no full table

  /** The key's touches, the last one at `until` included, are less than the time to live apart. */
  predicate Steady(c: Config, calls: seq<Call>, key: string, seen: int, until: int)
    decreases |calls|
  {
    if calls == [] then until - seen < c.ttl
    else if calls[0].key == key then calls[0].at - seen < c.ttl && Steady(c, calls[1..], key, calls[0].at, until)
    else Steady(c, calls[1..], key, seen, until)
  }

  lemma {:induction false} SteadyIsSoon(c: Config, calls: seq<Call>, key: string, seen: int, until: int)
    requires Steady(c, calls, key, seen, until) && calls != [] && Ordered(seen, calls)
    requires forall i :: 0 <= i < |calls| ==> calls[i].at <= until
    ensures calls[0].at - seen < c.ttl
    decreases |calls|
  {
    if calls[0].key != key && |calls| > 1 {
      assert calls[1..][0] == calls[1];
      SteadyIsSoon(c, calls[1..], key, seen, until);
    }
  }

  lemma {:induction false} SteadyFits(c: Config, t: Table, key: string, calls: seq<Call>, until: int)
    requires key != "" && key in t && Ordered(t[key].lastSeen, calls) && Steady(c, calls, key, t[key].lastSeen, until)
    requires forall i :: 0 <= i < |calls| ==> calls[i].at <= until
    ensures OwnFits(c, t, calls, key) && !Full(c, After(c, t, calls), Call(key, until))
    decreases |calls|
  {
    if calls != [] {
      SteadyIsSoon(c, calls, key, t[key].lastSeen, until);
      var next := Allowed(c, t, calls[0]).0;
      assert key in Cleaned(c, t, calls[0].at);
      assert key in next && next[key].lastSeen == if calls[0].key == key then calls[0].at else t[key].lastSeen;
      SteadyFits(c, next, key, calls[1..], until);
    }
  }

  /** A hint rounded up to a second outlasts the window, so calls made before it may use up the next one. */
  lemma RoundedHintCanBeRefused()
    ensures var c := Config(8, 1, 60 * SECOND, 600 * SECOND);
            var calls := [Call("k", 0), Call("k", 59 * SECOND + 500_000_000), Call("k", 60 * SECOND), Call("k", 60 * SECOND + 500_000_000)];
            var answers := Answers(c, map[], calls);
            && answers[1] == Answer(false, SECOND) && calls[3].at == calls[1].at + answers[1].retry && !answers[3].allowed
  {
    var c := Config(8, 1, 60 * SECOND, 600 * SECOND);
    var a, b, d, e := Call("k", 0), Call("k", 59 * SECOND + 500_000_000), Call("k", 60 * SECOND), Call("k", 60 * SECOND + 500_000_000);
    assert Cleaned(c, map[], 0) == map[];
    var t1 := Allowed(c, map[], a).0;
    assert t1["k"] == Bucket(0, 0, 1);
    var t2 := Allowed(c, t1, b).0;
    assert t2["k"] == Bucket(0, b.at, 1) && Allowed(c, t1, b).1 == Answer(false, SECOND);
    var t3 := Allowed(c, t2, d).0;
    assert t3["k"] == Bucket(d.at, d.at, 1);
    assert !Allowed(c, t3, e).1.allowed;
    assert [a, b, d, e][1..] == [b, d, e] && [b, d, e][1..] == [d, e] && [d, e][1..] == [e];
    assert Answers(c, t3, [e])[0] == Allowed(c, t3, e).1;
    assert Answers(c, t2, [d, e])[1] == Allowed(c, t3, e).1;
    assert Answers(c, t1, [b, d, e])[2] == Allowed(c, t3, e).1;
  }

  // ---- From the server's refusal to the client's wait

  /** Whole seconds in the Retry-After header: rounded up and kept within 1 to 300. */
  function RetryAfterSeconds(retry: int): (seconds: nat)
    ensures 1 <= seconds <= 300
    ensures 0 < retry <= 300 * SECOND ==> (seconds - 1) * SECOND < retry <= seconds * SECOND
    ensures retry <= 0 ==> seconds == 1
    ensures retry > 300 * SECOND ==> seconds == 300
  {
    var seconds := (retry + SECOND - 1) / SECOND;
    if seconds < 1 then 1 else if seconds > 300 then 300 else seconds
  }

  function RetryAfterHeader(retry: int): string { Print(RetryAfterSeconds(retry), 10) }

  /** The client's reading of the header: exactly one value, a number from 1 to 300. */
  function BoundedRetryAfter(values: seq<string>): Option<nat>
  {
    if |values| != 1 || Parse(values[0], 10).None? then None
    else
      var seconds := Parse(values[0], 10).value;
      if 1 <= seconds <= 300 then Some(seconds) else None
  }

  /** The client's wait after a refusal that carried a readable hint, in seconds. */
  function HintedDelay(hint: nat): int
  {
    var atLeast := if hint < 1 then 1 else hint;
    if atLeast > 300 then 300 else atLeast
  }

  /** The client waits at least as long as the limiter asked exactly if that is at most 300 seconds, and under a second longer. */
  lemma HintSurvivesTheWire(retry: int)
    requires retry >= SECOND
    ensures BoundedRetryAfter([RetryAfterHeader(retry)]) == Some(RetryAfterSeconds(retry))
    ensures var wait := HintedDelay(RetryAfterSeconds(retry)) * SECOND;
            (wait >= retry <==> retry <= 300 * SECOND) && wait < retry + SECOND
  {
    PrintParses(RetryAfterSeconds(retry), 10);
  }

  /** A client that waits as told and is the key's only user is admitted, for windows up to 300 seconds. */
  lemma ObedientClientIsAdmitted(c: Config, t: Table, refused: Call, between: seq<Call>, at: int)
    requires 0 < c.window <= 300 * SECOND && c.window <= c.ttl && c.limit >= 1 && refused.key != "" && Timely(t, refused.at)
    requires !Full(c, t, refused) && !Allowed(c, t, refused).1.allowed
    requires Ordered(refused.at, between) && (forall i :: 0 <= i < |between| ==> between[i].at <= at && between[i].key != refused.key)
    requires var hint := BoundedRetryAfter([RetryAfterHeader(Allowed(c, t, refused).1.retry)]);
             hint.Some? && refused.at + HintedDelay(hint.value) * SECOND <= at < refused.at + c.ttl
    ensures Allowed(c, After(c, Allowed(c, t, refused).0, between), Call(refused.key, at)).1.allowed
  {
    HintIsRestOfWindow(c, t, refused);
    HintSurvivesTheWire(Allowed(c, t, refused).1.retry);
    NeverTouched(between, refused.key, refused.at);
    HintIsUsable(c, t, refused, between, at);
  }

  lemma {:induction false} NeverTouched(calls: seq<Call>, key: string, seen: int)
    requires forall i :: 0 <= i < |calls| ==> calls[i].key != key
    ensures LastTouch(calls, key, seen) == seen
    decreases |calls|
  {
    if calls != [] { NeverTouched(calls[1..], key, seen); }
  }
}
