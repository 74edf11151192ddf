/** The two sliding-window limiters, against a limiter that remembers every accepted request.
    Clock readings are taken to be non-decreasing in the order in which the lock is granted. */
module RateLimit {

  type Key = string

  datatype Rule = Rule(limit: nat, window: real)

  predicate ValidRule(r: Rule) { r.limit > 0 && r.window > 0.0 }

  // ---------------------------------------------------------------- the limiter that never forgets

  /** The entries of a log after `cutoff`: what a window-sized look back sees. */
  function Recent(log: seq<real>, cutoff: real): seq<real> {
    if log == [] then []
    else
      var front, last := Recent(log[..|log| - 1], cutoff), log[|log| - 1];
      if last > cutoff then front + [last] else front
  }

  predicate Allowed(r: Rule, log: seq<real>, now: real) { |Recent(log, now - r.window)| < r.limit }

  /** The log of all accepted requests of a key after one more check of it. */
  function Append(r: Rule, log: seq<real>, now: real): seq<real> {
    if Allowed(r, log, now) then log + [now] else log
  }

  ghost predicate Sorted(log: seq<real>) { forall i, j | 0 <= i < j < |log| :: log[i] <= log[j] }

  /** Entries `limit` or more apart in the log are at least a window apart in time. */
  ghost predicate Spaced(r: Rule, log: seq<real>) {
    forall i, j | 0 <= i <= j - r.limit && j < |log| :: log[j] >= log[i] + r.window
  }

  /** What holds of every log that checks with non-decreasing readings up to `clock` build. */
  ghost predicate LogOk(r: Rule, log: seq<real>, clock: real) {
    Sorted(log) && Spaced(r, log) && forall i | 0 <= i < |log| :: log[i] <= clock
  }

  // ---------------------------------------------------------------- facts about logs

  lemma RecentSnoc(log: seq<real>, t: real, cutoff: real)
    ensures Recent(log + [t], cutoff) == if t > cutoff then Recent(log, cutoff) + [t] else Recent(log, cutoff)
  {
    assert (log + [t])[..|log|] == log;
  }

  lemma {:induction false} RecentTwice(log: seq<real>, c: real, d: real)
    requires c <= d
    ensures Recent(Recent(log, c), d) == Recent(log, d)
  {
    if log != [] {
      var n := |log| - 1;
      RecentTwice(log[..n], c, d);
      RecentSnoc(Recent(log[..n], c), log[n], d);
    }
  }

  lemma {:induction false} NoneRecent(log: seq<real>, cutoff: real)
    requires forall i | 0 <= i < |log| :: log[i] <= cutoff
    ensures Recent(log, cutoff) == []
  {
    if log != [] {
      NoneRecent(log[..|log| - 1], cutoff);
    }
  }

  /** `k` is where the entries after `cutoff` begin. */
  ghost predicate BeginsAt(log: seq<real>, cutoff: real, k: nat) {
    && k <= |log|
    && (forall i | 0 <= i < k :: log[i] <= cutoff)
    && (forall i | k <= i < |log| :: log[i] > cutoff)
  }

  /** In a sorted log the recent entries are a suffix. */
  lemma {:induction false} RecentIsSuffix(log: seq<real>, cutoff: real) returns (k: nat)
    requires Sorted(log)
    ensures BeginsAt(log, cutoff, k) && Recent(log, cutoff) == log[k..]
  {
    if log == [] || log[|log| - 1] <= cutoff {
      k := |log|;
      NoneRecent(log, cutoff);
    } else {
      k := RecentIsSuffix(log[..|log| - 1], cutoff);
      BeginningStays(log, cutoff, k);
      SuffixGrows(log, k);
    }
  }

  lemma BeginningStays(log: seq<real>, cutoff: real, k: nat)
    requires log != [] && BeginsAt(log[..|log| - 1], cutoff, k) && log[|log| - 1] > cutoff
    ensures BeginsAt(log, cutoff, k)
  {
    assert forall i | 0 <= i < |log| - 1 :: log[..|log| - 1][i] == log[i];
  }

  lemma SuffixGrows(log: seq<real>, k: nat)
    requires k < |log|
    ensures log[..|log| - 1][k..] + [log[|log| - 1]] == log[k..]
  {
  }

  /** A request accepted with fewer than `limit` recent ones is a window away from the `limit`-th
      before it. */
  lemma AcceptedKeepsSpaced(r: Rule, log: seq<real>, now: real)
    requires ValidRule(r) && Sorted(log) && Spaced(r, log) && Allowed(r, log, now)
    ensures Spaced(r, log + [now])
  {
    var more := log + [now];
    var k := RecentIsSuffix(log, now - r.window);
    forall i, j | 0 <= i <= j - r.limit && j < |more|
      ensures more[j] >= more[i] + r.window
    {
      if j == |log| {
        assert i < k;
      }
    }
  }

  lemma AppendKeepsLogOk(r: Rule, log: seq<real>, clock: real, now: real)
    requires ValidRule(r) && LogOk(r, log, clock) && clock <= now
    ensures LogOk(r, Append(r, log, now), now)
  {
    if Allowed(r, log, now) {
      AcceptedKeepsSpaced(r, log, now);
    }
  }

  function CountIn(log: seq<real>, from: real, to: real): nat {
    if log == [] then 0
    else
      var last := log[|log| - 1];
      CountIn(log[..|log| - 1], from, to) + if from <= last < to then 1 else 0
  }

  lemma {:induction false} CountOfEarlier(log: seq<real>, m: nat, from: real, to: real)
    requires Sorted(log) && m <= |log| && (m > 0 ==> log[m - 1] < from)
    ensures CountIn(log, from, to) <= |log| - m
  {
    if |log| > m {
      CountOfEarlier(log[..|log| - 1], m, from, to);
    } else if log != [] {
      CountOfEarlier(log[..|log| - 1], m - 1, from, to);
    }
  }

  /** No half-open interval one window long holds more than `limit` entries of a log. */
  lemma {:induction false} CountAtMost(r: Rule, log: seq<real>, from: real)
    requires ValidRule(r) && Sorted(log) && Spaced(r, log)
    ensures CountIn(log, from, from + r.window) <= r.limit
  {
    if log != [] {
      var n := |log| - 1;
      CountAtMost(r, log[..n], from);
      if from <= log[n] < from + r.window {
        var m := if n >= r.limit then n - r.limit + 1 else 0;
        assert m > 0 ==> log[m - 1] < from;
        CountOfEarlier(log, m, from, from + r.window);
      }
    }
  }

  // ---------------------------------------------------------------- the deque limiter

  function Bucket(buckets: map<Key, seq<real>>, key: Key): seq<real> {
    if key in buckets then buckets[key] else []
  }

  /** `kept` is `log` without some first entries, none of which is younger than `cutoff`. */
  ghost predicate Forgets(kept: seq<real>, log: seq<real>, cutoff: real) {
    && |kept| <= |log| && kept == log[|log| - |kept|..]
    && forall i | 0 <= i < |log| - |kept| :: log[i] <= cutoff
  }

  lemma EvictedIsRecent(bucket: seq<real>, log: seq<real>, cutoff: real)
    requires Sorted(log) && Forgets(bucket, log, cutoff) && (bucket == [] || bucket[0] > cutoff)
    ensures bucket == Recent(log, cutoff)
  {
    var k := RecentIsSuffix(log, cutoff);
    var m := |log| - |bucket|;
    assert m < |log| ==> log[m] > cutoff;
    assert k < |log| ==> log[k] > cutoff;
    assert m == k;
  }

  /** What the bucket must hold after a check: the recent part of the new log, never empty. */
  lemma CheckStep(r: Rule, log: seq<real>, now: real)
    requires ValidRule(r)
    ensures var recent := Recent(log, now - r.window);
            var after := if |recent| < r.limit then recent + [now] else recent;
            after != [] && after == Recent(Append(r, log, now), now - r.window)
  {
    RecentSnoc(log, now, now - r.window);
  }

  lemma RecentForgets(log: seq<real>, cutoff: real)
    requires Sorted(log)
    ensures Forgets(Recent(log, cutoff), log, cutoff)
  {
    var k := RecentIsSuffix(log, cutoff);
  }

  lemma AllForgotten(kept: seq<real>, log: seq<real>, cutoff: real)
    requires Sorted(log) && (kept == [] || kept[|kept| - 1] <= cutoff)
    requires |kept| <= |log| && kept == log[|log| - |kept|..]
    requires forall i | 0 <= i < |log| - |kept| :: log[i] <= cutoff
    ensures Forgets([], log, cutoff)
  {
    assert kept != [] ==> log[|log| - 1] == kept[|kept| - 1];
    assert log[|log|..] == [];
  }

  /** The bucket of a key and its whole log, as of reading `clock`. */
  ghost predicate Tracks(r: Rule, kept: seq<real>, log: seq<real>, clock: real) {
    LogOk(r, log, clock) && Forgets(kept, log, clock - r.window)
  }

  ghost predicate AllTrack(r: Rule, buckets: map<Key, seq<real>>, logs: map<Key, seq<real>>, clock: real) {
    forall key {:trigger Tracks(r, Bucket(buckets, key), Bucket(logs, key), clock)} ::
      Tracks(r, Bucket(buckets, key), Bucket(logs, key), clock)
  }

  lemma TracksLater(r: Rule, kept: seq<real>, log: seq<real>, clock: real, now: real)
    requires Tracks(r, kept, log, clock) && clock <= now
    ensures Tracks(r, kept, log, now)
  {
  }

  lemma KeptForgets(r: Rule, buckets: map<Key, seq<real>>, logs: map<Key, seq<real>>, clock: real, key: Key, now: real)
    requires AllTrack(r, buckets, logs, clock) && clock <= now
    ensures Sorted(Bucket(logs, key)) && Forgets(Bucket(buckets, key), Bucket(logs, key), now - r.window)
  {
    assert Tracks(r, Bucket(buckets, key), Bucket(logs, key), clock);
  }

  lemma TracksOwn(r: Rule, kept: seq<real>, log: seq<real>, clock: real, now: real)
    requires ValidRule(r) && Tracks(r, kept, log, clock) && clock <= now
    ensures Tracks(r, Recent(Append(r, log, now), now - r.window), Append(r, log, now), now)
  {
    AppendKeepsLogOk(r, log, clock, now);
    RecentForgets(Append(r, log, now), now - r.window);
  }

  lemma {:induction false} RecentAreYoung(log: seq<real>, cutoff: real)
    ensures forall t | t in Recent(log, cutoff) :: t > cutoff
  {
    if log != [] {
      RecentAreYoung(log[..|log| - 1], cutoff);
    }
  }

  /** A checked key's bucket holds at most `limit` entries, all from inside the window. */
  lemma BucketIsSmall(r: Rule, log: seq<real>, now: real)
    requires ValidRule(r) && |Recent(log, now - r.window)| <= r.limit
    ensures var bucket := Recent(Append(r, log, now), now - r.window);
            |bucket| <= r.limit && forall t | t in bucket :: t > now - r.window
  {
    RecentSnoc(log, now, now - r.window);
    RecentAreYoung(Append(r, log, now), now - r.window);
  }

  /** No more than `limit` entries of such a log are recent. */
  lemma FewAreRecent(r: Rule, log: seq<real>, now: real)
    requires ValidRule(r) && LogOk(r, log, now)
    ensures |Recent(log, now - r.window)| <= r.limit
  {
    var k := RecentIsSuffix(log, now - r.window);
    if k < |log| {
      FewRecent(r, log, k, now);
    }
  }

  class SlidingWindowRateLimiter {
    const rule: Rule
    var buckets: map<Key, seq<real>>
    ghost var logs: map<Key, seq<real>>  // every accepted request since the start, by key
    ghost var clock: real                // the last reading

    ghost predicate Valid() reads this {
      ValidRule(rule) && AllTrack(rule, buckets, logs, clock)
    }

    constructor (rule: Rule, start: real)
      requires ValidRule(rule)
      ensures Valid() && this.rule == rule && logs == map[] && clock == start
    {
      this.rule := rule;
      buckets, logs, clock := map[], map[], start;
    }

    /** The eviction loop: what is left of the bucket is the recent part of the whole log. */
    static method DropExpired(kept: seq<real>, ghost log: seq<real>, cutoff: real) returns (bucket: seq<real>)
      requires Sorted(log) && Forgets(kept, log, cutoff)
      ensures bucket == Recent(log, cutoff)
    {
      bucket := kept;
      while bucket != [] && bucket[0] <= cutoff
        invariant Forgets(bucket, log, cutoff)
        decreases |bucket|
      {
        bucket := bucket[1..];
      }
      EvictedIsRecent(bucket, log, cutoff);
    }

    /** The verdict, and the key's bucket as it must be stored. */
    method Decide(key: Key, now: real) returns (allowed: bool, remaining: nat, bucket: seq<real>)
      requires Valid() && clock <= now
      ensures allowed == Allowed(rule, Bucket(logs, key), now)
      ensures bucket != [] && bucket == Recent(Append(rule, Bucket(logs, key), now), now - rule.window)
      ensures remaining == if allowed then rule.limit - |bucket| else 0
    {
      ghost var log := Bucket(logs, key);
      KeptForgets(rule, buckets, logs, clock, key, now);
      bucket := DropExpired(Bucket(buckets, key), log, now - rule.window);
      CheckStep(rule, log, now);
      var count := |bucket|;
      allowed, remaining := count < rule.limit, 0;
      if allowed {
        bucket := bucket + [now];
        remaining := rule.limit - count - 1;
      }
    }

    /** Same verdict as counting over the whole log.  `wall` is the second clock, from which the
        reset time is reported: when the oldest request in the window leaves it. */
    method Check(key: Key, now: real, wall: real) returns (allowed: bool, remaining: nat, resetAt: real)
      requires Valid() && clock <= now
      modifies this
      ensures Valid() && clock == now
      ensures allowed == Allowed(rule, Bucket(old(logs), key), now)
      ensures logs == old(logs)[key := Append(rule, Bucket(old(logs), key), now)]
      ensures var recent := Recent(Bucket(logs, key), now - rule.window);
              recent != [] && resetAt == wall + (recent[0] - (now - rule.window))
              && remaining == if allowed then rule.limit - |recent| else 0
      ensures key in buckets && |buckets[key]| <= rule.limit && forall t | t in buckets[key] :: t > now - rule.window
      ensures buckets - {key} == old(buckets) - {key}
    {
      var bucket;
      allowed, remaining, bucket := Decide(key, now);
      resetAt := wall + (bucket[0] - (now - rule.window));
      assert Tracks(rule, Bucket(buckets, key), Bucket(logs, key), clock);
      FewAreRecent(rule, Bucket(logs, key), now);
      BucketIsSmall(rule, Bucket(logs, key), now);
      Store(key, bucket, now);
    }

    /** Storing the checked key's bucket; the others stay right because the clock only advances. */
    method Store(key: Key, bucket: seq<real>, now: real)
      requires Valid() && clock <= now
      requires bucket == Recent(Append(rule, Bucket(logs, key), now), now - rule.window)
      modifies this
      ensures Valid() && clock == now
      ensures logs == old(logs)[key := Append(rule, Bucket(old(logs), key), now)]
      ensures buckets == old(buckets)[key := bucket]
    {
      ghost var log := Append(rule, Bucket(logs, key), now);
      CheckKeeps(rule, buckets, logs, clock, key, bucket, now);
      buckets, logs, clock := buckets[key := bucket], logs[key := log], now;
    }

    /** Housekeeping: buckets whose youngest entry has left the window are deleted; nothing a
        later check can answer changes. */
    method EvictExpired(now: real)
      requires Valid() && clock <= now
      modifies this
      ensures Valid() && clock == now && logs == old(logs)
      ensures forall k :: k in buckets <==>
                k in old(buckets) && old(buckets)[k] != [] && old(buckets)[k][|old(buckets)[k]| - 1] > now - rule.window
      ensures forall k | k in buckets :: buckets[k] == old(buckets)[k]
    {
      var cutoff := now - rule.window;
      var emptyKeys := set k | k in buckets && (buckets[k] == [] || buckets[k][|buckets[k]| - 1] <= cutoff);
      EvictionKeeps(rule, buckets, logs, clock, emptyKeys, now);
      Delete(emptyKeys);
      clock := now;
    }

    /** `for k in empty_keys: del self._buckets[k]`. */
    method Delete(keys: set<Key>)
      modifies this`buckets
      ensures buckets == old(buckets) - keys
    {
      var left := keys;
      while left != {}
        invariant left <= keys && buckets == old(buckets) - (keys - left)
      {
        var k :| k in left;
        buckets := buckets - {k};
        left := left - {k};
        assert keys - left == keys - left - {k} + {k};
      }
      assert keys - left == keys;
    }
  }

  lemma StoreKeepsOne(r: Rule, buckets: map<Key, seq<real>>, logs: map<Key, seq<real>>, clock: real,
                      key: Key, bucket: seq<real>, log: seq<real>, now: real, k: Key)
    requires Tracks(r, bucket, log, now)
    requires Tracks(r, Bucket(buckets, k), Bucket(logs, k), clock) && clock <= now
    ensures Tracks(r, Bucket(buckets[key := bucket], k), Bucket(logs[key := log], k), now)
  {
    if k != key { TracksLater(r, Bucket(buckets, k), Bucket(logs, k), clock, now); }
  }

  lemma StoreKeeps(r: Rule, buckets: map<Key, seq<real>>, logs: map<Key, seq<real>>, clock: real,
                   key: Key, bucket: seq<real>, log: seq<real>, now: real)
    requires AllTrack(r, buckets, logs, clock) && clock <= now && Tracks(r, bucket, log, now)
    ensures AllTrack(r, buckets[key := bucket], logs[key := log], now)
  {
    var buckets', logs' := buckets[key := bucket], logs[key := log];
    forall k: Key
      ensures Tracks(r, Bucket(buckets', k), Bucket(logs', k), now)
    {
      assert Tracks(r, Bucket(buckets, k), Bucket(logs, k), clock);
      StoreKeepsOne(r, buckets, logs, clock, key, bucket, log, now, k);
    }
  }

  lemma CheckKeeps(r: Rule, buckets: map<Key, seq<real>>, logs: map<Key, seq<real>>, clock: real,
                   key: Key, bucket: seq<real>, now: real)
    requires ValidRule(r) && AllTrack(r, buckets, logs, clock) && clock <= now
    requires bucket == Recent(Append(r, Bucket(logs, key), now), now - r.window)
    ensures AllTrack(r, buckets[key := bucket], logs[key := Append(r, Bucket(logs, key), now)], now)
  {
    assert Tracks(r, Bucket(buckets, key), Bucket(logs, key), clock);
    TracksOwn(r, Bucket(buckets, key), Bucket(logs, key), clock, now);
    StoreKeeps(r, buckets, logs, clock, key, bucket, Append(r, Bucket(logs, key), now), now);
  }

  lemma EvictionKeepsOne(r: Rule, buckets: map<Key, seq<real>>, gone: set<Key>, log: seq<real>, clock: real, now: real, k: Key)
    requires Tracks(r, Bucket(buckets, k), log, clock) && clock <= now
    requires k in gone ==> k in buckets && (buckets[k] == [] || buckets[k][|buckets[k]| - 1] <= now - r.window)
    ensures Tracks(r, Bucket(buckets - gone, k), log, now)
  {
    TracksLater(r, Bucket(buckets, k), log, clock, now);
    if k in gone { AllForgotten(Bucket(buckets, k), log, now - r.window); }
  }

  lemma EvictionKeeps(r: Rule, buckets: map<Key, seq<real>>, logs: map<Key, seq<real>>, clock: real,
                      gone: set<Key>, now: real)
    requires AllTrack(r, buckets, logs, clock) && clock <= now
    requires forall k | k in gone :: k in buckets && (buckets[k] == [] || buckets[k][|buckets[k]| - 1] <= now - r.window)
    ensures AllTrack(r, buckets - gone, logs, now)
  {
    var after := buckets - gone;
    forall k: Key
      ensures Tracks(r, Bucket(after, k), Bucket(logs, k), now)
    {
      assert Tracks(r, Bucket(buckets, k), Bucket(logs, k), clock);
      EvictionKeepsOne(r, buckets, gone, Bucket(logs, k), clock, now, k);
    }
  }

  // ---------------------------------------------------------------- the list-filter bucket

  class RateLimitBucket {
    const rule: Rule
    var timestamps: seq<real>
    ghost var log: seq<real>
    ghost var clock: real

    /** The list is the recent part of the whole log, as of the last check. */
    ghost predicate Valid() reads this {
      ValidRule(rule) && timestamps == Recent(log, clock - rule.window)
    }

    constructor (rule: Rule, start: real)
      requires ValidRule(rule)
      ensures Valid() && this.rule == rule && log == [] && clock == start
    {
      this.rule := rule;
      timestamps, log, clock := [], [], start;
    }

    /** Same verdict, again, as counting over the whole log. */
    method IsAllowed(now: real) returns (allowed: bool)
      requires Valid() && clock <= now
      modifies this
      ensures Valid() && clock == now
      ensures allowed == Allowed(rule, old(log), now) && log == Append(rule, old(log), now)
    {
      var cutoff := now - rule.window;
      RecentTwice(log, clock - rule.window, cutoff);
      RecentSnoc(log, now, cutoff);
      timestamps := Recent(timestamps, cutoff);
      allowed := |timestamps| < rule.limit;
      log, clock := Append(rule, log, now), now;
      if allowed {
        timestamps := timestamps + [now];
      }
    }
  }

  // ---------------------------------------------------------------- whole runs

  datatype Event = Checked(key: Key, now: real) | Evicted(now: real)

  /** The accepted requests of one key over a run of checks and evictions. */
  function Log(r: Rule, events: seq<Event>, key: Key): seq<real> {
    if events == [] then []
    else
      var log, last := Log(r, events[..|events| - 1], key), events[|events| - 1];
      if last.Checked? && last.key == key then Append(r, log, last.now) else log
  }

  predicate Clocked(events: seq<Event>, start: real) {
    events == []
    || (Clocked(events[..|events| - 1], start) && LastReading(events[..|events| - 1], start) <= events[|events| - 1].now)
  }

  function LastReading(events: seq<Event>, start: real): real {
    if events == [] then start else events[|events| - 1].now
  }

  lemma {:induction false} RunLogOk(r: Rule, events: seq<Event>, key: Key, start: real)
    requires ValidRule(r) && Clocked(events, start)
    ensures LogOk(r, Log(r, events, key), LastReading(events, start))
  {
    if events != [] {
      var front, last := events[..|events| - 1], events[|events| - 1];
      RunLogOk(r, front, key, start);
      AppendKeepsLogOk(r, Log(r, front, key), LastReading(front, start), last.now);
    }
  }

  /** Main result: in every run with a non-decreasing clock, evictions anywhere, no half-open
      interval one window long holds more than `limit` accepted requests of a key. */
  lemma WindowNeverExceeded(r: Rule, events: seq<Event>, key: Key, start: real, from: real)
    requires ValidRule(r) && Clocked(events, start)
    ensures CountIn(Log(r, events, key), from, from + r.window) <= r.limit
  {
    RunLogOk(r, events, key, start);
    CountAtMost(r, Log(r, events, key), from);
  }

  lemma FewRecent(r: Rule, log: seq<real>, k: nat, now: real)
    requires ValidRule(r) && LogOk(r, log, now) && k < |log| && log[k] > now - r.window
    ensures |log| - k <= r.limit
  {
    assert log[|log| - 1] <= now;
  }

  /** As the window moves on, the oldest recent entry is the first to go. */
  lemma LaterSuffix(log: seq<real>, k: nat, c: real, d: real)
    requires Sorted(log) && c <= d && k < |log| && log[k] > c && forall i | 0 <= i < k :: log[i] <= c
    ensures |Recent(log, d)| <= |log| - k && (|Recent(log, d)| < |log| - k <==> log[k] <= d)
  {
    var m := RecentIsSuffix(log, d);
    assert m < |log| ==> log[m] > d;
    assert m >= k && (m > k <==> log[k] <= d);
  }

  /** The time a denied caller is told to wait for is exact: as long as nothing is accepted in
      between, a later request is allowed if and only if it comes at or after it. */
  lemma DeniedUntilOldestExpires(r: Rule, log: seq<real>, now: real, later: real)
    requires ValidRule(r) && LogOk(r, log, now) && now <= later && !Allowed(r, log, now)
    ensures Recent(log, now - r.window) != []
    ensures Allowed(r, log, later) <==> later >= Recent(log, now - r.window)[0] + r.window
  {
    var k := FullWindow(r, log, now);
    LaterSuffix(log, k, now - r.window, later - r.window);
  }

  /** When a request is denied, exactly `limit` entries are recent. */
  lemma FullWindow(r: Rule, log: seq<real>, now: real) returns (k: nat)
    requires ValidRule(r) && LogOk(r, log, now) && !Allowed(r, log, now)
    ensures BeginsAt(log, now - r.window, k) && |log| - k == r.limit
    ensures Recent(log, now - r.window) != [] && Recent(log, now - r.window)[0] == log[k]
  {
    k := RecentIsSuffix(log, now - r.window);
    FewRecent(r, log, k, now);
  }

  /** The log after a sequence of checks of the same key. */
  function AppendAll(r: Rule, log: seq<real>, times: seq<real>): seq<real> {
    if times == [] then log else Append(r, AppendAll(r, log, times[..|times| - 1]), times[|times| - 1])
  }

  lemma {:induction false} DenialsLeaveLog(r: Rule, log: seq<real>, times: seq<real>)
    requires forall i | 0 <= i < |times| :: !Allowed(r, log, times[i])
    ensures AppendAll(r, log, times) == log
  {
    if times != [] { DenialsLeaveLog(r, log, times[..|times| - 1]); }
  }

  /** A caller that keeps retrying is denied every time before that moment, and the first retry
      at or after it is allowed. */
  lemma RetriesDeniedThenAllowed(r: Rule, log: seq<real>, now: real, retries: seq<real>, last: real)
    requires ValidRule(r) && LogOk(r, log, now) && !Allowed(r, log, now) && now <= last
    requires Recent(log, now - r.window) != []
    requires var freed := Recent(log, now - r.window)[0] + r.window;
             freed <= last && forall i | 0 <= i < |retries| :: now <= retries[i] < freed
    ensures forall i | 0 <= i < |retries| :: !Allowed(r, AppendAll(r, log, retries[..i]), retries[i])
    ensures Allowed(r, AppendAll(r, log, retries), last)
  {
    forall i | 0 <= i < |retries| ensures !Allowed(r, log, retries[i]) {
      DeniedUntilOldestExpires(r, log, now, retries[i]);
    }
    DeniedUntilOldestExpires(r, log, now, last);
    DenialsLeaveLog(r, log, retries);
    forall i | 0 <= i < |retries|
      ensures !Allowed(r, AppendAll(r, log, retries[..i]), retries[i])
    {
      DenialsLeaveLog(r, log, retries[..i]);
    }
  }
}
