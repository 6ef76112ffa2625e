// What the Redis counter counts, how it compares with the buckets, and why
// the cleanup of the buckets cannot be noticed.
module LimiterLaws {
  import opened Common
  import opened TtlStore
  import opened RateLimit
  import opened LimiterBounds

  // ---- The counter is the length of the last run of attempts without an idle window ----

  ghost predicate RedisUp(calls: seq<Call>) {
    forall i | 0 <= i < |calls| && calls[i].RedisTry? :: calls[i].fate.ok
  }

  // The times of all attempts on `key`, rejected ones too.
  function Attempts(calls: seq<Call>, key: Key): seq<int> {
    if calls == [] then []
    else
      var c := calls[|calls| - 1];
      Attempts(calls[..|calls| - 1], key) + (if c.RedisTry? && c.key == key then [c.now] else [])
  }

  // From `first` on no two attempts in a row are more than `window` apart, and before it
  // there was an idle gap longer than that.
  ghost predicate IsStreak(times: seq<int>, first: nat, window: int) {
    && first < |times|
    && (forall i | first < i < |times| :: times[i] - times[i - 1] <= window)
    && (first > 0 ==> times[first] - times[first - 1] > window)
  }

  lemma DoneEffect(redis: Counters, key: Key, now: int)
    ensures Pipelined(redis, key, 1, DONE, now)
         == redis[key := Entry(Count(redis, key, now) + 1, Some(now + Window(key)))]
  {
  }

  function NextFirst(times: seq<int>, first: nat, now: int, window: int): nat {
    if times == [] || now - times[|times| - 1] > window then |times| else first
  }

  lemma StreakGrows(times: seq<int>, first: nat, now: int, window: int)
    requires times == [] || IsStreak(times, first, window)
    ensures IsStreak(times + [now], NextFirst(times, first, now, window), window)
  {
  }

  // The attempts of the streak that starts at `first`. The first one of all also finds what
  // is left of an earlier counter.
  function StreakLength(left: Counters, key: Key, times: seq<int>, first: nat): int
    requires first < |times|
  {
    |times| - first + (if first == 0 then Count(left, key, times[0]) else 0)
  }

  // The counter of a key attempted at `times`, the last streak of which starts at `first`.
  ghost predicate CountsStreak(left: Counters, redis: Counters, key: Key, times: seq<int>, first: nat) {
    if times == [] then
      (key in redis <==> key in left) && (key in redis ==> redis[key] == left[key])
    else
      && IsStreak(times, first, Window(key))
      && key in redis
      && redis[key] == Entry(StreakLength(left, key, times, first), Some(times[|times| - 1] + Window(key)))
  }

  lemma CountsStreakStep(left: Counters, redis: Counters, key: Key, times: seq<int>, first: nat, now: int)
    requires CountsStreak(left, redis, key, times, first) && (times != [] ==> times[|times| - 1] <= now)
    ensures CountsStreak(left, Pipelined(redis, key, 1, DONE, now), key, times + [now],
                         NextFirst(times, first, now, Window(key)))
  {
    DoneEffect(redis, key, now);
    StreakGrows(times, first, now, Window(key));
    assert times == [] ==> Count(redis, key, now) == Count(left, key, now);
    assert times != [] ==> (times + [now])[0] == times[0];
  }

  lemma StreakAppend(start: State, calls: seq<Call>, c: Call, key: Key, first: nat) returns (next: nat)
    requires c.RedisTry? ==> c.fate.ok
    requires var times := Attempts(calls, key);
             && CountsStreak(start.redis, After(start, calls).redis, key, times, first)
             && (times != [] ==> times[|times| - 1] <= c.now)
    ensures var times := Attempts(calls + [c], key);
            && CountsStreak(start.redis, After(start, calls + [c]).redis, key, times, next)
            && (times != [] ==> times[|times| - 1] <= c.now)
  {
    AfterAppend(start, calls, c);
    assert (calls + [c])[..|calls|] == calls;
    var times, redis := Attempts(calls, key), After(start, calls).redis;
    next := first;
    if c.RedisTry? && c.key == key {
      CountsStreakStep(start.redis, redis, key, times, first, c.now);
      next := NextFirst(times, first, c.now, Window(key));
      assert Attempts(calls + [c], key) == times + [c.now];
    } else {
      assert Attempts(calls + [c], key) == times;
      if c.RedisTry? {
        DoneEffect(redis, c.key, c.now);
      }
    }
  }

  lemma {:induction false} CounterIsStreak(start: State, calls: seq<Call>, key: Key) returns (first: nat)
    requires Timed(calls) && RedisUp(calls)
    ensures var times := Attempts(calls, key);
            && CountsStreak(start.redis, After(start, calls).redis, key, times, first)
            && (times != [] ==> times[|times| - 1] <= calls[|calls| - 1].now)
  {
    first := 0;
    if calls != [] {
      var prefix, c := calls[..|calls| - 1], calls[|calls| - 1];
      assert calls == prefix + [c] && forall i | 0 <= i < |prefix| :: prefix[i] == calls[i];
      first := CounterIsStreak(start, prefix, key);
      first := StreakAppend(start, prefix, c, key, first);
    }
  }

  lemma StreakUnique(times: seq<int>, a: nat, b: nat, window: int)
    requires IsStreak(times, a, window) && IsStreak(times, b, window)
    ensures a == b
  {
  }

  lemma {:induction false} AttemptsPrefix(calls: seq<Call>, n: nat, key: Key)
    requires n <= |calls|
    ensures |Attempts(calls[..n], key)| <= |Attempts(calls, key)|
    ensures Attempts(calls[..n], key) == Attempts(calls, key)[..|Attempts(calls[..n], key)|]
    decreases |calls| - n
  {
    if n == |calls| {
      assert calls[..n] == calls;
    } else {
      AttemptsPrefix(calls, n + 1, key);
      assert calls[..n + 1][..n] == calls[..n];
    }
  }

  ghost predicate TriesAt(calls: seq<Call>, n: nat, key: Key) {
    n < |calls| && calls[n].RedisTry? && calls[n].key == key
  }

  // An attempt at call `n` is let through exactly when the streak it ends has at most `limit`
  // attempts, those of an earlier counter included.
  lemma AdmittedIffStreakShort(limits: Limits, start: State, calls: seq<Call>, n: nat, key: Key, first: nat)
    requires Timed(calls) && RedisUp(calls) && TriesAt(calls, n, key)
    requires IsStreak(Attempts(calls[..n + 1], key), first, Window(key))
    ensures Admits(limits, After(start, calls[..n]), calls[n])
       <==> StreakLength(start.redis, key, Attempts(calls[..n + 1], key), first) <= Limit(limits, key)
  {
    var upto := calls[..n + 1];
    assert upto[..n] == calls[..n] && upto[n] == calls[n];
    var counted := CounterIsStreak(start, upto, key);
    StreakUnique(Attempts(upto, key), first, counted, Window(key));
    var s := After(start, calls[..n]);
    assert After(start, upto) == Step(s, calls[n]);
    DoneEffect(s.redis, key, calls[n].now);
  }

  lemma StreakAt(start: State, calls: seq<Call>, n: nat, key: Key) returns (first: nat)
    requires Timed(calls) && RedisUp(calls) && TriesAt(calls, n, key)
    ensures IsStreak(Attempts(calls[..n + 1], key), first, Window(key))
  {
    var upto := calls[..n + 1];
    assert upto[n] == calls[n];
    first := CounterIsStreak(start, upto, key);
  }

  // A streak that is too long does not become short by going on.
  lemma ShortStreakIsNewer(left: Counters, key: Key, times: seq<int>, n: nat, a: nat, b: nat, limit: int)
    requires n <= |times| && IsStreak(times[..n], a, Window(key)) && IsStreak(times, b, Window(key))
    requires StreakLength(left, key, times, b) <= limit < StreakLength(left, key, times[..n], a)
    ensures n <= b
  {
  }

  // Once refused, a key is let through again only after an idle gap longer than its window:
  // rejected attempts renew the lock-out.
  lemma LockedOutUntilIdle(limits: Limits, start: State, calls: seq<Call>, refused: nat, admitted: nat, key: Key)
    returns (gap: nat)
    requires Timed(calls) && RedisUp(calls)
    requires refused < admitted && TriesAt(calls, refused, key) && TriesAt(calls, admitted, key)
    requires !Admits(limits, After(start, calls[..refused]), calls[refused])
    requires Admits(limits, After(start, calls[..admitted]), calls[admitted])
    ensures var times := Attempts(calls, key);
            && |Attempts(calls[..refused + 1], key)| <= gap < |Attempts(calls[..admitted + 1], key)| <= |times|
            && times[gap] - times[gap - 1] > Window(key)
  {
    var earlier, later := Attempts(calls[..refused + 1], key), Attempts(calls[..admitted + 1], key);
    AttemptsPrefix(calls, admitted + 1, key);
    AttemptsPrefix(calls[..admitted + 1], refused + 1, key);
    assert calls[..admitted + 1][..refused + 1] == calls[..refused + 1];
    var first := StreakAt(start, calls, refused, key);
    AdmittedIffStreakShort(limits, start, calls, refused, key, first);
    gap := StreakAt(start, calls, admitted, key);
    AdmittedIffStreakShort(limits, start, calls, admitted, key, gap);
    ShortStreakIsNewer(start.redis, key, later, |earlier|, first, gap, Limit(limits, key));
  }

  // ---- The bucket counts the attempts since it was opened ----

  // The times of all attempts on `key` that Redis failed, rejected ones too.
  function LocalAttempts(calls: seq<Call>, key: Key): seq<int> {
    if calls == [] then []
    else
      var c := calls[|calls| - 1];
      LocalAttempts(calls[..|calls| - 1], key) + (if c.LocalTry? && c.key == key then [c.now] else [])
  }

  // The attempt that opened the bucket in which attempt `n` counts: a bucket takes every attempt
  // up to a window after the one that opened it, and the first one later than that opens the next.
  function Opening(times: seq<int>, n: nat, window: int): (first: nat)
    requires n < |times|
    ensures first <= n
  {
    if n == 0 then 0
    else
      var first := Opening(times, n - 1, window);
      if times[n] <= times[first] + window then first else n
  }

  lemma {:induction false} OpeningOfPrefix(times: seq<int>, more: seq<int>, n: nat, window: int)
    requires n < |times|
    ensures Opening(times + more, n, window) == Opening(times, n, window)
  {
    if n > 0 {
      OpeningOfPrefix(times, more, n - 1, window);
    }
  }

  // The bucket of a key attempted at `times`, opened by attempt `first`; it may have been cleaned
  // up if it has run out by `now`.
  ghost predicate OpenedBy(local: Buckets, key: Key, times: seq<int>, first: nat, now: int) {
    && first < |times|
    && (if key in local then local[key] == Bucket(|times| - first, times[first] + Window(key))
        else times[first] + Window(key) < now)
  }

  ghost predicate CountsOpening(local: Buckets, key: Key, times: seq<int>, now: int) {
    if times == [] then key !in local
    else OpenedBy(local, key, times, Opening(times, |times| - 1, Window(key)), now)
  }

  lemma OpenedByTry(local: Buckets, key: Key, times: seq<int>, first: nat, now: int)
    requires OpenedBy(local, key, times, first, now)
    ensures var next := if now <= times[first] + Window(key) then first else |times|;
            && OpenedBy(CountedLocally(local, key, now), key, times + [now], next, now)
            && BucketFor(local, key, now).count == |times| - next
  {
  }

  // One more attempt: it opens a bucket, or counts in the one opened last.
  lemma OpeningGrows(times: seq<int>, now: int, window: int)
    ensures times == [] ==> Opening(times + [now], |times|, window) == 0
    ensures times != [] ==>
              var first := Opening(times, |times| - 1, window);
              && (times + [now])[first] == times[first]
              && Opening(times + [now], |times|, window) == if now <= times[first] + window then first else |times|
  {
    if times != [] {
      OpeningOfPrefix(times, [now], |times| - 1, window);
    }
  }

  // `times` and one more attempt, with what is now in the bucket.
  ghost predicate CountsNext(local: Buckets, key: Key, times: seq<int>, more: seq<int>, now: int) {
    && more == times + [now]
    && CountsOpening(CountedLocally(local, key, now), key, more, now)
    && BucketFor(local, key, now).count == |more| - 1 - Opening(more, |more| - 1, Window(key))
  }

  lemma CountsOpeningFirst(local: Buckets, key: Key, now: int)
    requires key !in local
    ensures CountsNext(local, key, [], [now], now)
  {
  }

  lemma CountsOpeningNext(local: Buckets, key: Key, times: seq<int>, now: int, first: nat, next: nat)
    requires times != [] && first == Opening(times, |times| - 1, Window(key)) && OpenedBy(local, key, times, first, now)
    requires next == if now <= times[first] + Window(key) then first else |times|
    ensures Opening(times + [now], |times|, Window(key)) == next
    ensures OpenedBy(CountedLocally(local, key, now), key, times + [now], next, now)
    ensures BucketFor(local, key, now).count == |times| - next
  {
    OpeningGrows(times, now, Window(key));
    OpenedByTry(local, key, times, first, now);
  }

  lemma CountsOpeningLater(local: Buckets, key: Key, times: seq<int>, now: int)
    requires times != [] && CountsOpening(local, key, times, now)
    ensures CountsNext(local, key, times, times + [now], now)
  {
    var first := Opening(times, |times| - 1, Window(key));
    var more, next := times + [now], if now <= times[first] + Window(key) then first else |times|;
    CountsOpeningNext(local, key, times, now, first, next);
    assert Opening(more, |more| - 1, Window(key)) == next;
  }

  lemma CountsOpeningTry(local: Buckets, key: Key, times: seq<int>, now: int)
    requires CountsOpening(local, key, times, now)
    ensures CountsNext(local, key, times, times + [now], now)
  {
    if times == [] {
      assert times + [now] == [now];
      CountsOpeningFirst(local, key, now);
    } else {
      CountsOpeningLater(local, key, times, now);
    }
  }

  lemma CountsOpeningOther(s: State, c: Call, key: Key, times: seq<int>)
    requires CountsOpening(s.local, key, times, c.now)
    requires !(c.LocalTry? && c.key == key)
    ensures CountsOpening(Step(s, c).local, key, times, c.now)
  {
  }

  lemma LocalAttemptsAppend(calls: seq<Call>, c: Call, key: Key)
    ensures LocalAttempts(calls + [c], key)
         == if c.LocalTry? && c.key == key then LocalAttempts(calls, key) + [c.now] else LocalAttempts(calls, key)
  {
    assert (calls + [c])[..|calls|] == calls;
  }

  lemma CountsOpeningStep(s: State, c: Call, key: Key, times: seq<int>)
    requires CountsOpening(s.local, key, times, c.now)
    ensures CountsOpening(Step(s, c).local, key,
                          if c.LocalTry? && c.key == key then times + [c.now] else times, c.now)
  {
    if c.LocalTry? && c.key == key {
      CountsOpeningTry(s.local, key, times, c.now);
    } else {
      CountsOpeningOther(s, c, key, times);
    }
  }

  lemma StillCounts(local: Buckets, key: Key, times: seq<int>, before: int, now: int)
    requires CountsOpening(local, key, times, before) && before <= now
    ensures CountsOpening(local, key, times, now)
  {
  }

  lemma TimedPrefix(calls: seq<Call>, c: Call, now: int)
    requires Timed(calls + [c]) && c.now <= now
    ensures Timed(calls) && forall i | 0 <= i < |calls| :: calls[i].now <= c.now
  {
    assert forall i | 0 <= i < |calls| :: (calls + [c])[i] == calls[i];
    assert (calls + [c])[|calls|] == c;
  }

  lemma {:induction false} BucketCountsOpening(start: State, calls: seq<Call>, key: Key, now: int)
    requires Timed(calls) && start.local == map[] && forall i | 0 <= i < |calls| :: calls[i].now <= now
    ensures CountsOpening(After(start, calls).local, key, LocalAttempts(calls, key), now)
  {
    if calls != [] {
      var prefix, c := calls[..|calls| - 1], calls[|calls| - 1];
      assert calls == prefix + [c];
      TimedPrefix(prefix, c, now);
      BucketCountsOpening(start, prefix, key, c.now);
      LocalAttemptsAppend(prefix, c, key);
      AfterAppend(start, prefix, c);
      CountsOpeningStep(After(start, prefix), c, key, LocalAttempts(prefix, key));
      StillCounts(Step(After(start, prefix), c).local, key, LocalAttempts(calls, key), c.now, now);
    }
  }

  ghost predicate TriesLocallyAt(calls: seq<Call>, n: nat, key: Key) {
    n < |calls| && calls[n].LocalTry? && calls[n].key == key
  }

  // A local attempt is let through exactly when its bucket has taken at most `limit` attempts.
  lemma LocalAdmittedIff(limits: Limits, start: State, calls: seq<Call>, n: nat, key: Key)
    requires Timed(calls) && start.local == map[] && TriesLocallyAt(calls, n, key)
    ensures var times := LocalAttempts(calls[..n + 1], key);
            && times != []
            && (Admits(limits, After(start, calls[..n]), calls[n])
                <==> |times| - Opening(times, |times| - 1, Window(key)) <= Limit(limits, key))
  {
    var before, upto := calls[..n], calls[..n + 1];
    assert upto[..n] == before && upto[n] == calls[n];
    BucketCountsOpening(start, before, key, calls[n].now);
    CountsOpeningTry(After(start, before).local, key, LocalAttempts(before, key), calls[n].now);
  }

  // ---- The Redis limiter is the stricter of the two ----

  datatype Attempt = Attempt(key: Key, now: int)

  ghost predicate TimedAttempts(attempts: seq<Attempt>) {
    forall i, j | 0 <= i < j < |attempts| :: attempts[i].now <= attempts[j].now
  }

  function AsRedis(attempts: seq<Attempt>): seq<Call> {
    seq(|attempts|, i requires 0 <= i < |attempts| => RedisTry(attempts[i].key, DONE, attempts[i].now))
  }

  function AsLocal(attempts: seq<Attempt>): seq<Call> {
    seq(|attempts|, i requires 0 <= i < |attempts| => LocalTry(attempts[i].key, attempts[i].now))
  }

  // Redis remembers at least as many attempts as the bucket, and for at least as long.
  ghost predicate Outlasts(redis: Counters, local: Buckets, key: Key, now: int) {
    key in local ==>
      && key in redis
      && redis[key].expiry.Some?
      && local[key].resetTime <= redis[key].expiry.value <= now + Window(key)
      && local[key].count <= redis[key].value
  }

  lemma OutlastsStep(redis: Counters, local: Buckets, key: Key, before: int, now: int)
    requires Outlasts(redis, local, key, before) && CountersSound(redis) && before <= now
    ensures Outlasts(Pipelined(redis, key, 1, DONE, now), CountedLocally(local, key, now), key, now)
  {
    DoneEffect(redis, key, now);
  }

  lemma OutlastsAppend(start: State, redisCalls: seq<Call>, localCalls: seq<Call>, a: Attempt, key: Key, before: int)
    requires CountersSound(start.redis) && before <= a.now
    requires Outlasts(After(start, redisCalls).redis, After(start, localCalls).local, key, before)
    ensures Outlasts(After(start, redisCalls + [RedisTry(a.key, DONE, a.now)]).redis,
                     After(start, localCalls + [LocalTry(a.key, a.now)]).local, key, a.now)
  {
    AfterAppend(start, redisCalls, RedisTry(a.key, DONE, a.now));
    AfterAppend(start, localCalls, LocalTry(a.key, a.now));
    var redis, local := After(start, redisCalls).redis, After(start, localCalls).local;
    DoneEffect(redis, a.key, a.now);
    if a.key == key {
      CountersStaySound(start, redisCalls);
      OutlastsStep(redis, local, key, before, a.now);
    }
  }

  lemma {:induction false} CounterOutlastsBucket(start: State, attempts: seq<Attempt>, key: Key, now: int)
    requires TimedAttempts(attempts) && FreshStart(start)
    requires forall i | 0 <= i < |attempts| :: attempts[i].now <= now
    ensures Outlasts(After(start, AsRedis(attempts)).redis, After(start, AsLocal(attempts)).local, key, now)
  {
    if attempts != [] {
      var prefix, a := attempts[..|attempts| - 1], attempts[|attempts| - 1];
      CounterOutlastsBucket(start, prefix, key, a.now);
      OutlastsAppend(start, AsRedis(prefix), AsLocal(prefix), a, key, a.now);
      assert AsRedis(attempts) == AsRedis(prefix) + [RedisTry(a.key, DONE, a.now)];
      assert AsLocal(attempts) == AsLocal(prefix) + [LocalTry(a.key, a.now)];
    }
  }

  // Fed the same timed attempts, every one the Redis limiter lets through the local one lets through.
  lemma RedisIsStricter(limits: Limits, start: State, attempts: seq<Attempt>, n: nat)
    requires TimedAttempts(attempts) && FreshStart(start) && n < |attempts|
    ensures var r, l := AsRedis(attempts), AsLocal(attempts);
            Admits(limits, After(start, r[..n]), r[n]) ==> Admits(limits, After(start, l[..n]), l[n])
  {
    var prefix, a := attempts[..n], attempts[n];
    assert AsRedis(attempts)[..n] == AsRedis(prefix) && AsLocal(attempts)[..n] == AsLocal(prefix);
    CountersStaySound(start, AsRedis(prefix));
    CounterOutlastsBucket(start, prefix, a.key, a.now);
  }

  // ---- Cleanup is invisible ----

  function Uncleaned(calls: seq<Call>): seq<Call> {
    if calls == [] then []
    else
      var c := calls[|calls| - 1];
      Uncleaned(calls[..|calls| - 1]) + (if c.Cleanup? then [] else [c])
  }

  // The answers given to the checks, in order.
  function Answers(limits: Limits, start: State, calls: seq<Call>): seq<bool> {
    if calls == [] then []
    else
      var prefix, c := calls[..|calls| - 1], calls[|calls| - 1];
      Answers(limits, start, prefix) + (if c.Cleanup? then [] else [Admits(limits, After(start, prefix), c)])
  }

  // `a` lacks nothing of `b` but buckets that have run out by `now`.
  ghost predicate SameUnexpired(a: Buckets, b: Buckets, now: int) {
    && (forall key | key in a :: key in b && a[key] == b[key])
    && (forall key | key in b && key !in a :: b[key].resetTime < now)
  }

  ghost predicate Twins(a: State, b: State, now: int) {
    a.redis == b.redis && SameUnexpired(a.local, b.local, now)
  }

  lemma TwinsStep(limits: Limits, a: State, b: State, c: Call, now: int)
    requires Twins(a, b, now) && now <= c.now
    ensures c.Cleanup? ==> Twins(Step(a, c), b, c.now)
    ensures !c.Cleanup? ==> Admits(limits, a, c) == Admits(limits, b, c) && Twins(Step(a, c), Step(b, c), c.now)
  {
  }

  lemma AnswersAppend(limits: Limits, start: State, calls: seq<Call>, c: Call)
    ensures Answers(limits, start, calls + [c])
         == Answers(limits, start, calls) + (if c.Cleanup? then [] else [Admits(limits, After(start, calls), c)])
    ensures Uncleaned(calls + [c]) == Uncleaned(calls) + (if c.Cleanup? then [] else [c])
  {
    assert (calls + [c])[..|calls|] == calls;
  }

  // Run `u` answers as run `calls` does and leaves the same unexpired buckets.
  ghost predicate Imitates(limits: Limits, start: State, calls: seq<Call>, u: seq<Call>, now: int) {
    && Answers(limits, start, calls) == Answers(limits, start, u)
    && Twins(After(start, calls), After(start, u), now)
  }

  lemma ImitatesAppend(limits: Limits, start: State, calls: seq<Call>, u: seq<Call>, c: Call, now: int)
    requires Imitates(limits, start, calls, u, now) && now <= c.now
    ensures Imitates(limits, start, calls + [c], if c.Cleanup? then u else u + [c], c.now)
  {
    TwinsStep(limits, After(start, calls), After(start, u), c, now);
    AfterAppend(start, calls, c);
    AfterAppend(start, u, c);
    AnswersAppend(limits, start, calls, c);
    AnswersAppend(limits, start, u, c);
  }

  // A limiter cleaned at arbitrary moments answers as one that is never cleaned.
  lemma {:induction false} CleanupInvisible(limits: Limits, start: State, calls: seq<Call>, now: int)
    requires Timed(calls) && forall i | 0 <= i < |calls| :: calls[i].now <= now
    ensures Imitates(limits, start, calls, Uncleaned(calls), now)
  {
    if calls != [] {
      var prefix, c := calls[..|calls| - 1], calls[|calls| - 1];
      assert prefix + [c] == calls && forall i | 0 <= i < |prefix| :: prefix[i] == calls[i];
      CleanupInvisible(limits, start, prefix, c.now);
      ImitatesAppend(limits, start, prefix, Uncleaned(prefix), c, c.now);
      AnswersAppend(limits, start, prefix, c);
      assert Uncleaned(calls) == if c.Cleanup? then Uncleaned(prefix) else Uncleaned(prefix) + [c];
    }
  }
}
