// How many callers the limiter lets through in any interval, whatever Redis
// does, with checks of any keys and cleanups interleaved.
module LimiterBounds {
  import opened Common
  import opened TtlStore
  import opened RateLimit

  // The clock does not run backwards.
  ghost predicate Timed(calls: seq<Call>) {
    forall i, j | 0 <= i < j < |calls| :: calls[i].now <= calls[j].now
  }

  // Redis may hold counters of an earlier run or of other daemons; memory starts empty.
  ghost predicate FreshStart(start: State) {
    start.local == map[] && forall key | key in start.redis :: start.redis[key].value >= 0
  }

  datatype Path = ViaRedis | ViaLocal

  predicate Counts(c: Call, path: Path, key: Key, from: int, to: int) {
    match c
    case RedisTry(k, _, now) => path == ViaRedis && k == key && from <= now <= to
    case LocalTry(k, now) => path == ViaLocal && k == key && from <= now <= to
    case Cleanup(_) => false
  }

  // The number of calls on `key` let through by `path` between `from` and `to`, both included.
  function Admissions(limits: Limits, start: State, calls: seq<Call>, path: Path, key: Key, from: int, to: int): nat {
    if calls == [] then 0
    else
      var prefix, c := calls[..|calls| - 1], calls[|calls| - 1];
      Admissions(limits, start, prefix, path, key, from, to)
      + (if Counts(c, path, key, from, to) && Admits(limits, After(start, prefix), c) then 1 else 0)
  }

  lemma AdmissionsAppend(limits: Limits, start: State, calls: seq<Call>, c: Call, path: Path, key: Key,
                         from: int, to: int)
    ensures Admissions(limits, start, calls + [c], path, key, from, to)
         == Admissions(limits, start, calls, path, key, from, to)
            + (if Counts(c, path, key, from, to) && Admits(limits, After(start, calls), c) then 1 else 0)
  {
    assert (calls + [c])[..|calls|] == calls;
  }

  // ---- The Redis path ----

  ghost predicate CountersSound(redis: Counters) {
    forall key | key in redis :: redis[key].value >= 0
  }

  lemma {:induction false} CountersStaySound(start: State, calls: seq<Call>)
    requires CountersSound(start.redis)
    ensures CountersSound(After(start, calls).redis)
  {
    if calls != [] {
      CountersStaySound(start, calls[..|calls| - 1]);
    }
  }

  // `n` admissions are on the counter, and it will not be forgotten before `until`.
  ghost predicate Remembers(redis: Counters, key: Key, n: nat, until: int) {
    key in redis && redis[key].value >= n && (redis[key].expiry == None || redis[key].expiry.value >= until)
  }

  lemma RemembersStep(limits: Limits, s: State, c: Call, key: Key, n: nat, from: int)
    requires CountersSound(s.redis) && c.now <= from + Window(key)
    requires n > 0 ==> from <= c.now && Remembers(s.redis, key, n, from + Window(key))
    ensures var hit := Counts(c, ViaRedis, key, from, from + Window(key)) && Admits(limits, s, c);
            var m := if hit then n + 1 else n;
            && (hit ==> m <= Limit(limits, key))
            && (m > 0 ==> Remembers(Step(s, c).redis, key, m, from + Window(key)))
  {
    if c.RedisTry? && c.key == key && n > 0 {
      assert Live(s.redis, key, c.now);
    }
  }

  // At most `limit` admissions in any interval of one window, whichever commands of
  // whichever pipelines are lost.
  lemma {:induction false} RedisWindow(limits: Limits, start: State, calls: seq<Call>, key: Key, from: int)
    requires Timed(calls) && CountersSound(start.redis)
    ensures var n := Admissions(limits, start, calls, ViaRedis, key, from, from + Window(key));
            && n <= Max(Limit(limits, key), 0)
            && (n > 0 && calls[|calls| - 1].now <= from + Window(key) ==>
                  from <= calls[|calls| - 1].now && Remembers(After(start, calls).redis, key, n, from + Window(key)))
  {
    if calls != [] {
      var prefix, c := calls[..|calls| - 1], calls[|calls| - 1];
      assert forall i | 0 <= i < |prefix| :: prefix[i] == calls[i];
      RedisWindow(limits, start, prefix, key, from);
      CountersStaySound(start, prefix);
      if c.now <= from + Window(key) {
        RemembersStep(limits, After(start, prefix), c, key,
                      Admissions(limits, start, prefix, ViaRedis, key, from, from + Window(key)), from);
      }
    }
  }

  // ---- The local path ----

  // Each of `windows` buckets in a row had run out before the next was opened.
  ghost predicate LaterBy(from: int, openedAt: int, windows: nat, w: nat) {
    openedAt >= from + Product(windows, w) && (windows >= 1 ==> openedAt > from + Product(windows, w))
  }

  // What is known of the buckets of `key` once the last of them was opened at `openedAt`:
  // at most `n` callers have been let through since `from`, the earlier ones in `full`
  // buckets opened since `from`; `partial` says that a bucket opened before `from` let
  // some of them through as well, and therefore one caller too few.
  ghost predicate BucketHistory(local: Buckets, key: Key, limit: nat, n: nat, from: int, now: int,
                                openedAt: int, full: nat, partial: bool)
  {
    var w := Window(key);
    && openedAt <= now
    && (if key in local then local[key].resetTime == openedAt + w && local[key].count >= 1 else now > openedAt + w)
    && var current := if key in local && local[key].count < limit then local[key].count else limit;
    && n <= Product(full, limit) + current - (if partial then 1 else 0)
    && if openedAt < from then full == 0 && partial
       else if partial then full >= 1 && LaterBy(from, openedAt, full - 1, w)
       else LaterBy(from, openedAt, full, w)
  }

  ghost predicate NoBucketYet(local: Buckets, key: Key, n: nat) {
    key !in local && n == 0
  }

  datatype History = Unused | Used(openedAt: int, full: nat, partial: bool)

  ghost predicate Explains(h: History, local: Buckets, key: Key, limit: nat, n: nat, from: int, now: int) {
    match h
    case Unused => NoBucketYet(local, key, n)
    case Used(openedAt, full, partial) => BucketHistory(local, key, limit, n, from, now, openedAt, full, partial)
  }

  function NextHistory(h: History, local: Buckets, key: Key, from: int, now: int): History {
    if key in local && now <= local[key].resetTime then h
    else match h
      case Unused => Used(now, 0, now < from)
      case Used(openedAt, full, partial) =>
        if now < from then Used(now, 0, true)
        else Used(now, full + 1, partial)
  }

  lemma HistoryCount(local: Buckets, key: Key, limit: nat, n: nat, from: int, before: int, now: int, h: History)
    requires limit >= 1 && before <= now && Explains(h, local, key, limit, n, from, before)
    requires before < from ==> n == 0
    ensures var m := if from <= now && BucketFor(local, key, now).count + 1 <= limit then n + 1 else n;
            Explains(NextHistory(h, local, key, from, now), CountedLocally(local, key, now), key, limit, m, from, now)
  {
  }

  lemma HistoryStep(limits: Limits, s: State, c: Call, key: Key, n: nat, from: int, now: int, h: History)
    requires Limit(limits, key) >= 1 && now <= c.now
    requires Explains(h, s.local, key, Limit(limits, key), n, from, now)
    requires now < from ==> n == 0
    ensures var hit := c.LocalTry? && c.key == key;
            var m := if hit && from <= c.now && Admits(limits, s, c) then n + 1 else n;
            Explains(if hit then NextHistory(h, s.local, key, from, c.now) else h,
                     Step(s, c).local, key, Limit(limits, key), m, from, c.now)
  {
    if c.LocalTry? && c.key == key {
      HistoryCount(s.local, key, Limit(limits, key), n, from, now, c.now, h);
    }
  }

  lemma HistoryAppend(limits: Limits, start: State, calls: seq<Call>, c: Call, key: Key, from: int, to: int,
                      now: int, h: History)
    returns (next: History)
    requires Limit(limits, key) >= 1 && now <= c.now <= to
    requires var n := Admissions(limits, start, calls, ViaLocal, key, from, to);
             Explains(h, After(start, calls).local, key, Limit(limits, key), n, from, now) && (now < from ==> n == 0)
    ensures var n := Admissions(limits, start, calls + [c], ViaLocal, key, from, to);
            && Explains(next, After(start, calls + [c]).local, key, Limit(limits, key), n, from, c.now)
            && (c.now < from ==> n == 0)
  {
    AfterAppend(start, calls, c);
    AdmissionsAppend(limits, start, calls, c, ViaLocal, key, from, to);
    var s, n := After(start, calls), Admissions(limits, start, calls, ViaLocal, key, from, to);
    HistoryStep(limits, s, c, key, n, from, now, h);
    next := if c.LocalTry? && c.key == key then NextHistory(h, s.local, key, from, c.now) else h;
  }

  lemma {:induction false} LocalHistory(limits: Limits, start: State, calls: seq<Call>, key: Key, from: int, to: int)
    returns (h: History)
    requires Limit(limits, key) >= 1
    requires calls != [] && Timed(calls) && FreshStart(start) && calls[|calls| - 1].now <= to
    ensures var n := Admissions(limits, start, calls, ViaLocal, key, from, to);
            && Explains(h, After(start, calls).local, key, Limit(limits, key), n, from, calls[|calls| - 1].now)
            && (calls[|calls| - 1].now < from ==> n == 0)
  {
    var prefix, c := calls[..|calls| - 1], calls[|calls| - 1];
    assert calls == prefix + [c] && forall i | 0 <= i < |prefix| :: prefix[i] == calls[i];
    if prefix == [] {
      h := HistoryAppend(limits, start, prefix, c, key, from, to, c.now, Unused);
    } else {
      h := LocalHistory(limits, start, prefix, key, from, to);
      h := HistoryAppend(limits, start, prefix, c, key, from, to, prefix[|prefix| - 1].now, h);
    }
  }

  // What the history of the buckets says about an interval of `windows` windows.
  lemma HistoryBound(local: Buckets, key: Key, limit: nat, n: nat, from: int, now: int, windows: nat, h: History)
    requires limit >= 1 && windows >= 1 && now <= from + windows * Window(key)
    requires Explains(h, local, key, limit, n, from, now)
    ensures n <= LocalBound(limit, windows)
  {
    if h.Used? {
      var used := if h.partial then h.full else h.full + 1;
      if used > windows {
        ProductGrows(windows, used - 1, Window(key));
        ProductIsTimes(windows, Window(key));
        assert false;
      }
      ProductGrows(used, windows, limit);
      ProductIsTimes(windows, limit);
      assert limit * (windows + 1) == windows * limit + limit;
    }
  }

  lemma {:induction false} NothingAdmitted(limits: Limits, start: State, calls: seq<Call>, path: Path, key: Key,
                                           from: int, to: int)
    requires Limit(limits, key) <= 0 && FreshStart(start)
    ensures Admissions(limits, start, calls, path, key, from, to) == 0
  {
    if calls != [] {
      NothingAdmitted(limits, start, calls[..|calls| - 1], path, key, from, to);
      CountersStaySound(start, calls[..|calls| - 1]);
    }
  }

  // The most callers the buckets may let through in an interval of `windows` windows.
  function LocalBound(limit: int, windows: nat): nat {
    if limit <= 0 then 0 else limit * (windows + 1) - 1
  }

  lemma {:induction false} LocalWindows(limits: Limits, start: State, calls: seq<Call>, key: Key,
                                        from: int, to: int, windows: nat)
    requires Timed(calls) && FreshStart(start) && windows >= 1 && to <= from + windows * Window(key)
    ensures Admissions(limits, start, calls, ViaLocal, key, from, to) <= LocalBound(Limit(limits, key), windows)
  {
    var limit := Limit(limits, key);
    if limit <= 0 {
      NothingAdmitted(limits, start, calls, ViaLocal, key, from, to);
    } else if calls != [] {
      var prefix, c := calls[..|calls| - 1], calls[|calls| - 1];
      if c.now > to {
        assert forall i | 0 <= i < |prefix| :: prefix[i] == calls[i];
        LocalWindows(limits, start, prefix, key, from, to, windows);
      } else {
        var h := LocalHistory(limits, start, calls, key, from, to);
        HistoryBound(After(start, calls).local, key, limit, Admissions(limits, start, calls, ViaLocal, key, from, to),
                     from, c.now, windows, h);
      }
    }
  }

  lemma {:induction false} ProductGrows(a: nat, b: nat, x: nat)
    requires a <= b
    ensures Product(a, x) <= Product(b, x)
    decreases b
  {
    if a < b {
      ProductGrows(a, b - 1, x);
    }
  }

  // ---- Both paths together ----

  function CombinedBound(limit: int): nat {
    if limit <= 0 then 0 else 3 * limit - 1
  }

  // Whatever Redis does, one key is let through fewer than three times its limit in any
  // interval of one window: `limit` times by Redis and 2 * limit - 1 times by the fallback.
  lemma CombinedWindow(limits: Limits, start: State, calls: seq<Call>, key: Key, from: int)
    requires Timed(calls) && FreshStart(start)
    ensures Admissions(limits, start, calls, ViaRedis, key, from, from + Window(key))
            + Admissions(limits, start, calls, ViaLocal, key, from, from + Window(key))
         <= CombinedBound(Limit(limits, key))
  {
    RedisWindow(limits, start, calls, key, from);
    LocalWindows(limits, start, calls, key, from, from + Window(key), 1);
  }

  // ---- The bounds are reached ----

  // The program makes a local try only right after a Redis try of the same key that failed.
  ghost predicate AsProgram(calls: seq<Call>) {
    forall i | 0 <= i < |calls| && calls[i].LocalTry? ::
      i > 0 && calls[i - 1].RedisTry? && !calls[i - 1].fate.ok && calls[i - 1].key == calls[i].key
  }

  ghost predicate TimedUntil(calls: seq<Call>, now: int) {
    Timed(calls) && forall i | 0 <= i < |calls| :: calls[i].now <= now
  }

  // What a run amounts to for one key and one interval.
  datatype Tally = Tally(state: State, viaRedis: nat, viaLocal: nat)

  ghost predicate Sums(limits: Limits, calls: seq<Call>, key: Key, from: int, to: int, now: int, t: Tally) {
    var start := State(map[], map[]);
    && TimedUntil(calls, now) && AsProgram(calls)
    && After(start, calls) == t.state
    && Admissions(limits, start, calls, ViaRedis, key, from, to) == t.viaRedis
    && Admissions(limits, start, calls, ViaLocal, key, from, to) == t.viaLocal
  }

  // One more check that Redis loses and that the bucket still has room for.
  lemma OneMoreLocal(limits: Limits, calls: seq<Call>, key: Key, from: int, to: int, now: int, t: Tally)
    returns (more: seq<Call>, u: Tally)
    requires Sums(limits, calls, key, from, to, now, t)
    requires BucketFor(t.state.local, key, now).count + 1 <= Limit(limits, key)
    ensures Sums(limits, more, key, from, to, now, u)
    ensures u == Tally(State(t.state.redis, CountedLocally(t.state.local, key, now)),
                       t.viaRedis, t.viaLocal + if from <= now <= to then 1 else 0)
  {
    var start, c, d := State(map[], map[]), RedisTry(key, LOST, now), LocalTry(key, now);
    var half := calls + [c];
    more := half + [d];
    AfterAppend(start, calls, c);
    AfterAppend(start, half, d);
    AdmissionsAppend(limits, start, calls, c, ViaRedis, key, from, to);
    AdmissionsAppend(limits, start, calls, c, ViaLocal, key, from, to);
    AdmissionsAppend(limits, start, half, d, ViaRedis, key, from, to);
    AdmissionsAppend(limits, start, half, d, ViaLocal, key, from, to);
    u := Tally(State(t.state.redis, CountedLocally(t.state.local, key, now)),
               t.viaRedis, t.viaLocal + if from <= now <= to then 1 else 0);
  }

  lemma OneMoreRedis(limits: Limits, calls: seq<Call>, key: Key, from: int, to: int, now: int, t: Tally)
    returns (more: seq<Call>, u: Tally)
    requires Sums(limits, calls, key, from, to, now, t) && from <= now <= to
    requires Count(t.state.redis, key, now) + 1 <= Limit(limits, key)
    ensures Sums(limits, more, key, from, to, now, u)
    ensures u == Tally(State(Pipelined(t.state.redis, key, 1, DONE, now), t.state.local), t.viaRedis + 1, t.viaLocal)
    ensures Count(u.state.redis, key, now) == Count(t.state.redis, key, now) + 1
  {
    var start, c := State(map[], map[]), RedisTry(key, DONE, now);
    more := calls + [c];
    AfterAppend(start, calls, c);
    AdmissionsAppend(limits, start, calls, c, ViaRedis, key, from, to);
    AdmissionsAppend(limits, start, calls, c, ViaLocal, key, from, to);
    u := Tally(State(Pipelined(t.state.redis, key, 1, DONE, now), t.state.local), t.viaRedis + 1, t.viaLocal);
  }

  lemma {:induction false} LocalBurst(limits: Limits, calls: seq<Call>, key: Key, from: int, to: int, now: int,
                                      n: nat, t: Tally)
    returns (more: seq<Call>, u: Tally)
    requires Sums(limits, calls, key, from, to, now, t)
    requires BucketFor(t.state.local, key, now).count + n <= Limit(limits, key)
    ensures Sums(limits, more, key, from, to, now, u)
    ensures u.state.redis == t.state.redis && u.viaRedis == t.viaRedis
    ensures u.viaLocal == t.viaLocal + if from <= now <= to then n else 0
    ensures var b := BucketFor(t.state.local, key, now);
            BucketFor(u.state.local, key, now) == Bucket(b.count + n, b.resetTime)
    decreases n
  {
    more, u := calls, t;
    if n > 0 {
      more, u := OneMoreLocal(limits, calls, key, from, to, now, t);
      more, u := LocalBurst(limits, more, key, from, to, now, n - 1, u);
    }
  }

  lemma {:induction false} RedisBurst(limits: Limits, calls: seq<Call>, key: Key, from: int, to: int, now: int,
                                      n: nat, t: Tally)
    returns (more: seq<Call>, u: Tally)
    requires Sums(limits, calls, key, from, to, now, t) && from <= now <= to
    requires Count(t.state.redis, key, now) + n <= Limit(limits, key)
    ensures Sums(limits, more, key, from, to, now, u)
    ensures u.viaRedis == t.viaRedis + n && u.viaLocal == t.viaLocal
    decreases n
  {
    more, u := calls, t;
    if n > 0 {
      more, u := OneMoreRedis(limits, calls, key, from, to, now, t);
      more, u := RedisBurst(limits, more, key, from, to, now, n - 1, u);
    }
  }

  // One check opens a bucket; the rest of that bucket and the whole of the next are used up
  // around the instant at which the first runs out.
  lemma FallbackBursts(limits: Limits, key: Key) returns (calls: seq<Call>, t: Tally)
    requires Limit(limits, key) >= 1
    ensures var w := Window(key);
            && Sums(limits, calls, key, w, w + w, w + 1, t)
            && t.state.redis == map[] && t.viaRedis == 0 && t.viaLocal == 2 * Limit(limits, key) - 1
  {
    var limit, w := Limit(limits, key), Window(key);
    var none, t0 := [], Tally(State(map[], map[]), 0, 0);
    assert BucketFor(t0.state.local, key, 0) == Bucket(0, w);
    var one, t1 := LocalBurst(limits, none, key, w, w + w, 0, 1, t0);
    assert BucketFor(t1.state.local, key, w) == Bucket(1, w);
    var rest, t2 := LocalBurst(limits, one, key, w, w + w, w, limit - 1, t1);
    assert BucketFor(t2.state.local, key, w + 1).count == 0;
    calls, t := LocalBurst(limits, rest, key, w, w + w, w + 1, limit, t2);
  }

  // For every key and every positive limit the program, with Redis failing at times, can
  // let exactly 3 * limit - 1 callers through within one window, when the fallback is used
  // to the full and Redis admits its own share at the same time.
  lemma CombinedBoundReached(limits: Limits, key: Key) returns (calls: seq<Call>, from: int)
    requires Limit(limits, key) >= 1
    ensures Timed(calls) && AsProgram(calls)
    ensures Admissions(limits, State(map[], map[]), calls, ViaRedis, key, from, from + Window(key))
            + Admissions(limits, State(map[], map[]), calls, ViaLocal, key, from, from + Window(key))
         == CombinedBound(Limit(limits, key))
  {
    var limit, w := Limit(limits, key), Window(key);
    from := w;
    var t;
    calls, t := FallbackBursts(limits, key);
    calls, t := RedisBurst(limits, calls, key, from, from + w, w + 1, limit, t);
  }
}
