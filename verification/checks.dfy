// The laws of the limiter, check by check: which configured limit holds over which window,
// written in nanoseconds.
module LimiterChecks {
  import opened Common
  import opened TtlStore
  import opened RateLimit
  import opened LimiterBounds
  import opened LimiterLaws

  // In any interval of one window Redis lets at most `limit` callers through, and both paths
  // together at most 3 * limit - 1.
  ghost predicate Bounded(limit: int, window: int, limits: Limits, start: State, calls: seq<Call>, key: Key,
                          from: int)
  {
    var redis := Admissions(limits, start, calls, ViaRedis, key, from, from + window);
    var local := Admissions(limits, start, calls, ViaLocal, key, from, from + window);
    redis <= Max(limit, 0) && redis + local <= Max(3 * limit - 1, 0)
  }

  // With Redis up a caller is let through exactly when the streak of attempts it ends, with no gap
  // longer than the window, has at most `limit` of them.
  ghost predicate StreakDecides(limit: int, window: int, limits: Limits, start: State, calls: seq<Call>, key: Key,
                                n: nat, first: nat)
  {
    RedisUp(calls) && TriesAt(calls, n, key) && IsStreak(Attempts(calls[..n + 1], key), first, window) ==>
      (Admits(limits, After(start, calls[..n]), calls[n])
       <==> StreakLength(start.redis, key, Attempts(calls[..n + 1], key), first) <= limit)
  }

  // When Redis fails, exactly when at most `limit` attempts have been made since the one that
  // opened its bucket, which takes attempts for one window.
  ghost predicate BucketDecides(limit: int, window: int, limits: Limits, start: State, calls: seq<Call>, key: Key,
                                n: nat)
  {
    TriesLocallyAt(calls, n, key) ==>
      var times := LocalAttempts(calls[..n + 1], key);
      && times != []
      && (Admits(limits, After(start, calls[..n]), calls[n])
          <==> |times| - Opening(times, |times| - 1, window) <= limit)
  }

  ghost predicate KeptAt(limit: int, window: int, limits: Limits, start: State, calls: seq<Call>, key: Key,
                         from: int, n: nat, first: nat)
  {
    && Bounded(limit, window, limits, start, calls, key, from)
    && StreakDecides(limit, window, limits, start, calls, key, n, first)
    && BucketDecides(limit, window, limits, start, calls, key, n)
  }

  ghost predicate KeptTo(limit: int, window: int, limits: Limits, start: State, calls: seq<Call>, key: Key) {
    forall from: int, n: nat, first: nat :: KeptAt(limit, window, limits, start, calls, key, from, n, first)
  }

  lemma KeyKeptTo(limits: Limits, start: State, calls: seq<Call>, key: Key)
    requires Timed(calls) && FreshStart(start)
    ensures KeptTo(Limit(limits, key), Window(key), limits, start, calls, key)
  {
    var limit, window := Limit(limits, key), Window(key);
    forall from: int, n: nat, first: nat ensures KeptAt(limit, window, limits, start, calls, key, from, n, first) {
      RedisWindow(limits, start, calls, key, from);
      CombinedWindow(limits, start, calls, key, from);
      if RedisUp(calls) && TriesAt(calls, n, key) && IsStreak(Attempts(calls[..n + 1], key), first, window) {
        AdmittedIffStreakShort(limits, start, calls, n, key, first);
      }
      if TriesLocallyAt(calls, n, key) {
        LocalAdmittedIff(limits, start, calls, n, key);
      }
    }
  }

  // An address opens at most ipConnectionsPerMinute connections in a minute.
  lemma ConnectionsPerMinute(limits: Limits, start: State, calls: seq<Call>, ip: string)
    requires Timed(calls) && FreshStart(start)
    ensures KeptTo(limits.ipConnectionsPerMinute, 60_000_000_000, limits, start, calls, IpConnections(ip))
  {
    KeyKeptTo(limits, start, calls, IpConnections(ip));
  }

  // An address makes at most ipFailedAuthPerHour attempts to authenticate in an hour.
  lemma AuthenticationsPerHour(limits: Limits, start: State, calls: seq<Call>, ip: string)
    requires Timed(calls) && FreshStart(start)
    ensures KeptTo(limits.ipFailedAuthPerHour, 3_600_000_000_000, limits, start, calls, IpFailedAuth(ip))
  {
    KeyKeptTo(limits, start, calls, IpFailedAuth(ip));
  }

  // A user sends at most userMessagesPerHour messages in an hour.
  lemma MessagesPerHour(limits: Limits, start: State, calls: seq<Call>, user: string)
    requires Timed(calls) && FreshStart(start)
    ensures KeptTo(limits.userMessagesPerHour, 3_600_000_000_000, limits, start, calls, UserMessages(user))
  {
    KeyKeptTo(limits, start, calls, UserMessages(user));
  }

  // All users together send at most globalMessagesPerSecond messages in a second.
  lemma MessagesPerSecond(limits: Limits, start: State, calls: seq<Call>)
    requires Timed(calls) && FreshStart(start)
    ensures KeptTo(limits.globalMessagesPerSecond, 1_000_000_000, limits, start, calls, GlobalMessages)
  {
    KeyKeptTo(limits, start, calls, GlobalMessages);
  }
}
