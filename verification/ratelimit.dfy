// The limiter (internal/ratelimit/ratelimit.go): counters in Redis, with
// fixed-window buckets in memory for the calls that Redis fails.
module RateLimit {
  import opened Common
  import opened TtlStore

  // The key strings of the program, one constructor for each prefix.
  datatype Key =
    | IpConnections(ip: string)
    | IpFailedAuth(ip: string)
    | UserMessages(user: string)
    | UserRecipients(user: string)
    | GlobalMessages

  datatype Limits = Limits(
    userMessagesPerHour: int,
    userRecipientsPerHour: int,
    ipConnectionsPerMinute: int,
    ipFailedAuthPerHour: int,
    globalMessagesPerSecond: int,
    globalConcurrentConns: int)

  const CLEANUP_GRACE: int := 5 * MINUTE

  function Window(key: Key): (w: int)
    ensures w > 0
  {
    match key
    case IpConnections(_) => MINUTE
    case GlobalMessages => SECOND
    case _ => HOUR
  }

  function Limit(limits: Limits, key: Key): int {
    match key
    case IpConnections(_) => limits.ipConnectionsPerMinute
    case IpFailedAuth(_) => limits.ipFailedAuthPerHour
    case UserMessages(_) => limits.userMessagesPerHour
    case UserRecipients(_) => limits.userRecipientsPerHour
    case GlobalMessages => limits.globalMessagesPerSecond
  }

  datatype Bucket = Bucket(count: nat, resetTime: int)

  type Counters = Store<Key, int>
  type Buckets = map<Key, Bucket>

  // What became of the pipelined INCR and EXPIRE, and whether the client saw no error;
  // it sees none only if both were carried out.
  datatype AnyFate = Fate(incr: bool, expire: bool, ok: bool)
  type Fate = f: AnyFate | f.ok ==> f.incr && f.expire witness Fate(false, false, false)

  const DONE: Fate := Fate(true, true, true)
  const LOST: Fate := Fate(false, false, false)

  function Pipelined(redis: Counters, key: Key, amount: int, fate: Fate, now: int): Counters {
    var r := if fate.incr then IncrBy(redis, key, amount, now) else redis;
    if fate.expire then Expire(r, key, Window(key), now) else r
  }

  // The bucket a call at `now` counts in: the current one, or a new one once that has run out.
  function BucketFor(local: Buckets, key: Key, now: int): Bucket {
    if key in local && now <= local[key].resetTime then local[key] else Bucket(0, now + Window(key))
  }

  function CountedLocally(local: Buckets, key: Key, now: int): Buckets {
    var b := BucketFor(local, key, now);
    local[key := b.(count := b.count + 1)]
  }

  function Cleaned(local: Buckets, now: int): Buckets {
    map key | key in local && now <= local[key].resetTime + CLEANUP_GRACE :: local[key]
  }

  datatype State = State(redis: Counters, local: Buckets)

  // The two halves of a check are separate calls, so that the checks of other
  // connections, and the cleanup, may come between them.
  datatype Call =
    | RedisTry(key: Key, fate: Fate, now: int)
    | LocalTry(key: Key, now: int)
    | Cleanup(now: int)

  function Step(s: State, c: Call): State {
    match c
    case RedisTry(key, fate, now) => s.(redis := Pipelined(s.redis, key, 1, fate, now))
    case LocalTry(key, now) => s.(local := CountedLocally(s.local, key, now))
    case Cleanup(now) => s.(local := Cleaned(s.local, now))
  }

  // Whether the call lets its caller through.
  predicate Admits(limits: Limits, s: State, c: Call) {
    match c
    case RedisTry(key, fate, now) => fate.ok && Count(s.redis, key, now) + 1 <= Limit(limits, key)
    case LocalTry(key, now) => BucketFor(s.local, key, now).count + 1 <= Limit(limits, key)
    case Cleanup(_) => false
  }

  function After(start: State, calls: seq<Call>): State {
    if calls == [] then start else Step(After(start, calls[..|calls| - 1]), calls[|calls| - 1])
  }

  // What the program does for one check: the local half follows only a failed Redis half.
  function CheckCalls(key: Key, fate: Fate, now: int, later: int): seq<Call> {
    if fate.ok then [RedisTry(key, fate, now)] else [RedisTry(key, fate, now), LocalTry(key, later)]
  }

  lemma AfterAppend(start: State, calls: seq<Call>, c: Call)
    ensures After(start, calls + [c]) == Step(After(start, calls), c)
  {
    assert (calls + [c])[..|calls|] == calls;
  }

  // ---- What a check against `limit` in `window` comes to ----

  // The counter of `key` gained `amount`, in every case of commands carried out or lost: it goes
  // on from where it is live, starts anew where it is not, and EXPIRE gives it `window` more.
  ghost predicate CountedInRedis(window: int, key: Key, amount: int, before: Counters, after: Counters,
                                 fate: Fate, now: int)
  {
    && after.Keys <= before.Keys + {key} && before.Keys <= after.Keys
    && (forall k | k in before && k != key :: after[k] == before[k])
    && (Live(after, key, now) <==> fate.incr || Live(before, key, now))
    && (Live(after, key, now) ==>
          && after[key].value == Count(before, key, now) + (if fate.incr then amount else 0)
          && after[key].expiry == if fate.expire then Some(now + window)
                                  else if Live(before, key, now) then before[key].expiry else None)
  }

  // The bucket of `key` gained one: the one at hand, or a new one if that has run out.
  ghost predicate CountedInBucket(window: int, key: Key, before: Buckets, after: Buckets, now: int) {
    && after.Keys == before.Keys + {key}
    && (forall k | k in before && k != key :: after[k] == before[k])
    && (if key in before && now <= before[key].resetTime
        then after[key] == Bucket(before[key].count + 1, before[key].resetTime)
        else after[key] == Bucket(1, now + window))
  }

  // Redis decides if the client sees no error, and the bucket otherwise; refused callers count.
  ghost predicate CheckedAgainst(limit: int, window: int, key: Key, before: State, after: State,
                                 fate: Fate, now: int, later: int, allowed: bool)
  {
    && CountedInRedis(window, key, 1, before.redis, after.redis, fate, now)
    && (if fate.ok then
          after.local == before.local && (allowed <==> Count(before.redis, key, now) + 1 <= limit)
        else
          && CountedInBucket(window, key, before.local, after.local, later)
          && (allowed <==> after.local[key].count <= limit))
  }

  lemma PipelineMeans(redis: Counters, key: Key, amount: int, fate: Fate, now: int)
    ensures CountedInRedis(Window(key), key, amount, redis, Pipelined(redis, key, amount, fate, now), fate, now)
  {
  }

  datatype ConnectionVerdict = Accepted | GlobalLimitReached | IpLimitReached

  class Limiter {
    const limits: Limits
    var redis: Counters
    var localBuckets: Buckets
    var currentConnections: int

    constructor (limits: Limits, redis: Counters)
      ensures this.limits == limits && this.redis == redis && localBuckets == map[] && currentConnections == 0
    {
      this.limits, this.redis := limits, redis;
      localBuckets, currentConnections := map[], 0;
    }

    ghost function Now(): State
      reads this
    {
      State(redis, localBuckets)
    }

    method CheckRedisLimit(key: Key, fate: Fate, now: int) returns (allowed: bool, failed: bool)
      modifies `redis
      ensures Now() == Step(old(Now()), RedisTry(key, fate, now))
      ensures failed == !fate.ok
      ensures allowed == Admits(limits, old(Now()), RedisTry(key, fate, now))
    {
      if fate.incr {
        redis := IncrBy(redis, key, 1, now);
      }
      var count := Count(redis, key, now);
      if fate.expire {
        redis := Expire(redis, key, Window(key), now);
      }
      if !fate.ok {
        return false, true;
      }
      return count <= Limit(limits, key), false;
    }

    method CheckLocalLimit(key: Key, now: int) returns (allowed: bool)
      modifies `localBuckets
      ensures Now() == Step(old(Now()), LocalTry(key, now))
      ensures allowed == Admits(limits, old(Now()), LocalTry(key, now))
    {
      if key !in localBuckets || now > localBuckets[key].resetTime {
        localBuckets := localBuckets[key := Bucket(0, now + Window(key))];
      }
      var b := localBuckets[key];
      localBuckets := localBuckets[key := b.(count := b.count + 1)];
      return localBuckets[key].count <= Limit(limits, key);
    }

    // The part common to the four checks below.
    method CheckLimit(key: Key, fate: Fate, now: int, later: int) returns (allowed: bool)
      modifies `redis, `localBuckets
      ensures Now() == After(old(Now()), CheckCalls(key, fate, now, later))
      ensures allowed == if fate.ok then Admits(limits, old(Now()), RedisTry(key, fate, now))
                         else Admits(limits, old(Now()), LocalTry(key, later))
      ensures CheckedAgainst(Limit(limits, key), Window(key), key, old(Now()), Now(), fate, now, later, allowed)
    {
      PipelineMeans(redis, key, 1, fate, now);
      AfterAppend(Now(), [], RedisTry(key, fate, now));
      AfterAppend(Now(), [RedisTry(key, fate, now)], LocalTry(key, later));
      assert [] + [RedisTry(key, fate, now)] == [RedisTry(key, fate, now)];
      var failed;
      allowed, failed := CheckRedisLimit(key, fate, now);
      if failed {
        allowed := CheckLocalLimit(key, later);
      }
    }

    method CheckIPFailedAuth(ip: string, fate: Fate, now: int, later: int) returns (allowed: bool)
      modifies `redis, `localBuckets
      ensures CheckedAgainst(limits.ipFailedAuthPerHour, HOUR, IpFailedAuth(ip), old(Now()), Now(),
                             fate, now, later, allowed)
    {
      allowed := CheckLimit(IpFailedAuth(ip), fate, now, later);
    }

    method CheckUserMessages(user: string, fate: Fate, now: int, later: int) returns (allowed: bool)
      modifies `redis, `localBuckets
      ensures CheckedAgainst(limits.userMessagesPerHour, HOUR, UserMessages(user), old(Now()), Now(),
                             fate, now, later, allowed)
    {
      allowed := CheckLimit(UserMessages(user), fate, now, later);
    }

    method CheckGlobalMessages(fate: Fate, now: int, later: int) returns (allowed: bool)
      modifies `redis, `localBuckets
      ensures CheckedAgainst(limits.globalMessagesPerSecond, SECOND, GlobalMessages, old(Now()), Now(),
                             fate, now, later, allowed)
    {
      allowed := CheckLimit(GlobalMessages, fate, now, later);
    }

    method CheckIPConnection(ip: string, fate: Fate, now: int, later: int) returns (v: ConnectionVerdict)
      modifies `redis, `localBuckets
      ensures v == GlobalLimitReached <==> currentConnections >= limits.globalConcurrentConns
      ensures v == GlobalLimitReached ==> Now() == old(Now())
      ensures v != GlobalLimitReached ==>
                CheckedAgainst(limits.ipConnectionsPerMinute, MINUTE, IpConnections(ip), old(Now()), Now(),
                               fate, now, later, v == Accepted)
      ensures v != GlobalLimitReached ==> Now() == After(old(Now()), CheckCalls(IpConnections(ip), fate, now, later))
    {
      if currentConnections >= limits.globalConcurrentConns {
        return GlobalLimitReached;
      }
      var allowed := CheckLimit(IpConnections(ip), fate, now, later);
      if !allowed {
        return IpLimitReached;
      }
      return Accepted;
    }

    method IncrementConnection()
      modifies `currentConnections
      ensures currentConnections == old(currentConnections) + 1
    {
      currentConnections := currentConnections + 1;
    }

    method DecrementConnection()
      modifies `currentConnections
      ensures currentConnections == old(currentConnections) - 1
    {
      currentConnections := currentConnections - 1;
    }

    // `read` is false when GET fails; the count then starts from zero, so that the check
    // lets the caller through as if nothing had been sent. There is no local fallback.
    method CheckUserRecipients(user: string, count: nat, read: bool, fate: Fate, now: int, later: int)
      returns (allowed: bool)
      modifies `redis
      ensures var current := if read then Count(old(redis), UserRecipients(user), now) else 0;
              allowed == (current + count <= limits.userRecipientsPerHour)
      ensures redis == if allowed then Pipelined(old(redis), UserRecipients(user), count, fate, later) else old(redis)
      ensures allowed ==> CountedInRedis(HOUR, UserRecipients(user), count, old(redis), redis, fate, later)
    {
      PipelineMeans(redis, UserRecipients(user), count, fate, later);
      var key := UserRecipients(user);
      var current := 0;
      if read {
        current := Count(redis, key, now);
      }
      if current + count > limits.userRecipientsPerHour {
        return false;
      }
      if fate.incr {
        redis := IncrBy(redis, key, count, later);
      }
      if fate.expire {
        redis := Expire(redis, key, Window(key), later);
      }
      return true;
    }

    method CleanupLocalBuckets(now: int)
      modifies `localBuckets
      ensures Now() == Step(old(Now()), Cleanup(now))
      ensures forall key | key in localBuckets ::
                key in old(localBuckets) && localBuckets[key] == old(localBuckets)[key]
      ensures forall key | key in old(localBuckets) ::
                key in localBuckets <==> now <= old(localBuckets)[key].resetTime + 5 * MINUTE
    {
      var keys := localBuckets.Keys;
      while keys != {}
        invariant keys <= old(localBuckets).Keys
        invariant localBuckets ==
                  map key | key in old(localBuckets)
                            && (key in keys || now <= old(localBuckets)[key].resetTime + CLEANUP_GRACE)
                      :: old(localBuckets)[key]
        decreases keys
      {
        var key :| key in keys;
        if now > localBuckets[key].resetTime + CLEANUP_GRACE {
          localBuckets := localBuckets - {key};
        }
        keys := keys - {key};
      }
    }
  }
}
