// Check-then-act counters under concurrency: the recipient quota, read by GET
// and written by INCRBY in two steps, and the global connection counter.
module Quota {
  import opened Common
  import opened TtlStore
  import opened RateLimit
  import opened LimiterBounds

  // One user's quota, and the number of recipients one message may have.
  datatype Policy = Policy(user: string, limit: int, maxRecipients: nat)

  function QuotaKey(p: Policy): Key {
    UserRecipients(p.user)
  }

  // No check admits more recipients than this.
  function MostAtOnce(p: Policy): nat {
    Max(Min(p.limit, p.maxRecipients), 0)
  }

  // The most that `n` callers can have counted if each checks before it adds.
  function Cap(limit: int, n: nat, most: nat): nat {
    if limit <= 0 then 0 else limit + Max(n - 1, 0) * most
  }

  // ---- Recipients of one user ----

  // The recipients session i has had accepted and not yet added: `pledged[i]` if GET answered,
  // `blind[i]` if it failed and the count was taken as zero.
  datatype System = System(now: int, redis: Counters, pledged: seq<nat>, blind: seq<nat>)

  datatype Step =
    | Tick(to: int)
    | Read(i: nat, count: nat, answered: bool)
    | Commit(i: nat, fate: Fate)

  predicate Enabled(p: Policy, s: System, step: Step) {
    match step
    case Tick(to) => s.now <= to
    case Read(i, count, answered) =>
      && i < |s.pledged| && i < |s.blind| && s.pledged[i] + s.blind[i] == 0 && 1 <= count <= p.maxRecipients
      && (if answered then Count(s.redis, QuotaKey(p), s.now) else 0) + count <= p.limit
    case Commit(i, _) => i < |s.pledged| && i < |s.blind| && s.pledged[i] + s.blind[i] > 0
  }

  function Apply(p: Policy, s: System, step: Step): System {
    if !Enabled(p, s, step) then s
    else match step
      case Tick(to) => s.(now := to)
      case Read(i, count, answered) =>
        if answered then s.(pledged := s.pledged[i := count]) else s.(blind := s.blind[i := count])
      case Commit(i, fate) =>
        s.(redis := Pipelined(s.redis, QuotaKey(p), s.pledged[i] + s.blind[i], fate, s.now),
           pledged := s.pledged[i := 0], blind := s.blind[i := 0])
  }

  function Run(p: Policy, start: System, steps: seq<Step>): System {
    if steps == [] then start else Apply(p, Run(p, start, steps[..|steps| - 1]), steps[|steps| - 1])
  }

  // Recipients added within one window from `from`, and those among them whose GET, INCRBY or
  // EXPIRE Redis failed to carry out.
  datatype Added = Added(all: nat, failed: nat)

  function Adds(p: Policy, s: System, step: Step, from: int): Added {
    if !step.Commit? || !Enabled(p, s, step) || s.now < from || from + HOUR < s.now then Added(0, 0)
    else
      var all := s.pledged[step.i] + s.blind[step.i];
      Added(all, if step.fate.incr && step.fate.expire then s.blind[step.i] else all)
  }

  function Committed(p: Policy, start: System, steps: seq<Step>, from: int): Added {
    if steps == [] then Added(0, 0)
    else
      var prefix := steps[..|steps| - 1];
      var before, last := Committed(p, start, prefix, from), Adds(p, Run(p, start, prefix), steps[|steps| - 1], from);
      Added(before.all + last.all, before.failed + last.failed)
  }

  lemma RunAppend(p: Policy, start: System, steps: seq<Step>, step: Step, from: int)
    ensures Run(p, start, steps + [step]) == Apply(p, Run(p, start, steps), step)
    ensures var before, last := Committed(p, start, steps, from), Adds(p, Run(p, start, steps), step, from);
            Committed(p, start, steps + [step], from) == Added(before.all + last.all, before.failed + last.failed)
  {
    assert (steps + [step])[..|steps|] == steps;
  }

  // No session is between its two steps. Redis may hold counters of an earlier run of the daemon.
  ghost predicate Idle(p: Policy, s: System) {
    AtMost(s.pledged, 0) && AtMost(s.blind, 0) && |s.blind| == |s.pledged| && CounterSound(p, s)
  }

  ghost predicate CounterSound(p: Policy, s: System) {
    QuotaKey(p) in s.redis ==> s.redis[QuotaKey(p)].value >= 0
  }

  // Of the recipients added since `from`, the `n` that Redis did not fail and those still pledged
  // stay within the cap, and the former are on the counter until the interval is over.
  ghost predicate Capped(p: Policy, s: System, n: int, from: int) {
    var until := from + HOUR;
    && AtMost(s.pledged, MostAtOnce(p)) && |s.blind| == |s.pledged| && CounterSound(p, s)
    && 0 <= n && n + Sum(s.pledged) <= Cap(p.limit, |s.pledged|, MostAtOnce(p))
    && (n > 0 && s.now <= until ==> from <= s.now && Remembers(s.redis, QuotaKey(p), n, until))
  }

  lemma CappedRead(p: Policy, s: System, step: Step, n: int, from: int)
    requires Capped(p, s, n, from) && step.Read? && step.answered && Enabled(p, s, step)
    requires s.now <= from + HOUR
    ensures Capped(p, Apply(p, s, step), n, from)
  {
    SumUpdate(s.pledged, step.i, step.count);
    SumOfOthers(s.pledged, step.i, MostAtOnce(p));
  }

  lemma CappedCommit(p: Policy, s: System, step: Step, n: int, from: int)
    requires Capped(p, s, n, from) && step.Commit? && Enabled(p, s, step)
    ensures var last := Adds(p, s, step, from);
            Capped(p, Apply(p, s, step), n + last.all - last.failed, from)
  {
    SumUpdate(s.pledged, step.i, 0);
  }

  // Once the interval is over nothing more is added in it.
  lemma NothingAddedLater(p: Policy, s: System, step: Step, from: int)
    requires s.now > from + HOUR
    ensures Adds(p, s, step, from) == Added(0, 0) && Apply(p, s, step).now >= s.now
    ensures |Apply(p, s, step).pledged| == |s.pledged|
  {
  }

  lemma CappedStep(p: Policy, s: System, step: Step, n: int, from: int)
    requires Capped(p, s, n, from) && s.now <= from + HOUR
    ensures var last := Adds(p, s, step, from);
            && |Apply(p, s, step).pledged| == |s.pledged|
            && Capped(p, Apply(p, s, step), n + last.all - last.failed, from)
  {
    if Enabled(p, s, step) {
      match step {
        case Tick(_) =>
        case Read(_, _, answered) =>
          if answered {
            CappedRead(p, s, step, n, from);
          }
        case Commit(_, _) => CappedCommit(p, s, step, n, from);
      }
    }
  }

  lemma {:induction false} CappedRun(p: Policy, start: System, steps: seq<Step>, from: int)
    requires Idle(p, start)
    ensures var s, n := Run(p, start, steps), Committed(p, start, steps, from);
            && |s.pledged| == |start.pledged|
            && n.all - n.failed <= Cap(p.limit, |s.pledged|, MostAtOnce(p))
            && (s.now <= from + HOUR ==> Capped(p, s, n.all - n.failed, from))
  {
    if steps == [] {
      SumAtMost(start.pledged, 0);
    } else {
      var prefix, step := steps[..|steps| - 1], steps[|steps| - 1];
      CappedRun(p, start, prefix, from);
      var s, n := Run(p, start, prefix), Committed(p, start, prefix, from);
      if s.now <= from + HOUR {
        CappedStep(p, s, step, n.all - n.failed, from);
      } else {
        NothingAddedLater(p, s, step, from);
      }
    }
  }

  // With N sessions of one user racing, from any counters left in Redis, at most
  // limit + (N - 1) * min(limit, maxRecipients) recipients are added in any interval of one
  // window, and besides them those of the calls that Redis failed.
  lemma RecipientQuota(p: Policy, start: System, steps: seq<Step>, from: int)
    requires Idle(p, start)
    ensures var n, sessions := Committed(p, start, steps, from), |start.pledged|;
            && (p.limit <= 0 ==> n.all <= n.failed)
            && (p.limit > 0 && sessions >= 1 ==>
                  n.all <= p.limit + (sessions - 1) * Min(p.limit, p.maxRecipients) + n.failed)
            && (sessions <= 1 ==> n.all <= Max(p.limit, 0) + n.failed)
  {
    CappedRun(p, start, steps, from);
  }

  // A check that no other session interrupts does what CheckUserRecipients does as one call.
  lemma UninterruptedCheck(p: Policy, s: System, i: nat, count: nat, answered: bool, fate: Fate)
    requires i < |s.pledged| && i < |s.blind| && s.pledged[i] + s.blind[i] == 0 && 1 <= count <= p.maxRecipients
    ensures var current := if answered then Count(s.redis, QuotaKey(p), s.now) else 0;
            Apply(p, Apply(p, s, Read(i, count, answered)), Commit(i, fate))
            == if current + count <= p.limit
               then s.(redis := Pipelined(s.redis, QuotaKey(p), count, fate, s.now)) else s
  {
    assert s.pledged[i := 0] == s.pledged && s.blind[i := 0] == s.blind;
    assert s.pledged[i := count][i := 0] == s.pledged && s.blind[i := count][i := 0] == s.blind;
  }

  // ---- The cap is reached ----

  function Fresh(sessions: nat): System {
    System(0, map[], seq(sessions, _ => 0), seq(sessions, _ => 0))
  }

  ghost predicate Reaches(p: Policy, sessions: nat, steps: seq<Step>, s: System, n: Added) {
    && RedisUp(steps) && Run(p, Fresh(sessions), steps) == s && Committed(p, Fresh(sessions), steps, 0) == n
    && s.now == 0 && |s.pledged| == sessions && s.blind == Fresh(sessions).blind
    && Count(s.redis, QuotaKey(p), 0) == n.all - n.failed
  }

  lemma TakeStep(p: Policy, sessions: nat, steps: seq<Step>, s: System, n: Added, step: Step)
    returns (more: seq<Step>, t: System, m: Added)
    requires Reaches(p, sessions, steps, s, n) && Enabled(p, s, step)
    requires (step.Read? && step.answered) || (step.Commit? && step.fate == DONE)
    ensures Reaches(p, sessions, more, t, m)
    ensures step.Read? ==> m == n && t.pledged == s.pledged[step.i := step.count]
    ensures step.Commit? ==> m == n.(all := n.all + s.pledged[step.i]) && t.pledged == s.pledged[step.i := 0]
  {
    RunAppend(p, Fresh(sessions), steps, step, 0);
    more, t := steps + [step], Apply(p, s, step);
    var last := Adds(p, s, step, 0);
    m := Added(n.all + last.all, n.failed + last.failed);
    if step.Commit? {
      assert s.blind[step.i := 0] == s.blind;
    }
  }

  // One session sends until the counter stands at `target`.
  lemma {:induction false} SendUpTo(p: Policy, sessions: nat, steps: seq<Step>, s: System, n: nat, target: nat)
    returns (more: seq<Step>, t: System)
    requires Reaches(p, sessions, steps, s, Added(n, 0)) && sessions >= 1 && p.maxRecipients >= 1
    requires n <= target <= p.limit && s.pledged == FirstOnes(sessions, 0, 0, 0)
    ensures Reaches(p, sessions, more, t, Added(target, 0)) && t.pledged == s.pledged
    decreases target - n
  {
    more, t := steps, s;
    if n < target {
      var count := Min(target - n, p.maxRecipients);
      var m;
      more, t, m := TakeStep(p, sessions, steps, s, Added(n, 0), Read(0, count, true));
      more, t, m := TakeStep(p, sessions, more, t, m, Commit(0, DONE));
      assert t.pledged == s.pledged;
      more, t := SendUpTo(p, sessions, more, t, m.all, target);
    }
  }

  // Sessions `k` and later have their GET answered before any of them writes.
  lemma {:induction false} ReadAll(p: Policy, sessions: nat, count: nat, steps: seq<Step>, s: System, n: nat, k: nat)
    returns (more: seq<Step>, t: System)
    requires Reaches(p, sessions, steps, s, Added(n, 0)) && 1 <= count <= p.maxRecipients && n + count <= p.limit
    requires k <= sessions && s.pledged == FirstOnes(sessions, k, count, 0)
    ensures Reaches(p, sessions, more, t, Added(n, 0)) && t.pledged == FirstOnes(sessions, 0, 0, count)
    decreases sessions - k
  {
    more, t := steps, s;
    if k == sessions {
      FirstOnesEnds(sessions, count, 0);
    } else {
      var steps', s', _ := TakeStep(p, sessions, steps, s, Added(n, 0), Read(k, count, true));
      FirstOnesNext(sessions, k, count, 0);
      more, t := ReadAll(p, sessions, count, steps', s', n, k + 1);
    }
  }

  // Sessions below `k` write.
  lemma {:induction false} CommitAll(p: Policy, sessions: nat, count: nat, steps: seq<Step>, s: System, n: nat, k: nat)
    returns (more: seq<Step>, t: System)
    requires Reaches(p, sessions, steps, s, Added(n, 0)) && count >= 1 && k <= sessions
    requires s.pledged == FirstOnes(sessions, 0, 0, count)
    ensures Reaches(p, sessions, more, t, Added(n + Product(k, count), 0))
    ensures t.pledged == FirstOnes(sessions, k, 0, count)
  {
    more, t := steps, s;
    if k > 0 {
      var before, u := CommitAll(p, sessions, count, steps, s, n, k - 1);
      var sum := n + Product(k - 1, count);
      assert u.pledged[k - 1] == count && sum + count == n + Product(k, count);
      FirstOnesNext(sessions, k - 1, 0, count);
      var m;
      more, t, m := TakeStep(p, sessions, before, u, Added(sum, 0), Commit(k - 1, DONE));
    }
  }

  // One session sends all that leaves room for `count` more, and then all send at once.
  lemma SendAtOnce(p: Policy, sessions: nat, count: nat) returns (steps: seq<Step>, t: System)
    requires sessions >= 1 && 1 <= count <= p.maxRecipients && count <= p.limit
    ensures Reaches(p, sessions, steps, t, Added(p.limit - count + Product(sessions, count), 0))
  {
    ReachesNothing(p, sessions);
    steps, t := SendUpTo(p, sessions, [], Fresh(sessions), 0, p.limit - count);
    steps, t := ReadAll(p, sessions, count, steps, t, p.limit - count, 0);
    steps, t := CommitAll(p, sessions, count, steps, t, p.limit - count, sessions);
  }

  // For every number of sessions and every positive limit and size of messages some
  // interleaving adds that many within one window, with Redis up all the time.
  lemma RecipientQuotaReached(p: Policy, sessions: nat) returns (steps: seq<Step>)
    requires sessions >= 1 && p.maxRecipients >= 1 && p.limit >= 1
    ensures RedisUp(steps)
    ensures Committed(p, Fresh(sessions), steps, 0)
         == Added(p.limit + (sessions - 1) * Min(p.limit, p.maxRecipients), 0)
  {
    var count, t: System := Min(p.limit, p.maxRecipients), Fresh(sessions);
    ProductIsTimes(sessions, count);
    assert sessions * count == count + (sessions - 1) * count;
    steps, t := SendAtOnce(p, sessions, count);
  }

  lemma ReachesNothing(p: Policy, sessions: nat)
    ensures Reaches(p, sessions, [], Fresh(sessions), Added(0, 0))
    ensures forall count: nat :: Fresh(sessions).pledged == FirstOnes(sessions, 0, count, 0)
  {
  }

  // A call of the first session for one recipient, with GET failed and the pipeline lost.
  lemma FailOnce(p: Policy, s: System)
    requires s == Fresh(|s.pledged|) && s.pledged != [] && p.maxRecipients >= 1 && p.limit >= 1
    ensures var s1 := Apply(p, s, Read(0, 1, false));
            && Adds(p, s, Read(0, 1, false), 0) == Added(0, 0) && Adds(p, s1, Commit(0, LOST), 0) == Added(1, 1)
            && Apply(p, s1, Commit(0, LOST)) == s
  {
    UninterruptedCheck(p, s, 0, 1, false, LOST);
    assert Apply(p, s, Read(0, 1, false)) == s.(blind := s.blind[0 := 1]);
  }

  // `n` calls in a row that Redis fails altogether.
  lemma {:induction false} FailInARow(p: Policy, sessions: nat, n: nat) returns (steps: seq<Step>)
    requires sessions >= 1 && p.maxRecipients >= 1 && p.limit >= 1
    ensures Run(p, Fresh(sessions), steps) == Fresh(sessions)
    ensures Committed(p, Fresh(sessions), steps, 0) == Added(n, n)
  {
    steps := [];
    if n > 0 {
      var prefix := FailInARow(p, sessions, n - 1);
      var s, read, commit := Fresh(sessions), Read(0, 1, false), Commit(0, LOST);
      FailOnce(p, s);
      RunAppend(p, s, prefix, read, 0);
      RunAppend(p, s, prefix + [read], commit, 0);
      steps := prefix + [read] + [commit];
    }
  }

  // Redis carries out every command of the run.
  ghost predicate RedisUp(steps: seq<Step>) {
    forall i | 0 <= i < |steps| ::
      && (steps[i].Read? ==> steps[i].answered)
      && (steps[i].Commit? ==> steps[i].fate.incr && steps[i].fate.expire)
  }

  lemma {:induction false} NothingFailed(p: Policy, start: System, steps: seq<Step>, from: int)
    requires RedisUp(steps) && Idle(p, start)
    ensures Committed(p, start, steps, from).failed == 0
    ensures AtMost(Run(p, start, steps).blind, 0)
  {
    if steps != [] {
      var prefix := steps[..|steps| - 1];
      assert forall i | 0 <= i < |prefix| :: prefix[i] == steps[i];
      NothingFailed(p, start, prefix, from);
    }
  }

  ghost predicate Within(p: Policy, sessions: nat, mayFail: bool, bound: int) {
    forall start, steps, from | Idle(p, start) && |start.pledged| == sessions && (mayFail || RedisUp(steps)) ::
      Committed(p, start, steps, from).all <= bound
  }

  ghost predicate LetsNobodyIn(p: Policy, sessions: nat) {
    sessions == 0 || p.limit <= 0 || p.maxRecipients == 0
  }

  lemma {:induction false} NobodyAdds(p: Policy, start: System, steps: seq<Step>, from: int)
    requires Idle(p, start) && LetsNobodyIn(p, |start.pledged|)
    ensures Committed(p, start, steps, from).all == 0
    ensures var s := Run(p, start, steps);
            |s.pledged| == |start.pledged| && AtMost(s.pledged, 0) && AtMost(s.blind, 0) && CounterSound(p, s)
  {
    if steps != [] {
      NobodyAdds(p, start, steps[..|steps| - 1], from);
    }
  }

  // More than the limit at once, by failures or by sessions that overlap.
  lemma QuotaExceeded(p: Policy, sessions: nat, mayFail: bool) returns (steps: seq<Step>)
    requires !LetsNobodyIn(p, sessions) && (mayFail || sessions > 1)
    ensures Idle(p, Fresh(sessions)) && |Fresh(sessions).pledged| == sessions && (mayFail || RedisUp(steps))
    ensures Committed(p, Fresh(sessions), steps, 0).all > Max(p.limit, 0)
  {
    if mayFail {
      steps := FailInARow(p, sessions, p.limit + 1);
    } else {
      var most := Min(p.limit, p.maxRecipients);
      assert (sessions - 1) * most == most + (sessions - 2) * most;
      steps := RecipientQuotaReached(p, sessions);
    }
  }

  // "No more recipients than the limit in any window" holds of every run of N sessions exactly
  // when there is one and Redis is up, or when the limits let nothing through at all.
  lemma QuotaKeptIff(p: Policy, sessions: nat, mayFail: bool)
    ensures Within(p, sessions, mayFail, Max(p.limit, 0)) <==> LetsNobodyIn(p, sessions) || (sessions == 1 && !mayFail)
  {
    if LetsNobodyIn(p, sessions) || (sessions == 1 && !mayFail) {
      forall start, steps, from | Idle(p, start) && |start.pledged| == sessions && (mayFail || RedisUp(steps))
        ensures Committed(p, start, steps, from).all <= Max(p.limit, 0)
      {
        if LetsNobodyIn(p, sessions) {
          NobodyAdds(p, start, steps, from);
        } else {
          NothingFailed(p, start, steps, from);
          RecipientQuota(p, start, steps, from);
        }
      }
    } else {
      var steps := QuotaExceeded(p, sessions, mayFail);
    }
  }

  // There is any bound on the recipients of a window exactly when Redis is up, or when the
  // limits let nothing through at all: a check that Redis fails admits, and is forgotten.
  lemma QuotaBoundedIff(p: Policy, sessions: nat, mayFail: bool)
    ensures (exists bound :: Within(p, sessions, mayFail, bound)) <==> LetsNobodyIn(p, sessions) || !mayFail
  {
    if LetsNobodyIn(p, sessions) {
      QuotaKeptIff(p, sessions, mayFail);
    } else if !mayFail {
      var bound := p.limit + (sessions - 1) * Min(p.limit, p.maxRecipients);
      forall start, steps, from | Idle(p, start) && |start.pledged| == sessions && RedisUp(steps)
        ensures Committed(p, start, steps, from).all <= bound
      {
        NothingFailed(p, start, steps, from);
        RecipientQuota(p, start, steps, from);
      }
      assert Within(p, sessions, mayFail, bound);
    } else {
      forall bound ensures !Within(p, sessions, mayFail, bound) {
        var steps := FailInARow(p, sessions, Max(bound + 1, 0));
        assert Idle(p, Fresh(sessions)) && Committed(p, Fresh(sessions), steps, 0).all > bound;
      }
    }
  }

  // ---- Connections ----

  // `checking[i]` is 1 while the i-th concurrent NewSession call is between the check of the
  // global counter and the increment; `open` counts the sessions not yet logged out.
  datatype Connections = Connections(current: int, checking: seq<nat>, open: nat)

  datatype Move =
    | Check(i: nat)
    | Refuse(i: nat)
    | Enter(i: nat)
    | Logout

  function Moved(limit: int, c: Connections, m: Move): Connections {
    match m
    case Check(i) =>
      if i < |c.checking| && c.checking[i] == 0 && c.current < limit then c.(checking := c.checking[i := 1]) else c
    case Refuse(i) =>
      if i < |c.checking| && c.checking[i] == 1 then c.(checking := c.checking[i := 0]) else c
    case Enter(i) =>
      if i < |c.checking| && c.checking[i] == 1
      then Connections(c.current + 1, c.checking[i := 0], c.open + 1) else c
    case Logout =>
      if c.open > 0 then c.(current := c.current - 1, open := c.open - 1) else c
  }

  function AfterMoves(limit: int, start: Connections, moves: seq<Move>): Connections {
    if moves == [] then start
    else Moved(limit, AfterMoves(limit, start, moves[..|moves| - 1]), moves[|moves| - 1])
  }

  // What the counter stands at, with these callers outside the check and these sessions open.
  function Outside(callers: nat, current: int, open: nat): Connections {
    Connections(current, seq(callers, _ => 0), open)
  }

  function Started(callers: nat): Connections {
    Outside(callers, 0, 0)
  }

  ghost predicate WithinLimit(limit: int, c: Connections) {
    AtMost(c.checking, 1) && c.current == c.open && c.current + Sum(c.checking) <= Cap(limit, |c.checking|, 1)
  }

  lemma MovedKeeps(limit: int, c: Connections, m: Move)
    requires WithinLimit(limit, c)
    ensures |Moved(limit, c, m).checking| == |c.checking| && WithinLimit(limit, Moved(limit, c, m))
  {
    if !m.Logout? && m.i < |c.checking| {
      SumUpdate(c.checking, m.i, 1);
      SumUpdate(c.checking, m.i, 0);
      if c.checking[m.i] == 0 {
        SumOfOthers(c.checking, m.i, 1);
      }
    }
  }

  lemma {:induction false} WithinLimitAfter(limit: int, callers: nat, moves: seq<Move>)
    ensures var c := AfterMoves(limit, Started(callers), moves);
            |c.checking| == callers && WithinLimit(limit, c)
  {
    if moves == [] {
      AllZero(callers);
    } else {
      var prefix := moves[..|moves| - 1];
      WithinLimitAfter(limit, callers, prefix);
      MovedKeeps(limit, AfterMoves(limit, Started(callers), prefix), moves[|moves| - 1]);
    }
  }

  // The counter is the number of open sessions, never negative, and with N overlapping
  // NewSession calls exceeds a positive limit by at most N - 1.
  lemma ConnectionLimit(limit: int, callers: nat, moves: seq<Move>)
    ensures var c := AfterMoves(limit, Started(callers), moves);
            && c.current == c.open >= 0
            && (limit <= 0 ==> c.current == 0)
            && (limit > 0 && callers >= 1 ==> c.current <= limit + callers - 1)
            && (callers <= 1 ==> c.current <= Max(limit, 0))
  {
    WithinLimitAfter(limit, callers, moves);
  }

  lemma MovesAppend(limit: int, start: Connections, moves: seq<Move>, m: Move)
    ensures AfterMoves(limit, start, moves + [m]) == Moved(limit, AfterMoves(limit, start, moves), m)
  {
    assert (moves + [m])[..|moves|] == moves;
  }

  // Connections come one at a time until `target` are open.
  lemma {:induction false} OpenOneByOne(limit: int, callers: nat, target: nat) returns (moves: seq<Move>)
    requires callers >= 1 && target <= limit
    ensures AfterMoves(limit, Started(callers), moves) == Outside(callers, target, target)
  {
    moves := [];
    if target > 0 {
      moves := OpenOneByOne(limit, callers, target - 1);
      var c := Outside(callers, target - 1, target - 1);
      MovesAppend(limit, Started(callers), moves, Check(0));
      MovesAppend(limit, Started(callers), moves + [Check(0)], Enter(0));
      assert c.checking[0 := 1][0 := 0] == c.checking;
      moves := moves + [Check(0)] + [Enter(0)];
    }
  }

  // Callers below `k` pass the check while nobody counts.
  lemma {:induction false} CheckAll(limit: int, callers: nat, moves: seq<Move>, n: nat, k: nat)
    returns (more: seq<Move>)
    requires n < limit && k <= callers
    requires AfterMoves(limit, Started(callers), moves) == Outside(callers, n, n)
    ensures AfterMoves(limit, Started(callers), more) == Connections(n, FirstOnes(callers, k, 1, 0), n)
  {
    more := moves;
    if k == 0 {
      FirstOnesEnds(callers, 0, 1);
    } else {
      more := CheckAll(limit, callers, moves, n, k - 1);
      MovesAppend(limit, Started(callers), more, Check(k - 1));
      FirstOnesNext(callers, k - 1, 1, 0);
      more := more + [Check(k - 1)];
    }
  }

  lemma {:induction false} EnterAll(limit: int, callers: nat, moves: seq<Move>, n: nat, k: nat)
    returns (more: seq<Move>)
    requires k <= callers
    requires AfterMoves(limit, Started(callers), moves) == Connections(n, FirstOnes(callers, callers, 1, 0), n)
    ensures AfterMoves(limit, Started(callers), more) == Connections(n + k, FirstOnes(callers, k, 0, 1), n + k)
  {
    more := moves;
    if k == 0 {
      FirstOnesEnds(callers, 1, 0);
    } else {
      more := EnterAll(limit, callers, moves, n, k - 1);
      MovesAppend(limit, Started(callers), more, Enter(k - 1));
      FirstOnesNext(callers, k - 1, 0, 1);
      more := more + [Enter(k - 1)];
    }
  }

  // For every positive limit and every number of callers some interleaving goes that far.
  lemma ConnectionLimitReached(limit: int, callers: nat) returns (moves: seq<Move>)
    requires limit >= 1 && callers >= 1
    ensures AfterMoves(limit, Started(callers), moves).current == limit + callers - 1
  {
    moves := OpenOneByOne(limit, callers, limit - 1);
    moves := CheckAll(limit, callers, moves, limit - 1, callers);
    moves := EnterAll(limit, callers, moves, limit - 1, callers);
  }

  // "The connections stay within the limit" holds of every run exactly when NewSession calls
  // do not overlap, or nobody is let in.
  lemma ConnectionsKeptIff(limit: int, callers: nat)
    ensures (forall moves :: AfterMoves(limit, Started(callers), moves).current <= Max(limit, 0))
       <==> callers <= 1 || limit <= 0
  {
    if callers <= 1 || limit <= 0 {
      forall moves ensures AfterMoves(limit, Started(callers), moves).current <= Max(limit, 0) {
        ConnectionLimit(limit, callers, moves);
      }
    } else {
      var moves := ConnectionLimitReached(limit, callers);
      assert AfterMoves(limit, Started(callers), moves).current > Max(limit, 0);
    }
  }

  // ---- The server's calls ----

  // What one NewSession call does to the counter, by its outcome.
  function SessionMoves(v: ConnectionVerdict): seq<Move> {
    match v
    case GlobalLimitReached => [Check(0)]
    case IpLimitReached => [Check(0), Refuse(0)]
    case Accepted => [Check(0), Enter(0)]
  }

  lemma UninterruptedSession(limit: int, current: int, open: nat, v: ConnectionVerdict)
    requires v == GlobalLimitReached <==> current >= limit
    ensures AfterMoves(limit, Outside(1, current, open), SessionMoves(v))
         == if v.Accepted? then Outside(1, current + 1, open + 1) else Outside(1, current, open)
  {
    var c := Outside(1, current, open);
    MovesAppend(limit, c, [], Check(0));
    assert [] + [Check(0)] == [Check(0)];
    if v != GlobalLimitReached {
      var last := if v.Accepted? then Enter(0) else Refuse(0);
      MovesAppend(limit, c, [Check(0)], last);
      assert [Check(0)] + [last] == SessionMoves(v);
      assert c.checking[0 := 1][0 := 0] == c.checking;
    }
  }

  class Backend {
    const rateLimiter: Limiter
    ghost var open: nat

    constructor (rateLimiter: Limiter)
      requires rateLimiter.currentConnections == 0
      ensures this.rateLimiter == rateLimiter && Now() == Started(1)
    {
      this.rateLimiter, open := rateLimiter, 0;
    }

    ghost function Now(): Connections
      reads this, rateLimiter
    {
      Outside(1, rateLimiter.currentConnections, open)
    }

    // One call that no other overlaps.
    method NewSession(ip: string, fate: Fate, now: int, later: int) returns (v: ConnectionVerdict)
      modifies this, rateLimiter
      ensures v == GlobalLimitReached
         <==> old(rateLimiter.currentConnections) >= rateLimiter.limits.globalConcurrentConns
      ensures Now() == AfterMoves(rateLimiter.limits.globalConcurrentConns, old(Now()), SessionMoves(v))
    {
      v := rateLimiter.CheckIPConnection(ip, fate, now, later);
      UninterruptedSession(rateLimiter.limits.globalConcurrentConns, rateLimiter.currentConnections, open, v);
      if v == Accepted {
        rateLimiter.IncrementConnection();
        open := open + 1;
      }
    }

    // The server ends each session once.
    method EndSession()
      requires open > 0
      modifies this, rateLimiter
      ensures Now() == AfterMoves(rateLimiter.limits.globalConcurrentConns, old(Now()), [Logout])
    {
      MovesAppend(rateLimiter.limits.globalConcurrentConns, Now(), [], Logout);
      assert [] + [Logout] == [Logout];
      rateLimiter.DecrementConnection();
      open := open - 1;
    }
  }
}
