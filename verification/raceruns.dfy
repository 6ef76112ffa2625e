// Runs that reach the attempt bound, for every pool size and every limit.
module RaceRuns {
  import opened Common
  import opened DeliveryQueue
  import opened Delivery
  import opened DeliveryRace
  import opened RaceBound

  const ROW := "row"

  // A temporary failure: the message is in the spool and the MX lookup fails.
  const NO_MX := Conditions(Some([]), None, None, "", MxFailed("", "", "no MX"), SmtpReply(0, "", None, false))

  // The receiving server takes the message.
  const ACCEPTED := Conditions(Some([]), None, None, "", MxFound("mx", "ip"), SmtpReply(250, "OK", None, false))

  // The table holds one row, and no worker polled in the future.
  ghost predicate Arena(s: System, attempts: nat, max: int) {
    && s.rows.Keys == {ROW} && s.halted == {}
    && s.rows[ROW].attempts == attempts && s.rows[ROW].maxAttempts == max
    && forall w | 0 <= w < |s.pollers| :: s.pollers[w].fetchedAt <= s.now
  }

  ghost predicate HoldsOnly(p: Poller, low: bool) {
    |p.batch| == 1 && p.batch[0].dlvID == ROW && IsLow(p.batch[0]) == low
  }

  ghost predicate LowBelow(s: System, k: nat) {
    k <= |s.pollers| && forall w | 0 <= w < k :: HoldsOnly(s.pollers[w], true)
  }

  ghost predicate HighFrom(s: System, k: nat) {
    forall w | k <= w < |s.pollers| :: HoldsOnly(s.pollers[w], false)
  }

  ghost predicate IdleFrom(s: System, k: nat) {
    forall w | k <= w < |s.pollers| :: s.pollers[w].batch == []
  }

  ghost predicate RowDue(s: System) {
    ROW in s.rows && Due(s.rows[ROW], Unix(s.now))
  }

  // Wait until the row is due.
  lemma WaitUntilDue(schedule: Schedule, s: System) returns (step: Step)
    requires ROW in s.rows && Pending(s.rows[ROW])
    ensures step.Tick?
    ensures var s' := Apply(schedule, s, step);
            s' == s.(now := s'.now) && s.now <= s'.now && RowDue(s')
  {
    step := Tick(Max(s.now, s.rows[ROW].nextAttempt * SECOND));
  }

  // Every worker from `k` up to `n` takes a snapshot of the one row.
  lemma {:induction false} FetchAll(schedule: Schedule, s: System, attempts: nat, max: int, k: nat, n: nat)
    returns (steps: seq<Step>)
    requires Arena(s, attempts, max) && RowDue(s) && k <= n <= |s.pollers|
    requires forall w | k <= w < n :: s.pollers[w].batch == []
    ensures Smooth(steps)
    ensures var s' := After(schedule, s, steps);
            && s' == s.(pollers := s'.pollers) && |s'.pollers| == |s.pollers|
            && Arena(s', attempts, max)
            && (forall w | 0 <= w < |s.pollers| && !(k <= w < n) :: s'.pollers[w] == s.pollers[w])
            && (forall w | k <= w < n :: HoldsOnly(s'.pollers[w], attempts + 1 < max))
    decreases n - k
  {
    if k == n {
      steps := [];
    } else {
      var items := [QueueItem(ROW, s.rows[ROW])];
      assert items[0].dlvID in Ids(items);
      var step := Fetch(k, items);
      assert IsPendingBatch(s.rows, Unix(s.now), BATCH, items);
      assert Enabled(s, step);
      var rest := FetchAll(schedule, Apply(schedule, s, step), attempts, max, k + 1, n);
      steps := [step] + rest;
      assert steps[1..] == rest;
    }
  }

  // Every worker from `k` on uses its high snapshot.
  lemma {:induction false} FireAll(schedule: Schedule, s: System, attempts: nat, max: int, k: nat)
    returns (steps: seq<Step>)
    requires Arena(s, attempts, max) && k <= |s.pollers| && HighFrom(s, k)
    ensures Smooth(steps)
    ensures var s' := After(schedule, s, steps);
            && |s'.pollers| == |s.pollers|
            && Arena(s', attempts + |s.pollers| - k, max)
            && (forall w | 0 <= w < k :: s'.pollers[w] == s.pollers[w])
            && IdleFrom(s', k)
    decreases |s.pollers| - k
  {
    if k == |s.pollers| {
      steps := [];
    } else {
      var step := Process(k, NO_MX, s.now, true);
      var rest := FireAll(schedule, Apply(schedule, s, step), attempts + 1, max, k + 1);
      steps := [step] + rest;
      assert steps[1..] == rest;
    }
  }

  // One worker fails once more, temporarily: the row gains an attempt and is due again.
  lemma FailOnce(schedule: Schedule, s: System, attempts: nat, max: int, w: nat) returns (steps: seq<Step>)
    requires Arena(s, attempts, max) && w < |s.pollers| && HoldsOnly(s.pollers[w], true)
    ensures Smooth(steps)
    ensures var s' := After(schedule, s, steps);
            && |s'.pollers| == |s.pollers|
            && Arena(s', attempts + 1, max) && RowDue(s')
            && s'.pollers[w].batch == []
            && (forall v | 0 <= v < |s.pollers| && v != w :: s'.pollers[v] == s.pollers[v])
  {
    var step := Process(w, NO_MX, s.now, true);
    var s1 := Apply(schedule, s, step);
    var wait := WaitUntilDue(schedule, s1);
    steps := [step, wait];
    assert steps[1..] == [wait] && steps[1..][1..] == [];
    assert After(schedule, s, steps) == After(schedule, s1, [wait]) == After(schedule, Apply(schedule, s1, wait), []);
  }

  // The first attempts, made by one worker alone.
  lemma {:induction false} Climb(schedule: Schedule, s: System, attempts: nat, max: int) returns (steps: seq<Step>)
    requires |s.pollers| > 0 && Arena(s, attempts, max) && RowDue(s) && IdleFrom(s, 0) && attempts + 2 <= max
    ensures Smooth(steps)
    ensures var s' := After(schedule, s, steps);
            |s'.pollers| == |s.pollers| && Arena(s', max - 2, max) && RowDue(s') && IdleFrom(s', 0)
    decreases max - attempts
  {
    if attempts + 2 == max {
      steps := [];
    } else {
      var take := FetchAll(schedule, s, attempts, max, 0, 1);
      var s1 := After(schedule, s, take);
      var fail := FailOnce(schedule, s1, attempts, max, 0);
      var s2 := After(schedule, s1, fail);
      assert IdleFrom(s2, 0);
      var rest := Climb(schedule, s2, attempts + 1, max);
      steps := take + fail + rest;
      AfterConcat(schedule, s, take, fail);
      AfterConcat(schedule, s, take + fail, rest);
    }
  }

  // One round: a low snapshot revives the row, and all workers without one attack it at once.
  lemma OneRound(schedule: Schedule, s: System, attempts: nat, max: int, low: nat) returns (steps: seq<Step>)
    requires Arena(s, attempts, max) && LowBelow(s, low) && IdleFrom(s, low) && attempts + 2 >= max && low > 0
    ensures Smooth(steps)
    ensures var s' := After(schedule, s, steps);
            && |s'.pollers| == |s.pollers|
            && Arena(s', attempts + 1 + (|s.pollers| - low + 1), max)
            && LowBelow(s', low - 1) && IdleFrom(s', low - 1)
  {
    var revive := FailOnce(schedule, s, attempts, max, low - 1);
    var s1 := After(schedule, s, revive);
    var take := FetchAll(schedule, s1, attempts + 1, max, low - 1, |s.pollers|);
    var s2 := After(schedule, s1, take);
    var fire := FireAll(schedule, s2, attempts + 1, max, low - 1);
    steps := revive + take + fire;
    AfterConcat(schedule, s, revive, take);
    AfterConcat(schedule, s, revive + take, fire);
  }

  lemma {:induction false} PlayRounds(schedule: Schedule, s: System, attempts: nat, max: int, low: nat)
    returns (steps: seq<Step>)
    requires Arena(s, attempts, max) && LowBelow(s, low) && IdleFrom(s, low) && attempts + 2 >= max
    ensures Smooth(steps)
    ensures var s' := After(schedule, s, steps);
            |s'.pollers| == |s.pollers| && Arena(s', attempts + Rounds(|s.pollers|, low), max)
    decreases low
  {
    steps := [];
    if low > 0 {
      var first := OneRound(schedule, s, attempts, max, low);
      var n := |s.pollers|;
      var rest := PlayRounds(schedule, After(schedule, s, first), attempts + 1 + (n - low + 1), max, low - 1);
      AfterConcat(schedule, s, first, rest);
      steps := first + rest;
    }
  }

  // From a new row and idle workers some interleaving reaches the bound.
  lemma AttemptBoundReachedFrom(schedule: Schedule, s: System, max: int) returns (steps: seq<Step>)
    requires |s.pollers| >= 1 && Arena(s, 0, max) && RowDue(s) && IdleFrom(s, 0)
    ensures Smooth(steps)
    ensures Arena(After(schedule, s, steps), AttemptBound(|s.pollers|, max), max)
  {
    var workers := |s.pollers|;
    if max <= 1 {
      var take := FetchAll(schedule, s, 0, max, 0, workers);
      var fire := FireAll(schedule, After(schedule, s, take), 0, max, 0);
      steps := take + fire;
      AfterConcat(schedule, s, take, fire);
    } else {
      var climb := Climb(schedule, s, 0, max);
      var s2 := After(schedule, s, climb);
      var take := FetchAll(schedule, s2, max - 2, max, 0, workers);
      var s3 := After(schedule, s2, take);
      var rounds := PlayRounds(schedule, s3, max - 2, max, workers);
      steps := climb + take + rounds;
      AfterConcat(schedule, s, climb, take);
      AfterConcat(schedule, s, climb + take, rounds);
    }
  }

  function EnqueueRow(max: int): Step {
    Enqueue(ROW, "msg", "rcpt", max)
  }

  lemma RowEnqueued(schedule: Schedule, workers: nat, max: int, start: int)
    ensures var s := After(schedule, Init(workers, start), [EnqueueRow(max)]);
            && |s.pollers| == workers && Arena(s, 0, max) && RowDue(s) && IdleFrom(s, 0)
            && s.now == start && s.enqueuedAt == map[ROW := start]
            && (forall w | 0 <= w < workers :: s.pollers[w] == Poller(start, []))
  {
    var s := Apply(schedule, Init(workers, start), EnqueueRow(max));
    assert After(schedule, Init(workers, start), [EnqueueRow(max)]) == After(schedule, s, []) == s;
  }

  // For every pool size and every limit some interleaving reaches the bound.
  lemma AttemptBoundReached(schedule: Schedule, workers: nat, max: int, start: int) returns (steps: seq<Step>)
    requires workers >= 1
    ensures Smooth(steps)
    ensures var s := After(schedule, Init(workers, start), steps);
            && ROW in s.rows && s.rows[ROW].maxAttempts == max
            && s.rows[ROW].attempts == AttemptBound(workers, max)
  {
    RowEnqueued(schedule, workers, max, start);
    var s := After(schedule, Init(workers, start), [EnqueueRow(max)]);
    var rest := AttemptBoundReachedFrom(schedule, s, max);
    steps := [EnqueueRow(max)] + rest;
    AfterConcat(schedule, Init(workers, start), [EnqueueRow(max)], rest);
  }
}
