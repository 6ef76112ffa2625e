// A pool of one worker, from one start of the daemon to the next: the snapshots it holds are
// the rows themselves, which gives the life cycle of a row and its retry spacing.
module SingleWorker {
  import opened Common
  import opened DeliveryQueue
  import opened Delivery
  import opened DeliveryRace

  ghost predicate Fresh(s: System) {
    && Inv(s) && |s.pollers| <= 1
    && forall w, i | 0 <= w < |s.pollers| && 0 <= i < |s.pollers[w].batch| ::
         var item := s.pollers[w].batch[i];
         item.dlvID in s.rows && s.rows[item.dlvID] == item.row && Pending(item.row)
  }

  lemma FreshProcess(schedule: Schedule, s: System, step: Step)
    requires Fresh(s) && step.Process? && Enabled(s, step)
    ensures var s' := Apply(schedule, s, step);
            forall w, i | 0 <= w < |s'.pollers| && 0 <= i < |s'.pollers[w].batch| ::
              var item := s'.pollers[w].batch[i];
              item.dlvID in s'.rows && s'.rows[item.dlvID] == item.row && Pending(item.row)
    ensures forall id | id in s.rows && !Pending(s.rows[id]) :: Apply(schedule, s, step).rows[id] == s.rows[id]
  {
    assert SoundBatch(s.rows, s.pollers[step.w]);
  }

  lemma FreshStep(schedule: Schedule, s: System, step: Step)
    requires Fresh(s) && (step.Restart? ==> step.workers <= 1)
    ensures Fresh(Apply(schedule, s, step))
    ensures forall id | id in s.rows && !Pending(s.rows[id]) :: Apply(schedule, s, step).rows[id] == s.rows[id]
  {
    InvStep(schedule, s, step);
    if step.Process? && Enabled(s, step) {
      FreshProcess(schedule, s, step);
    }
  }

  // Delivered and permanently failed rows are never written again.
  lemma {:induction false} FinalRowsUntouched(schedule: Schedule, s: System, steps: seq<Step>)
    requires Fresh(s) && PoolsWithin(steps, 1)
    ensures Fresh(After(schedule, s, steps))
    ensures forall id | id in s.rows && !Pending(s.rows[id]) ::
              id in After(schedule, s, steps).rows && After(schedule, s, steps).rows[id] == s.rows[id]
    decreases |steps|
  {
    if steps != [] {
      RestOfRun(steps, 1);
      FreshStep(schedule, s, steps[0]);
      InvStep(schedule, s, steps[0]);
      FinalRowsUntouched(schedule, Apply(schedule, s, steps[0]), steps[1..]);
    }
  }

  // ---- Life cycle ----

  ghost predicate InLifeCycle(r: Row) {
    && (r.state == Queued <==> r.attempts == 0)
    && (r.state == TempFail ==> r.attempts < r.maxAttempts)
    && (r.maxAttempts >= 1 ==> r.attempts <= r.maxAttempts)
    && r.state != Delivering
    && (r.deliveredAt.Some? <==> r.state == Delivered)
  }

  ghost predicate AllInLifeCycle(s: System) {
    forall id | id in s.rows :: InLifeCycle(s.rows[id])
  }

  lemma LifeCycleStep(schedule: Schedule, s: System, step: Step)
    requires Fresh(s) && AllInLifeCycle(s)
    ensures AllInLifeCycle(Apply(schedule, s, step))
  {
  }

  lemma {:induction false} LifeCycleAfter(schedule: Schedule, s: System, steps: seq<Step>)
    requires Fresh(s) && PoolsWithin(steps, 1) && AllInLifeCycle(s)
    ensures AllInLifeCycle(After(schedule, s, steps))
    decreases |steps|
  {
    if steps != [] {
      RestOfRun(steps, 1);
      FreshStep(schedule, s, steps[0]);
      LifeCycleStep(schedule, s, steps[0]);
      LifeCycleAfter(schedule, Apply(schedule, s, steps[0]), steps[1..]);
    }
  }

  // The row as it was, or a pending row attempted meanwhile.
  ghost predicate Follows(r: Row, r': Row) {
    r' == r || (Pending(r) && r.attempts < r'.attempts && r'.state in {TempFail, Delivered, PermFail})
  }

  lemma FollowsStep(schedule: Schedule, s: System, step: Step, id: string)
    requires Fresh(s) && id in s.rows
    ensures id in Apply(schedule, s, step).rows && Follows(s.rows[id], Apply(schedule, s, step).rows[id])
  {
    if step.Process? && Enabled(s, step) {
      assert SoundBatch(s.rows, s.pollers[step.w]);
    }
  }

  lemma {:induction false} FollowsAfter(schedule: Schedule, s: System, steps: seq<Step>, id: string)
    requires Fresh(s) && PoolsWithin(steps, 1) && id in s.rows
    ensures id in After(schedule, s, steps).rows && Follows(s.rows[id], After(schedule, s, steps).rows[id])
    decreases |steps|
  {
    if steps != [] {
      var s' := Apply(schedule, s, steps[0]);
      RestOfRun(steps, 1);
      FreshStep(schedule, s, steps[0]);
      FollowsStep(schedule, s, steps[0], id);
      FollowsAfter(schedule, s', steps[1..], id);
    }
  }

  // queued -> temp_fail* -> delivered | perm_fail, with at most max_attempts attempts: at every
  // moment of a run the row is in the life cycle, and at every later one it is as it was, or it
  // was pending and has gone on; so an ended row stays as it is, and no row is queued again.
  lemma LifeCycle(schedule: Schedule, start: int, before: seq<Step>, after: seq<Step>, id: string)
    requires PoolsWithin(before, 1) && PoolsWithin(after, 1)
    requires id in After(schedule, Init(1, start), before).rows
    ensures var s := After(schedule, Init(1, start), before);
            var s' := After(schedule, s, after);
            && id in s'.rows && InLifeCycle(s.rows[id]) && InLifeCycle(s'.rows[id])
            && Follows(s.rows[id], s'.rows[id])
  {
    var s := After(schedule, Init(1, start), before);
    FinalRowsUntouched(schedule, Init(1, start), before);
    LifeCycleAfter(schedule, Init(1, start), before);
    LifeCycleAfter(schedule, s, after);
    FollowsAfter(schedule, s, after, id);
  }

  // Whatever pools there were before: once the daemon is started with one worker, and as long as
  // it is never started with more, rows only go on, and ended rows stay as they are.
  lemma LifeCycleSinceStart(schedule: Schedule, s: System, workers: nat, after: seq<Step>, id: string)
    requires Inv(s) && workers <= 1 && PoolsWithin(after, 1) && id in s.rows
    ensures var s' := After(schedule, Apply(schedule, s, Restart(workers)), after);
            id in s'.rows && Follows(s.rows[id], s'.rows[id])
  {
    InvStep(schedule, s, Restart(workers));
    FollowsAfter(schedule, Apply(schedule, s, Restart(workers)), after, id);
  }

  // Every recorded attempt on a pending row brings it nearer to a final state: the row
  // ends, or it has strictly fewer attempts left and still at least one.
  lemma EveryAttemptCounts(schedule: Schedule, s: System, step: Step, id: string)
    requires Fresh(s) && AllInLifeCycle(s) && Enabled(s, step)
    requires id in s.rows && Apply(schedule, s, step).rows[id] != s.rows[id]
    ensures var r, r' := s.rows[id], Apply(schedule, s, step).rows[id];
            && Pending(r)
            && r'.attempts == r.attempts + 1
            && (r'.state in {Delivered, PermFail}
                || (r'.state == TempFail && 0 < r'.maxAttempts - r'.attempts < r.maxAttempts - r.attempts))
  {
    assert step.Process?;
    assert SoundBatch(s.rows, s.pollers[step.w]);
  }
}
