// Which promises about a row survive a pool of racing workers: each is true
// of every run, across stops and starts, exactly for the pool sizes and limits stated.
module Promises {
  import opened Common
  import opened DeliveryQueue
  import opened Delivery
  import opened DeliveryRace
  import opened RaceBound
  import opened RaceRuns
  import opened SingleWorker

  ghost predicate RowIs(s: System, id: string, max: int, states: set<DeliveryState>) {
    id in s.rows && s.rows[id].maxAttempts == max && s.rows[id].state in states
  }

  // A row with limit `max` that is in one of `states` after a run is in one of them after
  // every continuation of that run.
  ghost predicate Final(schedule: Schedule, workers: nat, max: int, start: int, states: set<DeliveryState>) {
    forall before, after, id | PoolsWithin(before, workers) && PoolsWithin(after, workers) ::
      RowIs(After(schedule, Init(workers, start), before), id, max, states) ==>
      RowIs(After(schedule, After(schedule, Init(workers, start), before), after), id, max, states)
  }

  // Two workers hold the row; one delivers it, and then the other fails.
  lemma TwoWorkersCollide(schedule: Schedule, workers: nat, max: int, start: int)
    returns (before: seq<Step>, after: seq<Step>)
    requires workers >= 2
    ensures var s := After(schedule, Init(workers, start), before);
            var s' := After(schedule, s, after);
            && PoolsWithin(before, workers) && PoolsWithin(after, workers)
            && RowIs(s, ROW, max, {Delivered})
            && RowIs(s', ROW, max, {if max >= 2 then TempFail else PermFail})
  {
    var s0, enqueue := Init(workers, start), EnqueueRow(max);
    RowEnqueued(schedule, workers, max, start);
    var s1 := After(schedule, s0, [enqueue]);
    var take := FetchAll(schedule, s1, 0, max, 0, 2);
    var s2 := After(schedule, s1, take);
    var deliver := Process(0, ACCEPTED, s2.now, true);
    var s3 := Apply(schedule, s2, deliver);
    assert After(schedule, s2, [deliver]) == After(schedule, s3, []) == s3;
    before := [enqueue] + take + [deliver];
    AfterConcat(schedule, s0, [enqueue], take);
    AfterConcat(schedule, s0, [enqueue] + take, [deliver]);
    var fail := Process(1, NO_MX, s3.now, true);
    after := [fail];
    assert HoldsOnly(s3.pollers[1], 1 < max);
    assert After(schedule, s3, [fail]) == After(schedule, Apply(schedule, s3, fail), []) == Apply(schedule, s3, fail);
  }

  // "Delivered is final" holds of every run exactly when there is at most one worker.
  lemma DeliveredFinalIffOneWorker(schedule: Schedule, workers: nat, max: int, start: int)
    ensures Final(schedule, workers, max, start, {Delivered}) <==> workers <= 1
  {
    if workers <= 1 {
      forall before, after, id | PoolsWithin(before, workers) && PoolsWithin(after, workers)
        ensures RowIs(After(schedule, Init(workers, start), before), id, max, {Delivered}) ==>
                RowIs(After(schedule, After(schedule, Init(workers, start), before), after), id, max, {Delivered})
      {
        FinalRowsUntouched(schedule, Init(workers, start), before);
        FinalRowsUntouched(schedule, After(schedule, Init(workers, start), before), after);
      }
    } else {
      var before, after := TwoWorkersCollide(schedule, workers, max, start);
      assert RowIs(After(schedule, Init(workers, start), before), ROW, max, {Delivered});
    }
  }

  // With a limit of one attempt no snapshot is ever low, and only low snapshots revive a row.
  lemma ShadowStaysEnded(workers: nat, max: int, a: Shadow, b: Shadow)
    requires max <= 1 && WithinBound(workers, max, a) && ShadowStep(max, a, b) && !a.pending
    ensures !b.pending
  {
  }

  lemma OneAttemptNotRevived(schedule: Schedule, s: System, step: Step, id: string, max: int, most: nat)
    requires Inv(s) && id in s.rows && max <= 1 && WithinBound(most, max, ShadowOf(s, id))
    requires s.rows[id].maxAttempts == max && !Pending(s.rows[id])
    ensures var s' := Apply(schedule, s, step);
            id in s'.rows && s'.rows[id].maxAttempts == max && !Pending(s'.rows[id])
  {
    InvStep(schedule, s, step);
    ShadowRefines(schedule, s, step, id);
    ShadowStaysEnded(most, max, ShadowOf(s, id), ShadowOf(Apply(schedule, s, step), id));
  }

  lemma {:induction false} OneAttemptNeverRevived(schedule: Schedule, s: System, steps: seq<Step>, id: string,
                                                  max: int, most: nat)
    requires Bounded(s, most) && PoolsWithin(steps, most)
    requires max <= 1 && id in s.rows && s.rows[id].maxAttempts == max && !Pending(s.rows[id])
    ensures var s' := After(schedule, s, steps);
            id in s'.rows && s'.rows[id].maxAttempts == max && !Pending(s'.rows[id])
    decreases |steps|
  {
    if steps != [] {
      RestOfRun(steps, most);
      OneAttemptNotRevived(schedule, s, steps[0], id, max, most);
      BoundedStep(schedule, s, steps[0], most);
      OneAttemptNeverRevived(schedule, Apply(schedule, s, steps[0]), steps[1..], id, max, most);
    }
  }

  // "Delivered and permanently failed rows stay in those states" holds of every run
  // exactly when there is at most one worker or the row is allowed at most one attempt.
  lemma EndedFinalIff(schedule: Schedule, workers: nat, max: int, start: int)
    ensures Final(schedule, workers, max, start, {Delivered, PermFail}) <==> workers <= 1 || max <= 1
  {
    if workers <= 1 || max <= 1 {
      forall before, after, id | PoolsWithin(before, workers) && PoolsWithin(after, workers)
        ensures RowIs(After(schedule, Init(workers, start), before), id, max, {Delivered, PermFail}) ==>
                RowIs(After(schedule, After(schedule, Init(workers, start), before), after),
                      id, max, {Delivered, PermFail})
      {
        var s := After(schedule, Init(workers, start), before);
        if RowIs(s, id, max, {Delivered, PermFail}) {
          if workers <= 1 {
            FinalRowsUntouched(schedule, Init(workers, start), before);
            FinalRowsUntouched(schedule, s, after);
          } else {
            BoundedAfter(schedule, Init(workers, start), before, workers);
            OneAttemptNeverRevived(schedule, s, after, id, max, workers);
            InvAfter(schedule, s, after);
          }
        }
      }
    } else {
      var before, after := TwoWorkersCollide(schedule, workers, max, start);
      assert RowIs(After(schedule, Init(workers, start), before), ROW, max, {Delivered, PermFail});
    }
  }

  ghost predicate AttemptsWithin(schedule: Schedule, workers: nat, start: int, steps: seq<Step>, id: string, max: int) {
    var s := After(schedule, Init(workers, start), steps);
    id in s.rows && s.rows[id].maxAttempts == max ==> s.rows[id].attempts <= max
  }

  // "Attempts never exceed max_attempts" holds of every run exactly when there is one worker
  // and a positive limit, or no worker at all and a limit that is not negative: an attempt is
  // made before the limit is looked at.
  lemma AttemptsWithinLimitIff(schedule: Schedule, workers: nat, max: int, start: int)
    ensures (forall steps, id | PoolsWithin(steps, workers) :: AttemptsWithin(schedule, workers, start, steps, id, max))
       <==> (workers == 1 && max >= 1) || (workers == 0 && max >= 0)
  {
    AttemptBoundClosedForm(workers, max);
    if (workers == 1 && max >= 1) || (workers == 0 && max >= 0) {
      forall steps, id | PoolsWithin(steps, workers)
        ensures AttemptsWithin(schedule, workers, start, steps, id, max)
      {
        var s := After(schedule, Init(workers, start), steps);
        if id in s.rows {
          AttemptsBounded(schedule, workers, start, steps, id);
        }
      }
    } else if workers == 0 {
      RowEnqueued(schedule, workers, max, start);
      assert !AttemptsWithin(schedule, workers, start, [EnqueueRow(max)], ROW, max);
    } else {
      var steps := AttemptBoundReached(schedule, workers, max, start);
      assert !AttemptsWithin(schedule, workers, start, steps, ROW, max);
    }
  }
}
