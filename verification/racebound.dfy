// How many attempts can racing workers record on one row? A potential argument for the
// bound, and for every pool size and limit a run that reaches it.
module RaceBound {
  import opened Common
  import opened DeliveryQueue
  import opened Delivery
  import opened DeliveryRace

  // Attempts still to come from `low` held low snapshots once the row has at most one
  // attempt left: each makes the row pending again, and then every worker that holds
  // no low snapshot can take and use one high snapshot.
  function Rounds(workers: nat, low: nat): nat
    requires low <= workers
  {
    if low == 0 then 0 else 1 + (workers - low + 1) + Rounds(workers, low - 1)
  }

  // The largest number of attempts that can be recorded on a row with limit `max`.
  function AttemptBound(workers: nat, max: int): int {
    if max <= 1 then workers else max - 2 + Rounds(workers, workers)
  }

  lemma {:induction false} RoundsClosedForm(workers: nat, low: nat)
    requires low <= workers
    ensures 2 * Rounds(workers, low) == 2 * low + 2 * low * (workers - low) + low * (low + 1)
  {
    if low > 0 {
      RoundsClosedForm(workers, low - 1);
    }
  }

  // For max >= 2 the bound is max + W(W+1)/2 + W - 2; it is max itself for one worker.
  lemma AttemptBoundClosedForm(workers: nat, max: int)
    ensures max >= 2 ==> 2 * AttemptBound(workers, max) == 2 * max + workers * (workers + 1) + 2 * workers - 4
    ensures max >= 1 && workers == 1 ==> AttemptBound(workers, max) == max
    ensures max >= 1 && workers >= 1 ==>
              2 * AttemptBound(workers, max) <= 2 * max + workers * (workers + 1) + 2 * workers - 4
    ensures max >= 1 && workers >= 2 ==> AttemptBound(workers, max) > max
  {
    RoundsClosedForm(workers, workers);
    if workers >= 2 {
      assert workers * (workers + 1) >= 2 * (workers + 1);
    } else {
      assert workers == 0 || workers == 1;
    }
  }

  lemma {:induction false} RoundsMonotone(workers: nat, low: nat)
    requires low <= workers
    ensures Rounds(workers, low) <= Rounds(workers, workers)
    decreases workers - low
  {
    if low < workers {
      RoundsMonotone(workers, low + 1);
    }
  }

  lemma {:induction false} RoundsAtLeast(workers: nat, low: nat)
    requires low <= workers
    ensures Rounds(workers, low) >= low
  {
    if low > 0 {
      RoundsAtLeast(workers, low - 1);
    }
  }

  // Attempts that snapshots held now, or that can still be taken, may add.
  function Potential(workers: nat, a: Shadow): nat
    requires a.low + a.high <= workers
  {
    (if a.pending then workers - a.low else a.high) + Rounds(workers, a.low)
  }

  ghost predicate WithinBound(workers: nat, max: int, a: Shadow) {
    && a.low + a.high <= workers
    && (max <= 1 ==> a.low == 0)
    && if a.attempts + 2 <= max
       then a.high == 0
       else a.attempts + Potential(workers, a) <= AttemptBound(workers, max)
  }

  // No step raises attempts + potential above the bound.
  lemma PotentialStep(workers: nat, max: int, a: Shadow, b: Shadow)
    requires WithinBound(workers, max, a) && ShadowStep(max, a, b) && b.low + b.high <= workers
    ensures WithinBound(workers, max, b)
  {
    RoundsMonotone(workers, a.low);
    RoundsAtLeast(workers, a.low);
  }

  // A bound for pools of up to `most` workers, whatever their size at present.
  ghost predicate Bounded(s: System, most: nat) {
    && Inv(s) && |s.pollers| <= most
    && forall id | id in s.rows :: WithinBound(most, s.rows[id].maxAttempts, ShadowOf(s, id))
  }

  lemma NewRowBounded(schedule: Schedule, s: System, step: Step, most: nat)
    requires Bounded(s, most) && step.Enqueue? && Enabled(s, step)
    ensures WithinBound(most, step.maxAttempts, ShadowOf(Apply(schedule, s, step), step.id))
  {
    forall w, low: bool | 0 <= w < |s.pollers|
      ensures !Holding(s.pollers[w], step.id, low)
    {
      assert SoundBatch(s.rows, s.pollers[w]);
    }
    NoHolders(s.pollers, step.id, true);
    NoHolders(s.pollers, step.id, false);
    RoundsAtLeast(most, most);
  }

  lemma BoundedStep(schedule: Schedule, s: System, step: Step, most: nat)
    requires Bounded(s, most) && (step.Restart? ==> step.workers <= most)
    ensures Bounded(Apply(schedule, s, step), most)
  {
    var s' := Apply(schedule, s, step);
    InvStep(schedule, s, step);
    forall id | id in s'.rows
      ensures WithinBound(most, s'.rows[id].maxAttempts, ShadowOf(s', id))
    {
      HoldersAtMostWorkers(s'.rows, s'.pollers, id);
      if id in s.rows {
        ShadowRefines(schedule, s, step, id);
        PotentialStep(most, s.rows[id].maxAttempts, ShadowOf(s, id), ShadowOf(s', id));
      } else {
        NewRowBounded(schedule, s, step, most);
      }
    }
  }

  lemma {:induction false} BoundedAfter(schedule: Schedule, s: System, steps: seq<Step>, most: nat)
    requires Bounded(s, most) && PoolsWithin(steps, most)
    ensures Bounded(After(schedule, s, steps), most)
    decreases |steps|
  {
    if steps != [] {
      RestOfRun(steps, most);
      BoundedStep(schedule, s, steps[0], most);
      BoundedAfter(schedule, Apply(schedule, s, steps[0]), steps[1..], most);
    }
  }

  // However the workers interleave, and however often the daemon is stopped and started again
  // with up to `workers` of them, no row has more attempts recorded than the bound.
  lemma AttemptsBounded(schedule: Schedule, workers: nat, start: int, steps: seq<Step>, id: string)
    requires PoolsWithin(steps, workers) && id in After(schedule, Init(workers, start), steps).rows
    ensures var r := After(schedule, Init(workers, start), steps).rows[id];
            r.attempts <= AttemptBound(workers, r.maxAttempts)
  {
    var s := Init(workers, start);
    assert Bounded(s, workers);
    BoundedAfter(schedule, s, steps, workers);
    InvAfter(schedule, s, steps);
    var e := After(schedule, s, steps);
    assert WithinBound(workers, e.rows[id].maxAttempts, ShadowOf(e, id));
  }
}
