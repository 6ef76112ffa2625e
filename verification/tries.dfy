// Attempts made against attempts recorded. An UPDATE that the database refuses is only
// logged, and one that the end of the daemon cuts off is never issued: the attempt was made,
// but the row does not know of it and stays due.
module Tries {
  import opened Common
  import opened DeliveryQueue
  import opened Delivery
  import opened DeliveryRace
  import opened RaceBound

  // Which steps to count, given the state they start from.
  type Kind = (System, Step) -> bool

  ghost function Count(schedule: Schedule, kind: Kind, s: System, steps: seq<Step>): nat
    decreases |steps|
  {
    if steps == [] then 0
    else (if kind(s, steps[0]) then 1 else 0) + Count(schedule, kind, Apply(schedule, s, steps[0]), steps[1..])
  }

  ghost predicate Tried(s: System, step: Step, id: string) {
    (step.Process? || step.Cut?) && Enabled(s, step) && s.pollers[step.w].batch[0].dlvID == id
  }

  // The attempts made on a row.
  ghost function Try(id: string): Kind {
    (s: System, step: Step) => Tried(s, step, id)
  }

  // Those of them that the database refused to record.
  ghost function RefusedTry(id: string): Kind {
    (s: System, step: Step) => Tried(s, step, id) && step.Process? && !step.saved
  }

  // Those that the end of the daemon kept from being recorded.
  ghost function CutTry(id: string): Kind {
    (s: System, step: Step) => Tried(s, step, id) && step.Cut?
  }

  // Those in which the receiving server took the message.
  ghost function TakenTry(id: string): Kind {
    (s: System, step: Step) => Tried(s, step, id) && Taken(step.conditions)
  }

  // Those in which it took the message and the row was not told: the worker did not hear of it,
  // or its write was refused or cut off.
  ghost function UntoldTry(id: string): Kind {
    (s: System, step: Step) =>
      Tried(s, step, id) && Taken(step.conditions) && (step.Cut? || !step.saved || Unheard(step.conditions))
  }

  // The same, over a run from the start of the daemon.
  ghost function OnRun(schedule: Schedule, kind: Kind, workers: nat, start: int, steps: seq<Step>): nat {
    Count(schedule, kind, Init(workers, start), steps)
  }

  lemma {:induction false} CountConcat(schedule: Schedule, kind: Kind, s: System, a: seq<Step>, b: seq<Step>)
    ensures Count(schedule, kind, s, a + b)
         == Count(schedule, kind, s, a) + Count(schedule, kind, After(schedule, s, a), b)
    decreases |a|
  {
    if a == [] {
      assert a + b == b;
    } else {
      assert (a + b)[1..] == a[1..] + b;
      CountConcat(schedule, kind, Apply(schedule, s, a[0]), a[1..], b);
    }
  }

  lemma CountOne(schedule: Schedule, kind: Kind, s: System, step: Step)
    ensures After(schedule, s, [step]) == Apply(schedule, s, step)
    ensures Count(schedule, kind, s, [step]) == if kind(s, step) then 1 else 0
  {
    var s', rest := Apply(schedule, s, step), [step][1..];
    assert rest == [];
    assert After(schedule, s', rest) == s' && Count(schedule, kind, s', rest) == 0;
  }

  // The daemon is not stopped within an attempt.
  ghost predicate NeverCut(steps: seq<Step>) {
    forall i | 0 <= i < |steps| :: !steps[i].Cut?
  }

  ghost predicate AlwaysHeard(steps: seq<Step>) {
    forall i | 0 <= i < |steps| && (steps[i].Process? || steps[i].Cut?) :: !Unheard(steps[i].conditions)
  }

  lemma {:induction false} NothingRefused(schedule: Schedule, s: System, steps: seq<Step>, id: string)
    requires NoWriteRefused(steps)
    ensures Count(schedule, RefusedTry(id), s, steps) == 0
    decreases |steps|
  {
    if steps != [] {
      RestOfRun(steps, 0);
      NothingRefused(schedule, Apply(schedule, s, steps[0]), steps[1..], id);
    }
  }

  lemma {:induction false} NothingCut(schedule: Schedule, s: System, steps: seq<Step>, id: string)
    requires NeverCut(steps)
    ensures Count(schedule, CutTry(id), s, steps) == 0
    decreases |steps|
  {
    if steps != [] {
      assert forall i | 0 <= i < |steps[1..]| :: steps[1..][i] == steps[i + 1];
      NothingCut(schedule, Apply(schedule, s, steps[0]), steps[1..], id);
    }
  }

  lemma {:induction false} NothingUntold(schedule: Schedule, s: System, steps: seq<Step>, id: string)
    requires NoWriteRefused(steps) && NeverCut(steps) && AlwaysHeard(steps)
    ensures Count(schedule, UntoldTry(id), s, steps) == 0
    decreases |steps|
  {
    if steps != [] {
      RestOfRun(steps, 0);
      assert forall i | 0 <= i < |steps[1..]| :: steps[1..][i] == steps[i + 1];
      NothingUntold(schedule, Apply(schedule, s, steps[0]), steps[1..], id);
    }
  }

  // ---- Every attempt is recorded, refused or cut off ----

  ghost function Recorded(s: System, id: string): nat {
    if id in s.rows then s.rows[id].attempts else 0
  }

  lemma TryAccounted(schedule: Schedule, s: System, step: Step, id: string)
    requires Inv(s)
    ensures Recorded(s, id) + (if Tried(s, step, id) && step.Process? && step.saved then 1 else 0)
         == Recorded(Apply(schedule, s, step), id)
  {
    if step.Process? && Enabled(s, step) {
      assert SoundBatch(s.rows, s.pollers[step.w]);
    }
  }

  lemma {:induction false} TriesAccounted(schedule: Schedule, s: System, steps: seq<Step>, id: string)
    requires Inv(s)
    ensures Recorded(s, id) + Count(schedule, Try(id), s, steps)
         == Recorded(After(schedule, s, steps), id)
            + Count(schedule, RefusedTry(id), s, steps) + Count(schedule, CutTry(id), s, steps)
    decreases |steps|
  {
    if steps != [] {
      TryAccounted(schedule, s, steps[0], id);
      InvStep(schedule, s, steps[0]);
      TriesAccounted(schedule, Apply(schedule, s, steps[0]), steps[1..], id);
    }
  }

  // With any number of racing workers, and however often the daemon is started again, a row is
  // tried no more often than the bound on recorded attempts, plus once for every write of it
  // that the database refused and once for every attempt on it that the daemon's end cut off.
  lemma TriesBounded(schedule: Schedule, workers: nat, start: int, steps: seq<Step>, id: string)
    requires PoolsWithin(steps, workers) && id in After(schedule, Init(workers, start), steps).rows
    ensures var tries := OnRun(schedule, Try(id), workers, start, steps);
            var refused := OnRun(schedule, RefusedTry(id), workers, start, steps);
            var cut := OnRun(schedule, CutTry(id), workers, start, steps);
            var r := After(schedule, Init(workers, start), steps).rows[id];
            tries == r.attempts + refused + cut && tries <= AttemptBound(workers, r.maxAttempts) + refused + cut
  {
    TriesAccounted(schedule, Init(workers, start), steps, id);
    AttemptsBounded(schedule, workers, start, steps, id);
  }
}
