// What lost writes and lost answers break: which promises about attempts made, rather than
// attempts recorded, hold of every run, and which inputs break the others.
module Refusals {
  import opened Common
  import opened DeliveryQueue
  import opened Delivery
  import opened DeliveryRace
  import opened RaceBound
  import opened RaceRuns
  import opened SingleWorker
  import opened Tries
  import opened Waiting

  // What may happen in a deployment: the database refuses writes, the daemon is stopped within
  // attempts, and receiving servers' answers are lost.
  datatype Faults = Faults(refused: bool, cut: bool, unheard: bool)

  // The runs of such a deployment, with daemons of up to `workers` workers.
  ghost predicate Admissible(steps: seq<Step>, workers: nat, f: Faults) {
    && PoolsWithin(steps, workers)
    && (f.refused || NoWriteRefused(steps)) && (f.cut || NeverCut(steps)) && (f.unheard || AlwaysHeard(steps))
  }

  // Every attempt made is recorded.
  predicate Records(f: Faults) {
    !f.refused && !f.cut
  }

  lemma SmoothIsAdmissible(steps: seq<Step>, workers: nat, f: Faults)
    requires Smooth(steps)
    ensures Admissible(steps, workers, f)
  {
  }

  lemma AdmissibleConcat(a: seq<Step>, b: seq<Step>, workers: nat, f: Faults)
    requires Admissible(a, workers, f) && Admissible(b, workers, f)
    ensures Admissible(a + b, workers, f)
  {
  }

  // ---- An attempt that is not recorded is made again, at once ----

  // `s` is as it was when the daemon started but for the row, which is due.
  ghost predicate JustEnqueued(s: System, workers: nat, max: int) {
    Arena(s, 0, max) && RowDue(s) && s.pollers == Idlers(workers, s.now)
  }

  // The first worker takes the row and tries it, and the database refuses the write, or the
  // daemon is stopped before it and started again.
  function Vain(s: System, c: Conditions, cut: bool): (steps: seq<Step>)
    requires ROW in s.rows
  {
    var take := Fetch(0, [QueueItem(ROW, s.rows[ROW])]);
    if cut then [take, Cut(0, c), Restart(|s.pollers|)] else [take, Process(0, c, s.now, false)]
  }

  lemma VainFetch(schedule: Schedule, s: System, workers: nat, max: int, c: Conditions, cut: bool)
    requires workers >= 1 && JustEnqueued(s, workers, max)
    ensures var take := Vain(s, c, cut)[0];
            && Enabled(s, take)
            && Apply(schedule, s, take) == s.(pollers := s.pollers[0 := Poller(s.now, take.items)])
  {
    var items := Vain(s, c, cut)[0].items;
    assert items[0].dlvID in Ids(items);
    assert IsPendingBatch(s.rows, Unix(s.now), BATCH, items);
  }

  // After the fetch the row is tried, and what follows leads back to `s`.
  lemma VainTry(schedule: Schedule, s: System, s1: System, workers: nat, max: int, c: Conditions, cut: bool)
    requires workers >= 1 && JustEnqueued(s, workers, max)
    requires s1 == s.(pollers := s.pollers[0 := Poller(s.now, Vain(s, c, cut)[0].items)])
    ensures var s2 := Apply(schedule, s1, Vain(s, c, cut)[1]);
            && Tried(s1, Vain(s, c, cut)[1], ROW)
            && (if cut then Apply(schedule, s2, Restart(|s.pollers|)) else s2) == s
  {
    var s2 := Apply(schedule, s1, Vain(s, c, cut)[1]);
    if !cut {
      assert s2.pollers[0] == s.pollers[0] && s2.pollers == s.pollers;
    }
  }

  // Of the tries among `steps` so many were refused, and so many cut off; none was recorded.
  ghost predicate Vainly(schedule: Schedule, s: System, steps: seq<Step>, refused: nat, cut: nat, c: Conditions) {
    var all := refused + cut;
    (refused, cut, all, if Taken(c) then all else 0)
    == (Count(schedule, RefusedTry(ROW), s, steps), Count(schedule, CutTry(ROW), s, steps),
        Count(schedule, Try(ROW), s, steps), Count(schedule, TakenTry(ROW), s, steps))
  }

  lemma TwoSteps(schedule: Schedule, kind: Kind, s: System, a: Step, b: Step)
    ensures var s1 := Apply(schedule, s, a);
            && After(schedule, s, [a, b]) == Apply(schedule, s1, b)
            && Count(schedule, kind, s, [a, b]) == (if kind(s, a) then 1 else 0) + (if kind(s1, b) then 1 else 0)
  {
    var s1 := Apply(schedule, s, a);
    CountOne(schedule, kind, s1, b);
    assert [a, b][1..] == [b];
  }

  lemma ThreeSteps(schedule: Schedule, kind: Kind, s: System, a: Step, b: Step, c: Step)
    ensures var s1 := Apply(schedule, s, a);
            var s2 := Apply(schedule, s1, b);
            && After(schedule, s, [a, b, c]) == Apply(schedule, s2, c)
            && Count(schedule, kind, s, [a, b, c])
               == (if kind(s, a) then 1 else 0) + (if kind(s1, b) then 1 else 0) + (if kind(s2, c) then 1 else 0)
  {
    var s1 := Apply(schedule, s, a);
    TwoSteps(schedule, kind, s1, b, c);
    assert [a, b, c][1..] == [b, c];
  }

  // A kind of steps among one attempt in vain.
  lemma VainCount(schedule: Schedule, kind: Kind, s: System, workers: nat, max: int, c: Conditions, cut: bool)
    requires workers >= 1 && JustEnqueued(s, workers, max)
    requires forall t: System, step: Step | step.Fetch? || step.Restart? :: !kind(t, step)
    ensures After(schedule, s, Vain(s, c, cut)) == s
    ensures Count(schedule, kind, s, Vain(s, c, cut))
         == if kind(Apply(schedule, s, Vain(s, c, cut)[0]), Vain(s, c, cut)[1]) then 1 else 0
  {
    var block := Vain(s, c, cut);
    VainFetch(schedule, s, workers, max, c, cut);
    var s1 := Apply(schedule, s, block[0]);
    VainTry(schedule, s, s1, workers, max, c, cut);
    if cut {
      ThreeSteps(schedule, kind, s, block[0], block[1], block[2]);
    } else {
      TwoSteps(schedule, kind, s, block[0], block[1]);
    }
  }

  lemma TryInVain(schedule: Schedule, s: System, workers: nat, max: int, c: Conditions, cut: bool)
    requires workers >= 1 && JustEnqueued(s, workers, max)
    ensures After(schedule, s, Vain(s, c, cut)) == s
    ensures Vainly(schedule, s, Vain(s, c, cut), if cut then 0 else 1, if cut then 1 else 0, c)
  {
    VainFetch(schedule, s, workers, max, c, cut);
    VainTry(schedule, s, Apply(schedule, s, Vain(s, c, cut)[0]), workers, max, c, cut);
    VainCount(schedule, Try(ROW), s, workers, max, c, cut);
    VainCount(schedule, RefusedTry(ROW), s, workers, max, c, cut);
    VainCount(schedule, CutTry(ROW), s, workers, max, c, cut);
    VainCount(schedule, TakenTry(ROW), s, workers, max, c, cut);
  }

  lemma VainlyConcat(schedule: Schedule, s: System, a: seq<Step>, b: seq<Step>, refused: nat, cut: nat,
                     refused': nat, cut': nat, c: Conditions)
    requires After(schedule, s, a) == s
    requires Vainly(schedule, s, a, refused, cut, c) && Vainly(schedule, s, b, refused', cut', c)
    ensures After(schedule, s, a + b) == After(schedule, s, b)
    ensures Vainly(schedule, s, a + b, refused + refused', cut + cut', c)
  {
    AfterConcat(schedule, s, a, b);
    CountConcat(schedule, Try(ROW), s, a, b);
    CountConcat(schedule, RefusedTry(ROW), s, a, b);
    CountConcat(schedule, CutTry(ROW), s, a, b);
    CountConcat(schedule, TakenTry(ROW), s, a, b);
  }

  lemma {:induction false} KeepTrying(schedule: Schedule, s: System, workers: nat, max: int,
                                      refused: nat, cut: nat, c: Conditions) returns (steps: seq<Step>)
    requires workers >= 1 && JustEnqueued(s, workers, max) && !Unheard(c)
    ensures After(schedule, s, steps) == s && Vainly(schedule, s, steps, refused, cut, c)
    ensures Admissible(steps, workers, Faults(refused > 0, cut > 0, false))
    decreases refused + cut
  {
    steps := [];
    if refused + cut > 0 {
      var f := Faults(refused > 0, cut > 0, false);
      var block := Vain(s, c, cut > 0);
      TryInVain(schedule, s, workers, max, c, cut > 0);
      var rest := KeepTrying(schedule, s, workers, max,
                             if cut > 0 then refused else refused - 1, if cut > 0 then cut - 1 else 0, c);
      VainlyConcat(schedule, s, block, rest, if cut > 0 then 0 else 1, if cut > 0 then 1 else 0,
                   if cut > 0 then refused else refused - 1, if cut > 0 then cut - 1 else 0, c);
      assert Admissible(block, workers, f) && Admissible(rest, workers, f);
      AdmissibleConcat(block, rest, workers, f);
      steps := block + rest;
    }
  }

  // A new row that is tried in vain: it has no attempt recorded, and is due.
  lemma TriedInVain(schedule: Schedule, workers: nat, max: int, start: int, refused: nat, cut: nat, c: Conditions)
    returns (steps: seq<Step>)
    requires workers >= 1 && !Unheard(c)
    ensures Admissible(steps, workers, Faults(refused > 0, cut > 0, false))
    ensures var s := After(schedule, Init(workers, start), steps);
            && JustEnqueued(s, workers, max) && s.now == start && s.enqueuedAt == map[ROW := start]
            && Vainly(schedule, Init(workers, start), steps, refused, cut, c)
  {
    var s0, enqueue := Init(workers, start), EnqueueRow(max);
    RowEnqueued(schedule, workers, max, start);
    CountOne(schedule, Try(ROW), s0, enqueue);
    var s1 := Apply(schedule, s0, enqueue);
    assert JustEnqueued(s1, workers, max);
    var vain := KeepTrying(schedule, s1, workers, max, refused, cut, c);
    steps := [enqueue] + vain;
    assert steps[1..] == vain;
    assert After(schedule, s0, steps) == After(schedule, s1, vain) == s1;
    AdmissibleConcat([enqueue], vain, workers, Faults(refused > 0, cut > 0, false));
  }

  // ---- Attempts made on one row ----

  // For every pool size, limit and number of refusals and of attempts cut off the bound on
  // attempts made is reached.
  lemma TriesReached(schedule: Schedule, workers: nat, max: int, start: int, refused: nat, cut: nat)
    returns (steps: seq<Step>)
    requires workers >= 1
    ensures Admissible(steps, workers, Faults(refused > 0, cut > 0, false))
    ensures OnRun(schedule, RefusedTry(ROW), workers, start, steps) == refused
    ensures OnRun(schedule, CutTry(ROW), workers, start, steps) == cut
    ensures OnRun(schedule, Try(ROW), workers, start, steps) == AttemptBound(workers, max) + refused + cut
    ensures HasRow(After(schedule, Init(workers, start), steps), ROW, max)
  {
    var s0, f := Init(workers, start), Faults(refused > 0, cut > 0, false);
    var vain := TriedInVain(schedule, workers, max, start, refused, cut, NO_MX);
    var s := After(schedule, s0, vain);
    var rest := AttemptBoundReachedFrom(schedule, s, max);
    steps := vain + rest;
    SmoothIsAdmissible(rest, workers, f);
    AdmissibleConcat(vain, rest, workers, f);
    AfterConcat(schedule, s0, vain, rest);
    CountConcat(schedule, RefusedTry(ROW), s0, vain, rest);
    CountConcat(schedule, CutTry(ROW), s0, vain, rest);
    NothingRefused(schedule, s, rest, ROW);
    NothingCut(schedule, s, rest, ROW);
    TriesAccounted(schedule, s0, steps, ROW);
  }

  ghost predicate HasRow(s: System, id: string, max: int) {
    id in s.rows && s.rows[id].maxAttempts == max
  }

  // A run on which the row exists.
  ghost predicate RunWith(schedule: Schedule, workers: nat, start: int, steps: seq<Step>, f: Faults,
                          id: string, max: int)
  {
    Admissible(steps, workers, f) && HasRow(After(schedule, Init(workers, start), steps), id, max)
  }

  ghost predicate TriesWithin(schedule: Schedule, workers: nat, max: int, start: int, f: Faults, bound: int) {
    forall steps, id | RunWith(schedule, workers, start, steps, f, id, max) ::
      OnRun(schedule, Try(id), workers, start, steps) <= bound
  }

  // "No row is tried for ever": there is a bound on the attempts made, over all runs, exactly
  // when writes are never refused and attempts never cut off, or nobody works.
  lemma TriesBoundedIff(schedule: Schedule, workers: nat, max: int, start: int, f: Faults)
    ensures (exists bound :: TriesWithin(schedule, workers, max, start, f, bound)) <==> Records(f) || workers == 0
  {
    if Records(f) || workers == 0 {
      var bound := AttemptBound(workers, max);
      forall steps, id | RunWith(schedule, workers, start, steps, f, id, max)
        ensures OnRun(schedule, Try(id), workers, start, steps) <= bound
      {
        TriesBounded(schedule, workers, start, steps, id);
        if workers == 0 {
          NobodyTries(schedule, Init(workers, start), steps, id);
        } else {
          NothingRefused(schedule, Init(workers, start), steps, id);
          NothingCut(schedule, Init(workers, start), steps, id);
        }
      }
      assert TriesWithin(schedule, workers, max, start, f, bound);
    } else {
      forall bound ensures !TriesWithin(schedule, workers, max, start, f, bound) {
        var n := Max(bound + 1, 0);
        var steps := TriesReached(schedule, workers, max, start,
                                  if f.refused then n else 0, if f.refused then 0 else n);
        assert RunWith(schedule, workers, start, steps, f, ROW, max);
        assert AttemptBound(workers, max) >= 0;
      }
    }
  }

  lemma {:induction false} NobodyTries(schedule: Schedule, s: System, steps: seq<Step>, id: string)
    requires |s.pollers| == 0 && PoolsWithin(steps, 0)
    ensures Count(schedule, Try(id), s, steps) == 0
    decreases |steps|
  {
    if steps != [] {
      RestOfRun(steps, 0);
      NobodyTries(schedule, Apply(schedule, s, steps[0]), steps[1..], id);
    }
  }

  // ---- Messages taken twice ----

  ghost predicate DeliveredIn(rows: Rows, id: string) {
    id in rows && rows[id].state == Delivered
  }

  ghost function IsDelivered(s: System, id: string): nat {
    if DeliveredIn(s.rows, id) then 1 else 0
  }

  // A row becomes delivered when the worker hears that its message was taken, and records it.
  lemma VisitDelivers(schedule: Schedule, rows: Rows, item: QueueItem, v: Visit, id: string)
    requires item.dlvID in rows && rows[item.dlvID].state != Delivered
    ensures DeliveredIn(Visited(schedule, rows, item, v), id)
       <==> DeliveredIn(rows, id)
            || (id == item.dlvID && v.saved && Taken(v.conditions) && !Unheard(v.conditions))
  {
    assert Decide(schedule, item, v.conditions, v.decided).state == Delivered
      <==> HasDialogue(v.conditions) && v.conditions.reply.error == None;
  }

  lemma TakenAccounted(schedule: Schedule, s: System, step: Step, id: string)
    requires Fresh(s)
    ensures IsDelivered(s, id) + (if TakenTry(id)(s, step) then 1 else 0)
         == IsDelivered(Apply(schedule, s, step), id) + (if UntoldTry(id)(s, step) then 1 else 0)
  {
    if step.Process? && Enabled(s, step) {
      var item := s.pollers[step.w].batch[0];
      assert item.dlvID in s.rows && s.rows[item.dlvID] == item.row && Pending(item.row);
      VisitDelivers(schedule, s.rows, item, Visit(step.conditions, step.decided, s.now, step.saved), id);
    }
  }

  // With one worker the receiving server takes a message once for its delivered row, and once
  // more for every time that the row was not told of it: the answer was lost, or the write was
  // refused or cut off.
  lemma {:induction false} AcceptancesAccounted(schedule: Schedule, s: System, steps: seq<Step>, id: string)
    requires Fresh(s) && PoolsWithin(steps, 1)
    ensures IsDelivered(s, id) + Count(schedule, TakenTry(id), s, steps)
         == IsDelivered(After(schedule, s, steps), id) + Count(schedule, UntoldTry(id), s, steps)
    decreases |steps|
  {
    if steps != [] {
      RestOfRun(steps, 1);
      TakenAccounted(schedule, s, steps[0], id);
      FreshStep(schedule, s, steps[0]);
      AcceptancesAccounted(schedule, Apply(schedule, s, steps[0]), steps[1..], id);
    }
  }

  lemma {:induction false} TakenAtMostTries(schedule: Schedule, s: System, steps: seq<Step>, id: string)
    ensures Count(schedule, TakenTry(id), s, steps) <= Count(schedule, Try(id), s, steps)
    decreases |steps|
  {
    if steps != [] {
      TakenAtMostTries(schedule, Apply(schedule, s, steps[0]), steps[1..], id);
    }
  }

  ghost predicate DeliversOnce(schedule: Schedule, workers: nat, max: int, start: int, f: Faults) {
    forall steps, id | RunWith(schedule, workers, start, steps, f, id, max) ::
      OnRun(schedule, TakenTry(id), workers, start, steps) <= 1
  }

  // What a message to one recipient needs in order to be taken once: nobody works; or one worker
  // at a time does, its attempts are recorded, and a lost answer does not lead to another attempt.
  predicate OnceSuffices(workers: nat, max: int, f: Faults) {
    workers == 0 || (workers == 1 && Records(f) && (!f.unheard || max <= 1))
  }

  lemma DeliveredOnce(schedule: Schedule, workers: nat, max: int, start: int, f: Faults, steps: seq<Step>, id: string)
    requires OnceSuffices(workers, max, f) && RunWith(schedule, workers, start, steps, f, id, max)
    ensures OnRun(schedule, TakenTry(id), workers, start, steps) <= 1
  {
    var s := Init(workers, start);
    TakenAtMostTries(schedule, s, steps, id);
    if workers == 0 {
      NobodyTries(schedule, s, steps, id);
    } else if max <= 1 {
      TriesBounded(schedule, workers, start, steps, id);
      NothingRefused(schedule, s, steps, id);
      NothingCut(schedule, s, steps, id);
    } else {
      AcceptancesAccounted(schedule, s, steps, id);
      NothingUntold(schedule, s, steps, id);
    }
  }

  // Two workers hold the row, and the receiving server takes it from both.
  lemma TakenFromTwo(schedule: Schedule, s: System, max: int) returns (steps: seq<Step>)
    requires |s.pollers| >= 2 && Arena(s, 0, max)
    requires forall w | 0 <= w < 2 :: HoldsOnly(s.pollers[w], 1 < max)
    ensures Smooth(steps) && Count(schedule, TakenTry(ROW), s, steps) == 2
    ensures HasRow(After(schedule, s, steps), ROW, max)
  {
    var first, second := Process(0, ACCEPTED, s.now, true), Process(1, ACCEPTED, s.now, true);
    var s1 := Apply(schedule, s, first);
    assert Tried(s, first, ROW) && s1.pollers[1] == s.pollers[1] && Tried(s1, second, ROW);
    steps := [first, second];
    TwoSteps(schedule, TakenTry(ROW), s, first, second);
  }

  lemma TwoWorkersDeliverTwice(schedule: Schedule, workers: nat, max: int, start: int) returns (steps: seq<Step>)
    requires workers >= 2
    ensures Smooth(steps) && HasRow(After(schedule, Init(workers, start), steps), ROW, max)
    ensures OnRun(schedule, TakenTry(ROW), workers, start, steps) >= 2
  {
    var s0 := Init(workers, start);
    RowEnqueued(schedule, workers, max, start);
    var s1 := After(schedule, s0, [EnqueueRow(max)]);
    var take := FetchAll(schedule, s1, 0, max, 0, 2);
    var both := TakenFromTwo(schedule, After(schedule, s1, take), max);
    var before := [EnqueueRow(max)] + take;
    AfterConcat(schedule, s0, [EnqueueRow(max)], take);
    AfterConcat(schedule, s0, before, both);
    CountConcat(schedule, TakenTry(ROW), s0, before, both);
    steps := before + both;
  }

  // The receiving server takes the message, and the connection breaks before its answer comes.
  const UNHEARD := Conditions(Some([]), None, None, "", MxFound("mx", "ip"), SmtpReply(0, "", Some("EOF"), true))

  // A worker that holds the row has it taken, hears nothing, and waits until the row is due again.
  lemma TakenUnheard(schedule: Schedule, s: System, max: int) returns (steps: seq<Step>)
    requires |s.pollers| == 1 && Arena(s, 0, max) && HoldsOnly(s.pollers[0], true)
    ensures Admissible(steps, 1, Faults(false, false, true)) && Count(schedule, TakenTry(ROW), s, steps) == 1
    ensures var s' := After(schedule, s, steps);
            |s'.pollers| == 1 && Arena(s', 1, max) && RowDue(s') && s'.pollers[0].batch == []
  {
    var step := Process(0, UNHEARD, s.now, true);
    var s1 := Apply(schedule, s, step);
    assert Tried(s, step, ROW);
    var wait := WaitUntilDue(schedule, s1);
    steps := [step, wait];
    TwoSteps(schedule, TakenTry(ROW), s, step, wait);
  }

  lemma TakenHeard(schedule: Schedule, s: System, attempts: nat, max: int) returns (steps: seq<Step>)
    requires |s.pollers| == 1 && Arena(s, attempts, max) && |s.pollers[0].batch| == 1
    requires s.pollers[0].batch[0].dlvID == ROW
    ensures Smooth(steps) && Count(schedule, TakenTry(ROW), s, steps) == 1
    ensures HasRow(After(schedule, s, steps), ROW, max)
  {
    var step := Process(0, ACCEPTED, s.now, true);
    assert Tried(s, step, ROW);
    CountOne(schedule, TakenTry(ROW), s, step);
    steps := [step];
  }

  // One worker, every write recorded: an answer is lost, and the message is sent again.
  lemma UnheardDeliversTwice(schedule: Schedule, max: int, start: int) returns (steps: seq<Step>)
    requires max >= 2
    ensures Admissible(steps, 1, Faults(false, false, true))
    ensures HasRow(After(schedule, Init(1, start), steps), ROW, max)
    ensures OnRun(schedule, TakenTry(ROW), 1, start, steps) >= 2
  {
    var s0, f, enqueue := Init(1, start), Faults(false, false, true), [EnqueueRow(max)];
    RowEnqueued(schedule, 1, max, start);
    var s1 := After(schedule, s0, enqueue);
    var take := FetchAll(schedule, s1, 0, max, 0, 1);
    var s2 := After(schedule, s1, take);
    var unheard := TakenUnheard(schedule, s2, max);
    var s3 := After(schedule, s2, unheard);
    var again := FetchAll(schedule, s3, 1, max, 0, 1);
    var heard := TakenHeard(schedule, After(schedule, s3, again), 1, max);
    SmoothIsAdmissible(enqueue, 1, f);
    SmoothIsAdmissible(take, 1, f);
    SmoothIsAdmissible(again, 1, f);
    SmoothIsAdmissible(heard, 1, f);
    var x := RunsOn(schedule, s0, enqueue, take, f);
    var y := RunsOn(schedule, s0, x, unheard, f);
    var z := RunsOn(schedule, s0, y, again, f);
    steps := RunsOn(schedule, s0, z, heard, f);
  }

  // One run and then another, with what they count.
  lemma RunsOn(schedule: Schedule, s: System, a: seq<Step>, b: seq<Step>, f: Faults) returns (steps: seq<Step>)
    requires Admissible(a, 1, f) && Admissible(b, 1, f)
    ensures Admissible(steps, 1, f) && After(schedule, s, steps) == After(schedule, After(schedule, s, a), b)
    ensures Count(schedule, TakenTry(ROW), s, steps)
         == Count(schedule, TakenTry(ROW), s, a) + Count(schedule, TakenTry(ROW), After(schedule, s, a), b)
  {
    steps := a + b;
    AdmissibleConcat(a, b, 1, f);
    AfterConcat(schedule, s, a, b);
    CountConcat(schedule, TakenTry(ROW), s, a, b);
  }

  lemma DeliveredTwice(schedule: Schedule, workers: nat, max: int, start: int, f: Faults) returns (steps: seq<Step>)
    requires !OnceSuffices(workers, max, f)
    ensures RunWith(schedule, workers, start, steps, f, ROW, max)
    ensures OnRun(schedule, TakenTry(ROW), workers, start, steps) >= 2
  {
    if workers >= 2 {
      steps := TwoWorkersDeliverTwice(schedule, workers, max, start);
      SmoothIsAdmissible(steps, workers, f);
    } else if !Records(f) {
      steps := TriedInVain(schedule, workers, max, start,
                           if f.refused then 2 else 0, if f.refused then 0 else 2, ACCEPTED);
    } else {
      steps := UnheardDeliversTwice(schedule, max, start);
    }
  }

  // "The receiving server takes a message at most once for a recipient" holds of every run
  // exactly when nobody works, or one worker at a time does, no write is refused or cut off, and
  // no answer is lost or one attempt is all that is allowed.
  lemma DeliversOnceIff(schedule: Schedule, workers: nat, max: int, start: int, f: Faults)
    ensures DeliversOnce(schedule, workers, max, start, f) <==> OnceSuffices(workers, max, f)
  {
    if OnceSuffices(workers, max, f) {
      forall steps, id | RunWith(schedule, workers, start, steps, f, id, max)
        ensures OnRun(schedule, TakenTry(id), workers, start, steps) <= 1
      {
        DeliveredOnce(schedule, workers, max, start, f, steps, id);
      }
    } else {
      var steps := DeliveredTwice(schedule, workers, max, start, f);
    }
  }

  // ---- The distance between attempts made ----

  // The next fetch of a row tried `n` times in a run comes at a distance of n delays.
  ghost predicate SpacedByTries(schedule: Schedule, start: int, steps: seq<Step>, poll: Step, i: nat) {
    var s := After(schedule, Init(1, start), steps);
    poll.Fetch? && Enabled(s, poll) && i < |poll.items| && poll.items[i].dlvID in s.enqueuedAt ==>
      var id := poll.items[i].dlvID;
      var n := OnRun(schedule, Try(id), 1, start, steps);
      n > 0 ==> s.now > s.enqueuedAt[id] + TotalDelay(schedule, n) - n * SECOND
  }

  ghost predicate AlwaysSpacedByTries(schedule: Schedule, start: int, f: Faults) {
    forall steps, poll, i: nat | Admissible(steps, 1, f) :: SpacedByTries(schedule, start, steps, poll, i)
  }

  // Every delay, truncated to whole seconds, may be gone.
  ghost predicate NoDistanceAsked(schedule: Schedule) {
    && schedule[|schedule| - 1] <= SECOND
    && forall n | 0 < n <= |schedule| :: TotalDelay(schedule, n) < n * SECOND
  }

  // Beyond the schedule every further delay is its last one.
  lemma DelayBeyond(schedule: Schedule, n: nat)
    ensures TotalDelay(schedule, |schedule| + n)
         == TotalDelay(schedule, |schedule|) + n * schedule[|schedule| - 1]
  {
    assert schedule[..|schedule|] == schedule;
  }

  lemma ShortBeyond(schedule: Schedule, n: nat)
    requires schedule[|schedule| - 1] <= SECOND && TotalDelay(schedule, |schedule|) < |schedule| * SECOND
    ensures TotalDelay(schedule, |schedule| + n) < (|schedule| + n) * SECOND
  {
    DelayBeyond(schedule, n);
    assert n * schedule[|schedule| - 1] <= n * SECOND;
  }

  lemma LongInTheEnd(schedule: Schedule) returns (n: nat)
    requires schedule[|schedule| - 1] > SECOND
    ensures n > 0 && TotalDelay(schedule, n) >= n * SECOND
  {
    var size := |schedule|;
    var more: nat := Max(size * SECOND - TotalDelay(schedule, size), 0);
    DelayBeyond(schedule, more);
    assert more * (SECOND + 1) <= more * schedule[size - 1];
    n := size + more;
  }

  // The condition on the schedule is one on all numbers of attempts.
  lemma NoDistanceAtAll(schedule: Schedule)
    ensures NoDistanceAsked(schedule) <==> forall n: nat | n > 0 :: TotalDelay(schedule, n) < n * SECOND
  {
    var size := |schedule|;
    if NoDistanceAsked(schedule) {
      forall n: nat | n > 0 ensures TotalDelay(schedule, n) < n * SECOND {
        if n > size {
          ShortBeyond(schedule, n - size);
        }
      }
    } else if schedule[size - 1] > SECOND {
      var n := LongInTheEnd(schedule);
    } else {
      var n: nat :| 0 < n <= size && TotalDelay(schedule, n) >= n * SECOND;
      assert n > 0 && !(TotalDelay(schedule, n) < n * SECOND);
    }
  }

  // After `n` tries in vain the row is polled at the instant it was inserted.
  lemma PolledAtOnce(schedule: Schedule, start: int, n: nat, f: Faults) returns (steps: seq<Step>, poll: Step)
    requires n > 0 && TotalDelay(schedule, n) >= n * SECOND && !Records(f)
    ensures Admissible(steps, 1, f) && !SpacedByTries(schedule, start, steps, poll, 0)
  {
    steps := TriedInVain(schedule, 1, 1, start, if f.refused then n else 0, if f.refused then 0 else n, NO_MX);
    var s := After(schedule, Init(1, start), steps);
    var items := [QueueItem(ROW, s.rows[ROW])];
    assert items[0].dlvID in Ids(items);
    assert IsPendingBatch(s.rows, Unix(s.now), BATCH, items);
    poll := Fetch(0, items);
    assert Enabled(s, poll);
  }

  lemma SpacedWhenRecorded(schedule: Schedule, start: int, steps: seq<Step>, poll: Step, i: nat)
    requires PoolsWithin(steps, 1) && ((NoWriteRefused(steps) && NeverCut(steps)) || NoDistanceAsked(schedule))
    ensures SpacedByTries(schedule, start, steps, poll, i)
  {
    var s := After(schedule, Init(1, start), steps);
    if poll.Fetch? && Enabled(s, poll) && i < |poll.items| {
      var id := poll.items[i].dlvID;
      RetrySpacing(schedule, start, steps, poll, i);
      if NoDistanceAsked(schedule) {
        NoDistanceAtAll(schedule);
      } else {
        TriesAccounted(schedule, Init(1, start), steps, id);
        NothingRefused(schedule, Init(1, start), steps, id);
        NothingCut(schedule, Init(1, start), steps, id);
      }
    }
  }

  // With one worker attempts keep the distance of the schedule, less a second each, on every
  // run exactly when they are all recorded or the schedule asks for no distance to speak of.
  lemma SpacedByTriesIff(schedule: Schedule, start: int, f: Faults)
    ensures AlwaysSpacedByTries(schedule, start, f) <==> Records(f) || NoDistanceAsked(schedule)
  {
    if Records(f) || NoDistanceAsked(schedule) {
      forall steps, poll, i: nat | Admissible(steps, 1, f)
        ensures SpacedByTries(schedule, start, steps, poll, i)
      {
        SpacedWhenRecorded(schedule, start, steps, poll, i);
      }
    } else {
      NoDistanceAtAll(schedule);
      var n: nat :| n > 0 && TotalDelay(schedule, n) >= n * SECOND;
      var steps, poll := PolledAtOnce(schedule, start, n, f);
    }
  }
}
