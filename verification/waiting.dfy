// Fairness of the pool, and retry timing of a single worker.
module Waiting {
  import opened Common
  import opened DeliveryQueue
  import opened Delivery
  import opened DeliveryRace
  import opened SingleWorker
  import opened Tries

  ghost predicate NonNegative(schedule: Schedule) {
    forall i | 0 <= i < |schedule| :: schedule[i] >= 0
  }

  // ---- A due row is tried within ceil(k / 10) batches of any one worker ----

  // The pending rows that ORDER BY next_attempt may put before a row scheduled at `next`.
  ghost function Ahead(rows: Rows, next: int): set<string> {
    set id | id in rows && Pending(rows[id]) && rows[id].nextAttempt <= next
  }

  // The polls of worker `v`.
  ghost function Poll(v: nat): Kind {
    (s: System, step: Step) => step.Fetch? && step.w == v && Enabled(s, step)
  }

  // The snapshots `v` has still to process; a pool may be too small to have a worker `v`.
  function HeldBy(s: System, v: nat): seq<QueueItem> {
    if v < |s.pollers| then s.pollers[v].batch else []
  }

  // The end of the daemon takes a batch from `v` that it has not finished.
  ghost function Interrupted(v: nat): Kind {
    (s: System, step: Step) =>
      ((step.Cut? && step.w == v && Enabled(s, step)) || step.Restart?) && HeldBy(s, v) != []
  }

  // A visit to another row does not get it out of the way: `v` itself used up its snapshot and
  // the row is still ahead, or another worker has put it ahead.
  ghost predicate Lingers(schedule: Schedule, v: nat, id: string, next: int, s: System, step: Step) {
    && step.Process? && Enabled(s, step)
    && var other := s.pollers[step.w].batch[0].dlvID;
    && other != id
    && other in Ahead(Apply(schedule, s, step).rows, next)
    && (step.w == v || other !in Ahead(s.rows, next))
  }

  ghost function Lingering(schedule: Schedule, v: nat, id: string, next: int): Kind {
    (s: System, step: Step) => Lingers(schedule, v, id, next, s, step)
  }

  // The row is in the batch of `v`, or at most `credit` rows that may go before it, itself
  // among them, are not. A batch that is lost gives its credit back.
  ghost predicate Progressing(s: System, v: nat, id: string, next: int, credit: int) {
    && Inv(s)
    && id in s.rows && Pending(s.rows[id]) && s.rows[id].nextAttempt == next < Unix(s.now)
    && var mine := HeldBy(s, v);
    && (id in Ids(mine) || |Ahead(s.rows, next) - Ids(mine)| <= credit)
    && (mine != [] ==> |Ahead(s.rows, next)| <= credit + BATCH)
  }

  lemma NoneHeld(rows: Rows, next: int)
    ensures Ids([]) == {} && Ahead(rows, next) - Ids([]) == Ahead(rows, next)
  {
  }

  lemma {:induction false} DistinctCount(items: seq<QueueItem>)
    requires DistinctIds(items)
    ensures |Ids(items)| == |items|
    decreases |items|
  {
    if items != [] {
      TailIds(items);
      DistinctCount(items[1..]);
    }
  }

  lemma TailIds(items: seq<QueueItem>)
    requires DistinctIds(items) && items != []
    ensures Ids(items) == {items[0].dlvID} + Ids(items[1..]) && items[0].dlvID !in Ids(items[1..])
  {
  }

  // A batch without the row is a full one, of rows that all go before it.
  lemma FullBatchAhead(rows: Rows, sec: int, items: seq<QueueItem>, id: string, next: int)
    requires IsPendingBatch(rows, sec, BATCH, items) && id !in Ids(items)
    requires id in rows && Due(rows[id], sec) && rows[id].nextAttempt == next
    ensures |Ahead(rows, next) - Ids(items)| == |Ahead(rows, next)| - BATCH
  {
    assert NoneAfter(items, next) && |items| == BATCH;
    forall k | k in Ids(items) ensures k in Ahead(rows, next) {
      var i :| 0 <= i < |items| && items[i].dlvID == k;
    }
    DistinctCount(items);
  }

  lemma ProgressFetch(schedule: Schedule, s: System, step: Step, v: nat, id: string, next: int, credit: int)
    requires Progressing(s, v, id, next, credit) && step.Fetch? && Enabled(s, step)
    ensures Progressing(Apply(schedule, s, step), v, id, next, if step.w == v then credit - BATCH else credit)
  {
    InvStep(schedule, s, step);
    if step.w != v {
      ProgressKept(s, Apply(schedule, s, step), v, id, next, credit);
    } else {
      NoneHeld(s.rows, next);
      if id !in Ids(step.items) {
        FullBatchAhead(s.rows, Unix(s.now), step.items, id, next);
      }
    }
  }

  lemma AtMostOneMore(small: set<string>, large: set<string>, x: string)
    requires large <= small + {x}
    ensures |large| <= |small| + 1
    ensures large <= small ==> |large| <= |small|
  {
    SubsetSize(large, small + {x});
    if large <= small {
      SubsetSize(large, small);
    }
  }

  lemma {:induction false} SubsetSize(small: set<string>, large: set<string>)
    requires small <= large
    ensures |small| <= |large|
    decreases small
  {
    if small != {} {
      var x :| x in small;
      SubsetSize(small - {x}, large - {x});
    }
  }

  // Of the rows that may go before and are not in the batch of `v`, a visit to the row `other`
  // can only add that row itself.
  lemma LeftAfterVisit(rows: Rows, rows': Rows, other: string, mine: seq<QueueItem>, used: bool, next: int)
    requires rows'.Keys == rows.Keys && forall k | k in rows && k != other :: rows'[k] == rows[k]
    requires DistinctIds(mine) && (used ==> mine != [] && mine[0].dlvID == other)
    ensures var left := Ahead(rows, next) - Ids(mine);
            var left' := Ahead(rows', next) - Ids(if used then mine[1..] else mine);
            && |left'| <= |left| + 1
            && (other !in Ahead(rows', next) || (!used && other in Ahead(rows, next)) ==> |left'| <= |left|)
  {
    if used {
      TailIds(mine);
    }
    var left := Ahead(rows, next) - Ids(mine);
    var left' := Ahead(rows', next) - Ids(if used then mine[1..] else mine);
    assert forall k | k in left' && k != other :: k in left;
    AtMostOneMore(left, left', other);
  }

  lemma AheadAfterVisit(rows: Rows, rows': Rows, other: string, next: int)
    requires rows'.Keys == rows.Keys && forall k | k in rows && k != other :: rows'[k] == rows[k]
    ensures |Ahead(rows', next)| <= |Ahead(rows, next)| + 1
    ensures other !in Ahead(rows', next) || other in Ahead(rows, next) ==>
              |Ahead(rows', next)| <= |Ahead(rows, next)|
  {
    AtMostOneMore(Ahead(rows, next), Ahead(rows', next), other);
  }

  // Of the visited row alone anything may have changed.
  lemma OthersUnchanged(schedule: Schedule, s: System, step: Step)
    requires Inv(s) && step.Process? && Enabled(s, step)
    ensures var s' := Apply(schedule, s, step);
            && s'.now == s.now && s'.rows.Keys == s.rows.Keys
            && (forall k | k in s.rows && k != s.pollers[step.w].batch[0].dlvID :: s'.rows[k] == s.rows[k])
            && forall v ::
                 HeldBy(s', v) == if v == step.w then HeldBy(s, v)[1..] else HeldBy(s, v)
  {
    assert SoundBatch(s.rows, s.pollers[step.w]);
  }

  lemma HeldIsSound(s: System, v: nat)
    requires Inv(s)
    ensures DistinctIds(HeldBy(s, v))
  {
    if v < |s.pollers| {
      assert SoundBatch(s.rows, s.pollers[v]);
    }
  }

  // A visit to `other` by `v` itself, if `used`, or by another worker.
  lemma ProgressVisit(s: System, s': System, v: nat, other: string, used: bool, id: string, next: int, credit: int)
    requires Progressing(s, v, id, next, credit) && Inv(s') && other != id && s.now <= s'.now
    requires s'.rows.Keys == s.rows.Keys && forall k | k in s.rows && k != other :: s'.rows[k] == s.rows[k]
    requires used ==> HeldBy(s, v) != [] && HeldBy(s, v)[0].dlvID == other
    requires HeldBy(s', v) == if used then HeldBy(s, v)[1..] else HeldBy(s, v)
    ensures Progressing(s', v, id, next,
                        if other in Ahead(s'.rows, next) && (used || other !in Ahead(s.rows, next)) then credit + 1
                        else credit)
  {
    HeldIsSound(s, v);
    LeftAfterVisit(s.rows, s'.rows, other, HeldBy(s, v), used, next);
    AheadAfterVisit(s.rows, s'.rows, other, next);
    if used {
      TailIds(HeldBy(s, v));
    }
  }

  lemma ProgressProcess(schedule: Schedule, s: System, step: Step, v: nat, id: string, next: int, credit: int)
    requires Progressing(s, v, id, next, credit)
    requires step.Process? && Enabled(s, step) && !Tried(s, step, id)
    ensures Progressing(Apply(schedule, s, step), v, id, next,
                        if Lingers(schedule, v, id, next, s, step) then credit + 1 else credit)
  {
    InvStep(schedule, s, step);
    OthersUnchanged(schedule, s, step);
    ProgressVisit(s, Apply(schedule, s, step), v, s.pollers[step.w].batch[0].dlvID, step.w == v, id, next, credit);
  }

  // A batch that is lost may have been all of the progress, and counts as none.
  lemma ProgressLost(s: System, s': System, v: nat, id: string, next: int, credit: int)
    requires Progressing(s, v, id, next, credit) && Inv(s')
    requires s'.rows == s.rows && s'.now == s.now && HeldBy(s', v) == []
    ensures Progressing(s', v, id, next, if HeldBy(s, v) != [] then credit + BATCH else credit)
  {
    NoneHeld(s.rows, next);
  }

  // The rows that may go before, and the batch of `v`, are as they were.
  lemma ProgressKept(s: System, s': System, v: nat, id: string, next: int, credit: int)
    requires Progressing(s, v, id, next, credit) && Inv(s')
    requires s.now <= s'.now && HeldBy(s', v) == HeldBy(s, v)
    requires id in s'.rows && s'.rows[id] == s.rows[id] && Ahead(s'.rows, next) == Ahead(s.rows, next)
    ensures Progressing(s', v, id, next, credit)
  {
  }

  lemma ProgressRestart(schedule: Schedule, s: System, step: Step, v: nat, id: string, next: int, credit: int)
    requires Progressing(s, v, id, next, credit) && step.Restart?
    ensures Progressing(Apply(schedule, s, step), v, id, next,
                        if HeldBy(s, v) != [] then credit + BATCH else credit)
  {
    InvStep(schedule, s, step);
    ProgressLost(s, Apply(schedule, s, step), v, id, next, credit);
  }

  lemma ProgressCut(schedule: Schedule, s: System, step: Step, v: nat, id: string, next: int, credit: int)
    requires Progressing(s, v, id, next, credit) && step.Cut? && Enabled(s, step)
    ensures Progressing(Apply(schedule, s, step), v, id, next, if step.w == v then credit + BATCH else credit)
  {
    InvStep(schedule, s, step);
    if step.w == v {
      ProgressLost(s, Apply(schedule, s, step), v, id, next, credit);
    } else {
      ProgressKept(s, Apply(schedule, s, step), v, id, next, credit);
    }
  }

  lemma AheadOther(schedule: Schedule, s: System, step: Step, v: nat, id: string, next: int)
    requires (step.Tick? || step.Enqueue?) && Enabled(s, step) && next < Unix(s.now) && id in s.rows
    ensures var s' := Apply(schedule, s, step);
            && Ahead(s'.rows, next) == Ahead(s.rows, next) && s.now <= s'.now
            && HeldBy(s', v) == HeldBy(s, v) && id in s'.rows && s'.rows[id] == s.rows[id]
  {
  }

  lemma ProgressOther(schedule: Schedule, s: System, step: Step, v: nat, id: string, next: int, credit: int)
    requires Progressing(s, v, id, next, credit)
    requires (step.Tick? || step.Enqueue?) && Enabled(s, step)
    ensures Progressing(Apply(schedule, s, step), v, id, next, credit)
  {
    var s' := Apply(schedule, s, step);
    assert Inv(s') by {
      InvStep(schedule, s, step);
    }
    AheadOther(schedule, s, step, v, id, next);
    ProgressKept(s, s', v, id, next, credit);
  }

  // What one step other than a try of the row itself costs, or pays.
  ghost function CreditAfter(schedule: Schedule, s: System, step: Step, v: nat, id: string, next: int,
                             credit: int): int
  {
    credit + (if Lingering(schedule, v, id, next)(s, step) then 1 else 0)
           - BATCH * (if Poll(v)(s, step) then 1 else 0)
           + BATCH * (if Interrupted(v)(s, step) then 1 else 0)
  }

  lemma CreditByKind(schedule: Schedule, s: System, step: Step, v: nat, id: string, next: int, credit: int)
    ensures CreditAfter(schedule, s, step, v, id, next, credit)
         == if !Enabled(s, step) then credit
            else match step
              case Process(_, _, _, _) => if Lingers(schedule, v, id, next, s, step) then credit + 1 else credit
              case Fetch(w, _) => if w == v then credit - BATCH else credit
              case Cut(w, _) => if w == v then credit + BATCH else credit
              case Restart(_) => if HeldBy(s, v) != [] then credit + BATCH else credit
              case _ => credit
  {
  }

  lemma ProgressStep(schedule: Schedule, s: System, step: Step, v: nat, id: string, next: int, credit: int)
    requires Progressing(s, v, id, next, credit) && !Tried(s, step, id)
    ensures Progressing(Apply(schedule, s, step), v, id, next, CreditAfter(schedule, s, step, v, id, next, credit))
  {
    CreditByKind(schedule, s, step, v, id, next, credit);
    if Enabled(s, step) {
      match step {
        case Process(_, _, _, _) => ProgressProcess(schedule, s, step, v, id, next, credit);
        case Fetch(_, _) => ProgressFetch(schedule, s, step, v, id, next, credit);
        case Cut(_, _) => ProgressCut(schedule, s, step, v, id, next, credit);
        case Restart(_) => ProgressRestart(schedule, s, step, v, id, next, credit);
        case _ => ProgressOther(schedule, s, step, v, id, next, credit);
      }
    }
  }

  // An idle worker with no credit left has had the row, which is itself ahead.
  lemma IdleHasCredit(s: System, v: nat, id: string, next: int, credit: int)
    requires Progressing(s, v, id, next, credit) && HeldBy(s, v) == []
    ensures credit >= 1
  {
    assert id in Ahead(s.rows, next) - Ids(HeldBy(s, v));
  }

  // The credit left after a run from `credit` at first.
  ghost function CreditLeft(schedule: Schedule, s: System, steps: seq<Step>, v: nat, id: string, next: int,
                            credit: int): int
  {
    credit + Count(schedule, Lingering(schedule, v, id, next), s, steps)
           - BATCH * Count(schedule, Poll(v), s, steps)
           + BATCH * Count(schedule, Interrupted(v), s, steps)
  }

  lemma CreditLeftStep(schedule: Schedule, s: System, steps: seq<Step>, v: nat, id: string, next: int, credit: int)
    requires steps != []
    ensures CreditLeft(schedule, s, steps, v, id, next, credit)
         == CreditLeft(schedule, Apply(schedule, s, steps[0]), steps[1..], v, id, next,
                       CreditAfter(schedule, s, steps[0], v, id, next, credit))
  {
  }

  // Until the row is tried, the credit left is that at first, more by every lingering visit and
  // less by every batch that is not lost.
  lemma {:induction false} ProgressAfter(schedule: Schedule, s: System, steps: seq<Step>, v: nat, id: string,
                                         next: int, credit: int)
    requires Progressing(s, v, id, next, credit)
    requires Count(schedule, Try(id), s, steps) == 0
    ensures Progressing(After(schedule, s, steps), v, id, next,
                        CreditLeft(schedule, s, steps, v, id, next, credit))
    decreases |steps|
  {
    if steps != [] {
      var step, s', rest := steps[0], Apply(schedule, s, steps[0]), steps[1..];
      assert !Try(id)(s, step) && Count(schedule, Try(id), s', rest) == 0;
      ProgressStep(schedule, s, step, v, id, next, credit);
      CreditLeftStep(schedule, s, steps, v, id, next, credit);
      ProgressAfter(schedule, s', rest, v, id, next, CreditAfter(schedule, s, step, v, id, next, credit));
    }
  }

  // The batches of `v` that it finished, or is working on.
  ghost function Batches(schedule: Schedule, s: System, steps: seq<Step>, v: nat): int {
    Count(schedule, Poll(v), s, steps) - Count(schedule, Interrupted(v), s, steps)
  }

  // Take any one worker of the pool, and a due row with `k` pending rows, itself among them,
  // scheduled no later. Once that worker has completed ceil((k + lingering) / 10) batches the row
  // has been tried, whatever the others do, whatever is enqueued or rescheduled meanwhile, and
  // however often the daemon is stopped and started with whatever pool.
  lemma BoundedWaiting(schedule: Schedule, s: System, steps: seq<Step>, v: nat, id: string)
    requires Inv(s) && HeldBy(s, v) == [] && HeldBy(After(schedule, s, steps), v) == []
    requires id in s.rows && Pending(s.rows[id]) && s.rows[id].nextAttempt < Unix(s.now)
    requires var next := s.rows[id].nextAttempt;
             var k := |Ahead(s.rows, next)| + Count(schedule, Lingering(schedule, v, id, next), s, steps);
             (k + 9) / 10 <= Batches(schedule, s, steps, v)
    ensures Count(schedule, Try(id), s, steps) >= 1
  {
    var next := s.rows[id].nextAttempt;
    NoneHeld(s.rows, next);
    if Count(schedule, Try(id), s, steps) == 0 {
      ProgressAfter(schedule, s, steps, v, id, next, |Ahead(s.rows, next)|);
      var credit := CreditLeft(schedule, s, steps, v, id, next, |Ahead(s.rows, next)|);
      IdleHasCredit(After(schedule, s, steps), v, id, next, credit);
    }
  }

  // ---- When a visited row lingers ----

  // The tries of `v` on other rows that the database refused to record.
  ghost function RefusedOther(v: nat, id: string): Kind {
    (s: System, step: Step) =>
      step.Process? && step.w == v && Enabled(s, step) && !step.saved && s.pollers[v].batch[0].dlvID != id
  }

  // No worker still holds rows that it fetched by the second `next`.
  ghost predicate PolledSince(s: System, next: int) {
    && next < Unix(s.now)
    && forall w | 0 <= w < |s.pollers| && s.pollers[w].batch != [] :: next < Unix(s.pollers[w].fetchedAt)
  }

  // A row that is written ends, or is rescheduled beyond the second in which it was fetched.
  lemma LingersOnlyIfRefused(schedule: Schedule, s: System, step: Step, v: nat, id: string, next: int)
    requires NonNegative(schedule) && PolledSince(s, next) && Lingering(schedule, v, id, next)(s, step)
    ensures RefusedOther(v, id)(s, step)
  {
    var item := s.pollers[step.w].batch[0];
    var u := Decide(schedule, item, step.conditions, step.decided);
    assert RetryDelay(schedule, item.row.attempts) >= 0;
    assert u.state in {Delivered, PermFail} || u.nextAttempt >= Unix(step.decided);
  }

  lemma {:induction false} LingeringAtMostRefused(schedule: Schedule, s: System, steps: seq<Step>, v: nat,
                                                  id: string, next: int)
    requires NonNegative(schedule) && PolledSince(s, next)
    ensures Count(schedule, Lingering(schedule, v, id, next), s, steps)
         <= Count(schedule, RefusedOther(v, id), s, steps)
    decreases |steps|
  {
    if steps != [] {
      if Lingering(schedule, v, id, next)(s, steps[0]) {
        LingersOnlyIfRefused(schedule, s, steps[0], v, id, next);
      }
      LingeringAtMostRefused(schedule, Apply(schedule, s, steps[0]), steps[1..], v, id, next);
    }
  }

  lemma {:induction false} NoneRefusedToOthers(schedule: Schedule, s: System, steps: seq<Step>, v: nat, id: string)
    requires NoWriteRefused(steps)
    ensures Count(schedule, RefusedOther(v, id), s, steps) == 0
    decreases |steps|
  {
    if steps != [] {
      var rest := steps[1..];
      assert forall i | 0 <= i < |rest| :: rest[i] == steps[i + 1];
      NoneRefusedToOthers(schedule, Apply(schedule, s, steps[0]), rest, v, id);
    }
  }

  // With delays that are not negative each refused write of `v` on another row costs one place, and
  // nothing else does; an attempt on the row itself is recorded, unless that write is refused or
  // cut off.
  lemma WaitingWithRefusals(schedule: Schedule, s: System, steps: seq<Step>, v: nat, id: string)
    requires NonNegative(schedule)
    requires Inv(s) && HeldBy(s, v) == [] && HeldBy(After(schedule, s, steps), v) == []
    requires id in s.rows && Pending(s.rows[id]) && PolledSince(s, s.rows[id].nextAttempt)
    requires var k := |Ahead(s.rows, s.rows[id].nextAttempt)| + Count(schedule, RefusedOther(v, id), s, steps);
             (k + 9) / 10 <= Batches(schedule, s, steps, v)
    ensures id in After(schedule, s, steps).rows
    ensures After(schedule, s, steps).rows[id].attempts
            + Count(schedule, RefusedTry(id), s, steps) + Count(schedule, CutTry(id), s, steps)
          > s.rows[id].attempts
  {
    LingeringAtMostRefused(schedule, s, steps, v, id, s.rows[id].nextAttempt);
    BoundedWaiting(schedule, s, steps, v, id);
    TriesAccounted(schedule, s, steps, id);
    InvAfter(schedule, s, steps);
  }

  // If every write is issued and accepted, any ceil(k / 10) completed batches of one worker have
  // attempted the row and recorded it.
  lemma WaitingWhenRecorded(schedule: Schedule, s: System, steps: seq<Step>, v: nat, id: string)
    requires NonNegative(schedule) && NoWriteRefused(steps) && NeverCut(steps)
    requires Inv(s) && HeldBy(s, v) == [] && HeldBy(After(schedule, s, steps), v) == []
    requires id in s.rows && Pending(s.rows[id]) && PolledSince(s, s.rows[id].nextAttempt)
    requires var k := |Ahead(s.rows, s.rows[id].nextAttempt)|;
             (k + 9) / 10 <= Batches(schedule, s, steps, v)
    ensures id in After(schedule, s, steps).rows
    ensures After(schedule, s, steps).rows[id].attempts > s.rows[id].attempts
  {
    NoneRefusedToOthers(schedule, s, steps, v, id);
    NothingRefused(schedule, s, steps, id);
    NothingCut(schedule, s, steps, id);
    WaitingWithRefusals(schedule, s, steps, v, id);
  }

  // ---- Retries keep their distance although next_attempt is stored in whole seconds ----

  // The first n delays: the entries of the schedule, and its last one for all beyond.
  function TotalDelay(schedule: Schedule, n: nat): int {
    var size := |schedule|;
    Total(schedule[..Min(n, size)]) + Max(n - size, 0) * schedule[size - 1]
  }

  lemma TotalDelayGrows(schedule: Schedule, n: nat)
    ensures TotalDelay(schedule, n + 1) == TotalDelay(schedule, n) + RetryDelay(schedule, n)
  {
    var size := |schedule|;
    if n < size {
      TotalAppend(schedule[..n], schedule[n]);
      assert schedule[..n] + [schedule[n]] == schedule[..n + 1];
    } else {
      assert (n + 1 - size) * schedule[size - 1] == (n - size) * schedule[size - 1] + schedule[size - 1];
    }
  }

  ghost predicate WholeSeconds(schedule: Schedule) {
    forall i | 0 <= i < |schedule| :: schedule[i] % SECOND == 0
  }

  // next_attempt of a pending row that was inserted at `since`.
  ghost predicate SpacedRow(schedule: Schedule, r: Row, since: int) {
    && (r.attempts == 0 ==> r.nextAttempt == Unix(since))
    && (r.attempts > 0 ==>
          r.nextAttempt * SECOND > since + TotalDelay(schedule, r.attempts) - r.attempts * SECOND)
    && (WholeSeconds(schedule) ==>
          r.nextAttempt * SECOND >= Unix(since) * SECOND + TotalDelay(schedule, r.attempts))
  }

  ghost predicate FetchedWhenDue(s: System, p: Poller) {
    forall i | 0 <= i < |p.batch| ::
      && p.batch[i].dlvID in s.enqueuedAt
      && Due(p.batch[i].row, Unix(p.fetchedAt))
      && s.enqueuedAt[p.batch[i].dlvID] <= p.fetchedAt
  }

  ghost predicate Spaced(schedule: Schedule, s: System) {
    && Fresh(s)
    && (forall id | id in s.rows ::
          s.enqueuedAt[id] <= s.now && (Pending(s.rows[id]) ==> SpacedRow(schedule, s.rows[id], s.enqueuedAt[id])))
    && (forall w | 0 <= w < |s.pollers| :: FetchedWhenDue(s, s.pollers[w]))
  }

  lemma WholeSecondShift(t: int, d: int)
    requires d % SECOND == 0
    ensures Unix(t + d) * SECOND == Unix(t) * SECOND + d
  {
  }

  lemma SpacedReschedule(schedule: Schedule, r: Row, since: int, fetched: int, decided: int, next: int)
    requires SpacedRow(schedule, r, since) && since <= fetched <= decided && Due(r, Unix(fetched))
    requires next == Unix(decided + RetryDelay(schedule, r.attempts))
    ensures forall r': Row | r'.attempts == r.attempts + 1 && r'.nextAttempt == next :: SpacedRow(schedule, r', since)
  {
    var d := RetryDelay(schedule, r.attempts);
    TotalDelayGrows(schedule, r.attempts);
    assert r.nextAttempt * SECOND <= Unix(fetched) * SECOND <= fetched;
    assert next * SECOND > decided + d - SECOND;
    if WholeSeconds(schedule) {
      WholeSecondShift(decided, d);
      assert Unix(fetched) <= Unix(decided);
    }
  }

  // The rows after a write: the processed one is rescheduled at a distance or final.
  lemma SpacedVisit(schedule: Schedule, rows: Rows, since: map<string, int>, item: QueueItem, fetched: int, v: Visit)
    requires rows.Keys == since.Keys && item.dlvID in rows && rows[item.dlvID] == item.row
    requires forall id | id in rows && Pending(rows[id]) :: SpacedRow(schedule, rows[id], since[id])
    requires since[item.dlvID] <= fetched <= v.decided && Due(item.row, Unix(fetched))
    ensures var rows' := Visited(schedule, rows, item, v);
            forall id | id in rows' && Pending(rows'[id]) :: SpacedRow(schedule, rows'[id], since[id])
  {
    var next := Unix(v.decided + RetryDelay(schedule, item.row.attempts));
    SpacedReschedule(schedule, item.row, since[item.dlvID], fetched, v.decided, next);
  }

  lemma SpacedProcess(schedule: Schedule, s: System, step: Step)
    requires Spaced(schedule, s) && step.Process? && Enabled(s, step)
    ensures Spaced(schedule, Apply(schedule, s, step))
  {
    var s', p := Apply(schedule, s, step), s.pollers[step.w];
    assert FetchedWhenDue(s, p);
    SpacedVisit(schedule, s.rows, s.enqueuedAt, p.batch[0], p.fetchedAt,
                Visit(step.conditions, step.decided, s.now, step.saved));
    FreshStep(schedule, s, step);
    assert FetchedWhenDue(s', s'.pollers[step.w]);
  }

  lemma SpacedRestart(schedule: Schedule, s: System, step: Step)
    requires Spaced(schedule, s) && step.Restart? && step.workers <= 1
    ensures Spaced(schedule, Apply(schedule, s, step))
  {
    FreshStep(schedule, s, step);
  }

  lemma SpacedOther(schedule: Schedule, s: System, step: Step)
    requires Spaced(schedule, s) && !step.Process? && !step.Restart?
    ensures Spaced(schedule, Apply(schedule, s, step))
  {
    var s' := Apply(schedule, s, step);
    FreshStep(schedule, s, step);
    forall w | 0 <= w < |s'.pollers| ensures FetchedWhenDue(s', s'.pollers[w]) {
      assert FetchedWhenDue(s, s.pollers[w]);
    }
  }

  lemma SpacedStep(schedule: Schedule, s: System, step: Step)
    requires Spaced(schedule, s) && (step.Restart? ==> step.workers <= 1)
    ensures Spaced(schedule, Apply(schedule, s, step))
  {
    if step.Restart? {
      SpacedRestart(schedule, s, step);
    } else if !step.Process? {
      SpacedOther(schedule, s, step);
    } else if Enabled(s, step) {
      SpacedProcess(schedule, s, step);
    }
  }

  lemma {:induction false} SpacedAfter(schedule: Schedule, s: System, steps: seq<Step>)
    requires Spaced(schedule, s) && PoolsWithin(steps, 1)
    ensures Spaced(schedule, After(schedule, s, steps))
    decreases |steps|
  {
    if steps != [] {
      RestOfRun(steps, 1);
      SpacedStep(schedule, s, steps[0]);
      SpacedAfter(schedule, Apply(schedule, s, steps[0]), steps[1..]);
    }
  }

  // With one worker, across stops and starts of the daemon, a row selected after n recorded
  // failures is selected later than its insertion plus the first n delays, less one second per
  // truncation; if every delay is a whole number of seconds, less one second in all
  // (section 4.5.4.1 of RFC 5321).
  lemma RetrySpacing(schedule: Schedule, start: int, steps: seq<Step>, poll: Step, i: nat)
    requires PoolsWithin(steps, 1)
    requires poll.Fetch? && Enabled(After(schedule, Init(1, start), steps), poll) && i < |poll.items|
    ensures var s := After(schedule, Init(1, start), steps);
            var item := poll.items[i];
            var n := item.row.attempts;
            && item.dlvID in s.enqueuedAt
            && var since := s.enqueuedAt[item.dlvID];
            && since <= s.now
            && (n > 0 ==> s.now > since + TotalDelay(schedule, n) - n * SECOND)
            && (WholeSeconds(schedule) ==> s.now > since + TotalDelay(schedule, n) - SECOND)
  {
    var s := After(schedule, Init(1, start), steps);
    SpacedAfter(schedule, Init(1, start), steps);
    var item := poll.items[i];
    assert item.row == s.rows[item.dlvID];
    assert SpacedRow(schedule, item.row, s.enqueuedAt[item.dlvID]);
  }

  // ---- Retries are not late either ----

  // A failed row is due again a delay after it was last written, the delay being the schedule's
  // entry for the attempts before that one, or its last one.
  ghost predicate DueOnTime(schedule: Schedule, r: Row) {
    r.state == TempFail ==>
      && r.attempts >= 1
      && r.nextAttempt * SECOND < (r.updatedAt + 1) * SECOND + schedule[Min(r.attempts - 1, |schedule| - 1)]
  }

  ghost predicate AllOnTime(schedule: Schedule, rows: Rows) {
    forall id | id in rows :: DueOnTime(schedule, rows[id])
  }

  lemma OnTimeVisit(schedule: Schedule, rows: Rows, item: QueueItem, v: Visit)
    requires AllOnTime(schedule, rows) && item.dlvID in rows && rows[item.dlvID] == item.row
    requires v.decided <= v.written
    ensures AllOnTime(schedule, Visited(schedule, rows, item, v))
  {
    AttemptOutcome(schedule, item, v.conditions, v.decided);
  }

  lemma OnTimeStep(schedule: Schedule, s: System, step: Step)
    requires Fresh(s) && AllOnTime(schedule, s.rows)
    ensures AllOnTime(schedule, Apply(schedule, s, step).rows)
  {
    if step.Process? && Enabled(s, step) {
      var item := s.pollers[step.w].batch[0];
      assert item.dlvID in s.rows && s.rows[item.dlvID] == item.row;
      OnTimeVisit(schedule, s.rows, item, Visit(step.conditions, step.decided, s.now, step.saved));
    }
  }

  lemma {:induction false} OnTimeAfter(schedule: Schedule, s: System, steps: seq<Step>)
    requires Fresh(s) && AllOnTime(schedule, s.rows) && PoolsWithin(steps, 1)
    ensures AllOnTime(schedule, After(schedule, s, steps).rows)
    decreases |steps|
  {
    if steps != [] {
      RestOfRun(steps, 1);
      FreshStep(schedule, s, steps[0]);
      OnTimeStep(schedule, s, steps[0]);
      OnTimeAfter(schedule, Apply(schedule, s, steps[0]), steps[1..]);
    }
  }

  // With one worker, across stops and starts: a row with n recorded failures becomes due no later
  // than the n-th delay after its last one, and is then within the reach of every poll.
  lemma RetryNotLate(schedule: Schedule, start: int, steps: seq<Step>, id: string)
    requires PoolsWithin(steps, 1) && id in After(schedule, Init(1, start), steps).rows
    requires After(schedule, Init(1, start), steps).rows[id].state == TempFail
    ensures var r := After(schedule, Init(1, start), steps).rows[id];
            && r.attempts >= 1
            && r.nextAttempt * SECOND < (r.updatedAt + 1) * SECOND + schedule[Min(r.attempts - 1, |schedule| - 1)]
            && forall sec | r.nextAttempt <= sec :: Due(r, sec)
  {
    OnTimeAfter(schedule, Init(1, start), steps);
    assert DueOnTime(schedule, After(schedule, Init(1, start), steps).rows[id]);
  }
}
