// The worker pool as an interleaved step system: any number of pollers share
// the table, and each works through a batch of snapshots that nobody claimed.
// The daemon may be stopped at any moment and started again on the same table.
module DeliveryRace {
  import opened Common
  import opened DeliveryQueue
  import opened Delivery

  // One worker goroutine: the clock when it last polled, and the snapshots it has yet to process.
  datatype Poller = Poller(fetchedAt: int, batch: seq<QueueItem>)

  // `halted` are the workers that the coming end of the daemon cut off within an attempt.
  // `enqueuedAt` is a history variable: the nanosecond clock of each row's insertion.
  datatype System = System(
    now: int,
    rows: Rows,
    pollers: seq<Poller>,
    halted: set<nat>,
    enqueuedAt: map<string, int>)

  datatype Step =
    | Tick(to: int)
    | Enqueue(id: string, msgID: string, recipient: string, maxAttempts: int)
    | Fetch(w: nat, items: seq<QueueItem>)
    | Process(w: nat, conditions: Conditions, decided: int, saved: bool)
    // The worker makes an attempt, and the daemon ends before its UPDATE.
    | Cut(w: nat, conditions: Conditions)
    // The daemon ends, and a new one starts on the table with this many workers.
    | Restart(workers: nat)

  ghost predicate Enabled(s: System, step: Step) {
    match step
    case Tick(to) => s.now <= to
    case Enqueue(id, _, _, _) => id !in s.rows
    case Fetch(w, items) =>
      && w < |s.pollers| && s.pollers[w].batch == [] && w !in s.halted
      && IsPendingBatch(s.rows, Unix(s.now), BATCH, items)
    case Process(w, _, decided, _) =>
      w < |s.pollers| && s.pollers[w].batch != [] && s.pollers[w].fetchedAt <= decided <= s.now
    case Cut(w, _) => w < |s.pollers| && s.pollers[w].batch != []
    case Restart(_) => true
  }

  // A step that is not enabled leaves the system as it is, so every sequence of steps is a run.
  ghost function Apply(schedule: Schedule, s: System, step: Step): System {
    if !Enabled(s, step) then s
    else match step
      case Tick(to) => s.(now := to)
      case Enqueue(id, msgID, recipient, maxAttempts) =>
        s.(rows := s.rows[id := NewRow(msgID, recipient, maxAttempts, s.now)],
           enqueuedAt := s.enqueuedAt[id := s.now])
      case Fetch(w, items) => s.(pollers := s.pollers[w := Poller(s.now, items)])
      case Process(w, c, decided, saved) =>
        var p := s.pollers[w];
        s.(rows := Visited(schedule, s.rows, p.batch[0], Visit(c, decided, s.now, saved)),
           pollers := s.pollers[w := p.(batch := p.batch[1..])])
      case Cut(w, _) => s.(pollers := s.pollers[w := s.pollers[w].(batch := [])], halted := s.halted + {w})
      case Restart(workers) => s.(pollers := Idlers(workers, s.now), halted := {})
  }

  function Idlers(workers: nat, now: int): seq<Poller> {
    seq(workers, _ => Poller(now, []))
  }

  ghost function After(schedule: Schedule, s: System, steps: seq<Step>): System
    decreases |steps|
  {
    if steps == [] then s else After(schedule, Apply(schedule, s, steps[0]), steps[1..])
  }

  ghost function Init(workers: nat, start: int): System {
    System(start, map[], Idlers(workers, start), {}, map[])
  }

  lemma {:induction false} AfterConcat(schedule: Schedule, s: System, a: seq<Step>, b: seq<Step>)
    ensures After(schedule, s, a + b) == After(schedule, After(schedule, s, a), b)
    decreases |a|
  {
    if a == [] {
      assert a + b == b;
    } else {
      assert (a + b)[1..] == a[1..] + b;
      AfterConcat(schedule, Apply(schedule, s, a[0]), a[1..], b);
    }
  }

  // The database accepts every write of the run.
  ghost predicate NoWriteRefused(steps: seq<Step>) {
    forall i | 0 <= i < |steps| && steps[i].Process? :: steps[i].saved
  }

  // Nothing goes wrong but deliveries: every write is accepted, every answer is heard, and the
  // daemon is not stopped.
  ghost predicate Smooth(steps: seq<Step>) {
    forall i | 0 <= i < |steps| ::
      !steps[i].Cut? && !steps[i].Restart? && (steps[i].Process? ==> steps[i].saved && !Unheard(steps[i].conditions))
  }

  // No daemon of the run has more workers than this.
  ghost predicate PoolsWithin(steps: seq<Step>, most: nat) {
    forall i | 0 <= i < |steps| && steps[i].Restart? :: steps[i].workers <= most
  }

  lemma RestOfRun(steps: seq<Step>, most: nat)
    requires steps != []
    ensures PoolsWithin(steps, most) ==> PoolsWithin(steps[1..], most)
    ensures NoWriteRefused(steps) ==> NoWriteRefused(steps[1..])
  {
    assert forall i | 0 <= i < |steps[1..]| :: steps[1..][i] == steps[i + 1];
  }

  // ---- What every step of every interleaving keeps ----

  ghost predicate SoundRow(r: Row) {
    && r.state != Delivering
    && (r.deliveredAt.Some? <==> r.state == Delivered)
  }

  // A snapshot is of a row that still exists, and never runs ahead of it.
  ghost predicate SoundBatch(rows: Rows, p: Poller) {
    && DistinctIds(p.batch)
    && forall i | 0 <= i < |p.batch| ::
         var item := p.batch[i];
         && item.dlvID in rows
         && item.row.maxAttempts == rows[item.dlvID].maxAttempts
         && item.row.attempts <= rows[item.dlvID].attempts
  }

  ghost predicate Inv(s: System) {
    && s.rows.Keys == s.enqueuedAt.Keys
    && (forall id | id in s.rows :: SoundRow(s.rows[id]))
    && (forall w | 0 <= w < |s.pollers| :: SoundBatch(s.rows, s.pollers[w]))
  }

  // Rows are never removed, never lose attempts and never change their limit.
  ghost predicate Grows(s: System, s': System) {
    && s.now <= s'.now
    && forall id | id in s.rows ::
         && id in s'.rows
         && s.rows[id].attempts <= s'.rows[id].attempts
         && s.rows[id].maxAttempts == s'.rows[id].maxAttempts
  }

  // A snapshot stays sound while rows grow.
  lemma SoundWhileGrowing(rows: Rows, rows': Rows, p: Poller)
    requires SoundBatch(rows, p)
    requires forall id | id in rows ::
               && id in rows' && rows[id].attempts <= rows'[id].attempts
               && rows[id].maxAttempts == rows'[id].maxAttempts
    ensures SoundBatch(rows', p)
  {
  }

  lemma BatchStaysSound(schedule: Schedule, s: System, step: Step, w: nat)
    requires Inv(s) && w < |Apply(schedule, s, step).pollers|
    ensures var s' := Apply(schedule, s, step); SoundBatch(s'.rows, s'.pollers[w])
  {
    if !step.Restart? {
      assert SoundBatch(s.rows, s.pollers[w]);
      RowsStaySound(schedule, s, step);
      SoundWhileGrowing(s.rows, Apply(schedule, s, step).rows, s.pollers[w]);
    }
  }

  lemma VisitedRows(schedule: Schedule, rows: Rows, item: QueueItem, v: Visit)
    requires item.dlvID in rows && forall id | id in rows :: SoundRow(rows[id])
    ensures var rows' := Visited(schedule, rows, item, v);
            && rows'.Keys == rows.Keys
            && forall id | id in rows ::
                 SoundRow(rows'[id]) && rows[id].attempts <= rows'[id].attempts
                 && rows[id].maxAttempts == rows'[id].maxAttempts
  {
  }

  lemma RowsStaySound(schedule: Schedule, s: System, step: Step)
    requires Inv(s)
    ensures var s' := Apply(schedule, s, step);
            && Grows(s, s') && s'.rows.Keys == s'.enqueuedAt.Keys
            && forall id | id in s'.rows :: SoundRow(s'.rows[id])
  {
    if step.Process? && Enabled(s, step) {
      assert SoundBatch(s.rows, s.pollers[step.w]);
      VisitedRows(schedule, s.rows, s.pollers[step.w].batch[0],
                  Visit(step.conditions, step.decided, s.now, step.saved));
    }
  }

  lemma InvStep(schedule: Schedule, s: System, step: Step)
    requires Inv(s)
    ensures Inv(Apply(schedule, s, step)) && Grows(s, Apply(schedule, s, step))
  {
    RowsStaySound(schedule, s, step);
    forall w | 0 <= w < |Apply(schedule, s, step).pollers|
      ensures SoundBatch(Apply(schedule, s, step).rows, Apply(schedule, s, step).pollers[w])
    {
      BatchStaysSound(schedule, s, step, w);
    }
  }

  lemma {:induction false} InvAfter(schedule: Schedule, s: System, steps: seq<Step>)
    requires Inv(s)
    ensures Inv(After(schedule, s, steps)) && Grows(s, After(schedule, s, steps))
    decreases |steps|
  {
    if steps != [] {
      InvStep(schedule, s, steps[0]);
      InvAfter(schedule, Apply(schedule, s, steps[0]), steps[1..]);
    }
  }

  // In every interleaving of any number of workers delivered_at is set exactly on
  // delivered rows, and the state "delivering" is never stored.
  lemma DeliveredAtIffDelivered(schedule: Schedule, workers: nat, start: int, steps: seq<Step>, id: string)
    requires id in After(schedule, Init(workers, start), steps).rows
    ensures var r := After(schedule, Init(workers, start), steps).rows[id];
            (r.deliveredAt.Some? <==> r.state == Delivered) && r.state != Delivering
  {
    InvAfter(schedule, Init(workers, start), steps);
  }

  // ---- One row seen from the race: its attempts and who holds a snapshot of it ----

  ghost predicate Holding(p: Poller, id: string, low: bool) {
    exists i :: 0 <= i < |p.batch| && p.batch[i].dlvID == id && IsLow(p.batch[i]) == low
  }

  ghost function Holders(pollers: seq<Poller>, id: string, low: bool): nat
    decreases |pollers|
  {
    if pollers == [] then 0
    else (if Holding(pollers[0], id, low) then 1 else 0) + Holders(pollers[1..], id, low)
  }

  lemma {:induction false} HoldersUpdate(pollers: seq<Poller>, w: nat, p: Poller, id: string, low: bool)
    requires w < |pollers|
    ensures Holders(pollers[w := p], id, low)
         == Holders(pollers, id, low)
            - (if Holding(pollers[w], id, low) then 1 else 0) + (if Holding(p, id, low) then 1 else 0)
    decreases |pollers|
  {
    if w == 0 {
      assert pollers[w := p][1..] == pollers[1..];
    } else {
      assert pollers[w := p][1..] == pollers[1..][w - 1 := p];
      HoldersUpdate(pollers[1..], w - 1, p, id, low);
    }
  }

  // A worker holds at most one snapshot of a row, since the rows of one batch are distinct.
  lemma {:induction false} HoldersAtMostWorkers(rows: Rows, pollers: seq<Poller>, id: string)
    requires forall w | 0 <= w < |pollers| :: SoundBatch(rows, pollers[w])
    ensures Holders(pollers, id, true) + Holders(pollers, id, false) <= |pollers|
    decreases |pollers|
  {
    if pollers != [] {
      assert SoundBatch(rows, pollers[0]);
      HoldersAtMostWorkers(rows, pollers[1..], id);
    }
  }

  lemma {:induction false} NoHolders(pollers: seq<Poller>, id: string, low: bool)
    requires forall w | 0 <= w < |pollers| :: !Holding(pollers[w], id, low)
    ensures Holders(pollers, id, low) == 0
    decreases |pollers|
  {
    if pollers != [] {
      NoHolders(pollers[1..], id, low);
    }
  }

  datatype Shadow = Shadow(attempts: nat, pending: bool, low: nat, high: nat)

  ghost function ShadowOf(s: System, id: string): Shadow
    requires id in s.rows
  {
    Shadow(s.rows[id].attempts, Pending(s.rows[id]),
           Holders(s.pollers, id, true), Holders(s.pollers, id, false))
  }

  // All a step can do to one row with limit `max`: nothing; a worker takes a snapshot,
  // which is low as long as the row has more than one attempt left; a low snapshot is
  // used up, leaving the row in any state; a high one is used up, leaving it in a
  // final state; a snapshot is used up and nothing is written; or the daemon ends, and
  // with it all snapshots.
  ghost predicate ShadowStep(max: int, a: Shadow, b: Shadow) {
    || b == a
    || (a.pending && a.attempts + 1 < max && b == a.(low := a.low + 1))
    || (a.pending && a.attempts + 1 >= max && b == a.(high := a.high + 1))
    || (a.low > 0 && b == Shadow(a.attempts + 1, b.pending, a.low - 1, a.high))
    || (a.high > 0 && b == Shadow(a.attempts + 1, false, a.low, a.high - 1))
    || (a.low > 0 && b == a.(low := a.low - 1))
    || (a.high > 0 && b == a.(high := a.high - 1))
    || b == a.(low := 0, high := 0)
  }

  lemma ShadowFetch(schedule: Schedule, s: System, step: Step, id: string)
    requires Inv(s) && id in s.rows && step.Fetch? && Enabled(s, step)
    ensures ShadowStep(s.rows[id].maxAttempts, ShadowOf(s, id), ShadowOf(Apply(schedule, s, step), id))
  {
    var p := Poller(s.now, step.items);
    HoldersUpdate(s.pollers, step.w, p, id, true);
    HoldersUpdate(s.pollers, step.w, p, id, false);
    if i :| 0 <= i < |step.items| && step.items[i].dlvID == id {
      assert step.items[i].row == s.rows[id];
      assert Holding(p, id, IsLow(step.items[i]));
    }
  }

  // Using up the first snapshot of a batch: its row is no longer held, and other rows as before.
  lemma HoldingTail(p: Poller, id: string, low: bool)
    requires DistinctIds(p.batch) && p.batch != []
    ensures var p' := p.(batch := p.batch[1..]);
            if p.batch[0].dlvID == id
            then !Holding(p', id, low) && (Holding(p, id, low) <==> IsLow(p.batch[0]) == low)
            else Holding(p', id, low) == Holding(p, id, low)
  {
    var p' := p.(batch := p.batch[1..]);
    if p.batch[0].dlvID != id && Holding(p, id, low) {
      var i :| 0 <= i < |p.batch| && p.batch[i].dlvID == id && IsLow(p.batch[i]) == low;
      assert p'.batch[i - 1] == p.batch[i];
    }
  }

  lemma ShadowProcess(schedule: Schedule, s: System, step: Step, id: string)
    requires Inv(s) && id in s.rows && step.Process? && Enabled(s, step)
    ensures ShadowStep(s.rows[id].maxAttempts, ShadowOf(s, id), ShadowOf(Apply(schedule, s, step), id))
  {
    var p := s.pollers[step.w];
    var p' := p.(batch := p.batch[1..]);
    assert SoundBatch(s.rows, p);
    HoldersUpdate(s.pollers, step.w, p', id, true);
    HoldersUpdate(s.pollers, step.w, p', id, false);
    HoldingTail(p, id, true);
    HoldingTail(p, id, false);
    var s' := Apply(schedule, s, step);
    assert s'.pollers == s.pollers[step.w := p'];
    assert s'.rows == Visited(schedule, s.rows, p.batch[0], Visit(step.conditions, step.decided, s.now, step.saved));
  }

  lemma ShadowCut(schedule: Schedule, s: System, step: Step, id: string)
    requires Inv(s) && id in s.rows && step.Cut? && Enabled(s, step)
    ensures ShadowStep(s.rows[id].maxAttempts, ShadowOf(s, id), ShadowOf(Apply(schedule, s, step), id))
  {
    var p := s.pollers[step.w].(batch := []);
    assert SoundBatch(s.rows, s.pollers[step.w]);
    HoldersUpdate(s.pollers, step.w, p, id, true);
    HoldersUpdate(s.pollers, step.w, p, id, false);
  }

  lemma ShadowRestart(schedule: Schedule, s: System, step: Step, id: string)
    requires id in s.rows && step.Restart?
    ensures ShadowOf(Apply(schedule, s, step), id) == ShadowOf(s, id).(low := 0, high := 0)
  {
    NoHolders(Idlers(step.workers, s.now), id, true);
    NoHolders(Idlers(step.workers, s.now), id, false);
  }

  // The full system, looked at through one row, takes only shadow steps.
  lemma ShadowRefines(schedule: Schedule, s: System, step: Step, id: string)
    requires Inv(s) && id in s.rows
    ensures var s' := Apply(schedule, s, step);
            id in s'.rows && ShadowStep(s.rows[id].maxAttempts, ShadowOf(s, id), ShadowOf(s', id))
  {
    if Enabled(s, step) {
      if step.Fetch? {
        ShadowFetch(schedule, s, step, id);
      } else if step.Process? {
        ShadowProcess(schedule, s, step, id);
      } else if step.Cut? {
        ShadowCut(schedule, s, step, id);
      } else if step.Restart? {
        ShadowRestart(schedule, s, step, id);
      }
    }
  }

  // ---- One worker's batch, processed without interruption, is a run of the system ----

  // The clock readings of the attempts on `items`, in order, by a worker that polled at `fetched`.
  ghost predicate InClockOrder(items: seq<QueueItem>, visits: string -> Visit, fetched: int, now: int) {
    && (forall i | 0 <= i < |items| ::
          var v := visits(items[i].dlvID);
          fetched <= v.decided <= v.written && now <= v.written)
    && (forall i, j | 0 <= i < j < |items| :: visits(items[i].dlvID).written <= visits(items[j].dlvID).written)
  }

  lemma {:induction false} RestOfBatch(schedule: Schedule, s: System, w: nat, visits: string -> Visit)
    returns (steps: seq<Step>)
    requires w < |s.pollers| && InClockOrder(s.pollers[w].batch, visits, s.pollers[w].fetchedAt, s.now)
    ensures After(schedule, s, steps).rows == AllVisited(schedule, s.rows, s.pollers[w].batch, visits)
    decreases |s.pollers[w].batch|
  {
    var p := s.pollers[w];
    steps := [];
    if p.batch != [] {
      var v := visits(p.batch[0].dlvID);
      var tick, process := Tick(v.written), Process(w, v.conditions, v.decided, v.saved);
      var s1 := Apply(schedule, s, tick);
      var s2 := Apply(schedule, s1, process);
      assert s2.rows == Visited(schedule, s.rows, p.batch[0], v);
      steps := RestOfBatch(schedule, s2, w, visits);
      assert ([tick, process] + steps)[1..] == [process] + steps && ([process] + steps)[1..] == steps;
      assert After(schedule, s, [tick, process] + steps)
          == After(schedule, s1, [process] + steps) == After(schedule, s2, steps);
      steps := [tick, process] + steps;
    }
  }

  // What ProcessBatch does to the table, the step system can do in one go of one poller.
  lemma BatchIsRun(schedule: Schedule, s: System, w: nat, items: seq<QueueItem>, visits: string -> Visit)
    returns (steps: seq<Step>)
    requires Enabled(s, Fetch(w, items)) && InClockOrder(items, visits, s.now, s.now)
    ensures After(schedule, s, steps).rows == AllVisited(schedule, s.rows, items, visits)
  {
    var s1 := Apply(schedule, s, Fetch(w, items));
    var rest := RestOfBatch(schedule, s1, w, visits);
    steps := [Fetch(w, items)] + rest;
    assert steps[1..] == rest;
  }
}
