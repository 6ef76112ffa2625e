// Writes, moves, deletes and cleanups running at the same time on one file
// system, interleaved step by step: messages are neither copied nor lost.
module SpoolRuns {
  import opened Common
  import opened Spool

  // What one operation has still to do. A Write becomes a Move once its file has a name; the
  // cleanup holds at most one file that it has found expired and not yet removed.
  datatype Proc =
    | Opening(id: string, data: Bytes)
    | Filling(id: string, data: Bytes, n: nat)
    | Checking(id: string, src: Stage, dst: Stage)
    | Renaming(id: string, src: Stage, dst: Stage)
    | Deleting(id: string, stage: Stage)
    | Sweeping(started: int, doomed: Option<Path>)
    | Ended(ok: bool)

  // History variables: `offered` is what each identifier was to carry, `writers` which process
  // is its Write, and `written` the file that the Write gave its name.
  datatype System = System(
    now: int,
    files: Files,
    procs: seq<Proc>,
    offered: map<string, Bytes>,
    writers: map<string, nat>,
    written: map<string, File>)

  // `fault` makes the file system refuse the step; `entry` is the file a cleanup looks at next.
  datatype Step =
    | Tick(to: int)
    | StartWrite(id: string, data: Bytes)
    | StartMove(id: string, src: Stage, dst: Stage)
    | StartDelete(id: string, stage: Stage)
    | StartCleanup
    | Act(i: nat, fault: bool, entry: Path)

  // What one step of an operation leaves.
  datatype Outcome = Outcome(proc: Proc, files: Files, written: map<string, File>)

  function OutcomeOf(retention: Retention, s: System, p: Proc, fault: bool, entry: Path): Outcome {
    match p
    case Opening(id, data) =>
      var partial := Path(Tmp, Partial(id));
      if fault || partial in s.files then Outcome(Ended(false), s.files, s.written)
      else Outcome(Filling(id, data, 0), s.files[partial := File([], s.now)], s.written)
    case Filling(id, data, n) =>
      var partial := Path(Tmp, Partial(id));
      if fault then Outcome(Ended(false), s.files - {partial}, s.written)
      else if n < |data| then
        // A file that was removed meanwhile goes on being written without a name.
        Outcome(Filling(id, data, n + 1),
                if partial in s.files then s.files[partial := File(data[..n + 1], s.now)] else s.files,
                s.written)
      else if partial !in s.files then Outcome(Ended(false), s.files, s.written)
      else
        Outcome(Checking(id, Tmp, Incoming), MovedFiles(s.files, partial, At(Tmp, id)),
                s.written[id := s.files[partial]])
    case Checking(id, src, dst) =>
      Outcome(if fault || At(src, id) !in s.files then Ended(false) else Renaming(id, src, dst), s.files, s.written)
    case Renaming(id, src, dst) =>
      if fault || At(src, id) !in s.files then Outcome(Ended(false), s.files, s.written)
      else Outcome(Ended(true), MovedFiles(s.files, At(src, id), At(dst, id)), s.written)
    case Deleting(id, stage) =>
      Outcome(Ended(!fault), if fault then s.files else s.files - {At(stage, id)}, s.written)
    case Sweeping(started, doomed) =>
      if doomed.Some? then
        Outcome(Sweeping(started, None), if fault then s.files else s.files - {doomed.value}, s.written)
      else if !fault && entry in s.files && Expired(entry, s.files[entry], retention, started) then
        Outcome(Sweeping(started, Some(entry)), s.files, s.written)
      else Outcome(p, s.files, s.written)
    case Ended(_) => Outcome(p, s.files, s.written)
  }

  function Acted(retention: Retention, s: System, i: nat, fault: bool, entry: Path): System
    requires i < |s.procs|
  {
    var o := OutcomeOf(retention, s, s.procs[i], fault, entry);
    s.(procs := s.procs[i := o.proc], files := o.files, written := o.written)
  }

  // A Write carries an identifier drawn for it; every other operation may be started on anything.
  function Apply(retention: Retention, s: System, step: Step): System {
    match step
    case Tick(to) => if s.now <= to then s.(now := to) else s
    case StartWrite(id, data) =>
      if id in s.offered then s
      else
        s.(procs := s.procs + [Opening(id, data)], offered := s.offered[id := data],
           writers := s.writers[id := |s.procs|])
    case StartMove(id, src, dst) => if src == dst then s else s.(procs := s.procs + [Checking(id, src, dst)])
    case StartDelete(id, stage) => s.(procs := s.procs + [Deleting(id, stage)])
    case StartCleanup => s.(procs := s.procs + [Sweeping(s.now, None)])
    case Act(i, fault, entry) => if i < |s.procs| then Acted(retention, s, i, fault, entry) else s
  }

  function Run(retention: Retention, s: System, steps: seq<Step>): System
    decreases |steps|
  {
    if steps == [] then s else Run(retention, Apply(retention, s, steps[0]), steps[1..])
  }

  function Init(now: int): System {
    System(now, map[], [], map[], map[], map[])
  }

  // ---- What every interleaving keeps ----

  predicate IsWriter(p: Proc, id: string) {
    (p.Opening? || p.Filling?) && p.id == id
  }

  ghost predicate SoundFiles(s: System) {
    && (forall stage, id | At(stage, id) in s.files :: id in s.written && s.files[At(stage, id)] == s.written[id])
    && (forall a: Stage, b: Stage, id | At(a, id) in s.files && At(b, id) in s.files :: a == b)
    && (forall id | id in s.written :: id in s.offered && s.written[id].bytes == s.offered[id])
    && (forall p | p in s.files && p.name.Partial? :: p.stage == Tmp)
  }

  ghost predicate SoundProc(retention: Retention, s: System, p: Proc) {
    match p
    case Opening(id, data) =>
      id in s.offered && s.offered[id] == data && id !in s.written && Path(Tmp, Partial(id)) !in s.files
    case Filling(id, data, n) =>
      && id in s.offered && s.offered[id] == data && id !in s.written && n <= |data|
      && (Path(Tmp, Partial(id)) in s.files ==> s.files[Path(Tmp, Partial(id))].bytes == data[..n])
    case Checking(_, src, dst) => src != dst
    case Renaming(_, src, dst) => src != dst
    case Sweeping(started, doomed) =>
      && started <= s.now
      && (doomed.Some? && doomed.value.name.Message? ==>
            var id := doomed.value.name.id;
            id in s.written && Expired(doomed.value, s.written[id], retention, started))
    case _ => true
  }

  ghost predicate OneWriter(procs: seq<Proc>) {
    forall i, j, id | 0 <= i < j < |procs| && IsWriter(procs[i], id) :: !IsWriter(procs[j], id)
  }

  ghost predicate PartialsOwned(s: System) {
    forall id | Path(Tmp, Partial(id)) in s.files :: id in s.offered
  }

  ghost predicate Inv(retention: Retention, s: System) {
    && SoundFiles(s) && OneWriter(s.procs) && PartialsOwned(s)
    && forall i | 0 <= i < |s.procs| :: SoundProc(retention, s, s.procs[i])
  }

  // What an operation is sound about stays so while the files of other writes change.
  ghost predicate Undisturbed(s: System, s': System, p: Proc) {
    && s'.now == s.now && s'.offered == s.offered
    && (forall id | id in s.written :: id in s'.written && s'.written[id] == s.written[id])
    && (p.Opening? || p.Filling? ==>
          var partial := Path(Tmp, Partial(p.id));
          && (p.id in s'.written ==> p.id in s.written)
          && (partial in s'.files ==> partial in s.files && s'.files[partial] == s.files[partial]))
  }

  lemma UndisturbedStaysSound(retention: Retention, s: System, s': System, p: Proc)
    requires SoundProc(retention, s, p) && Undisturbed(s, s', p)
    ensures SoundProc(retention, s', p)
  {
  }

  lemma OthersUndisturbed(retention: Retention, s: System, i: nat, fault: bool, entry: Path, p: Proc)
    requires i < |s.procs| && SoundProc(retention, s, s.procs[i])
    requires forall id | IsWriter(s.procs[i], id) :: !IsWriter(p, id)
    ensures Undisturbed(s, Acted(retention, s, i, fault, entry), p)
  {
    var s', q := Acted(retention, s, i, fault, entry), s.procs[i];
    if q.Opening? || q.Filling? {
      assert IsWriter(q, q.id);
    } else {
      assert s'.written == s.written;
      assert forall id | Path(Tmp, Partial(id)) in s'.files :: Path(Tmp, Partial(id)) in s.files;
    }
  }

  lemma ActorStaysSound(retention: Retention, s: System, i: nat, fault: bool, entry: Path)
    requires SoundFiles(s) && i < |s.procs| && SoundProc(retention, s, s.procs[i])
    ensures SoundProc(retention, Acted(retention, s, i, fault, entry), Acted(retention, s, i, fault, entry).procs[i])
  {
    if entry.name.Message? {
      assert entry == At(entry.stage, entry.name.id);
    }
  }

  lemma FewerFilesSound(s: System, s': System, gone: Path)
    requires SoundFiles(s) && s'.files == s.files - {gone} && s'.written == s.written && s'.offered == s.offered
    ensures SoundFiles(s')
  {
  }

  lemma PartialFileSound(s: System, s': System, id: string, f: File)
    requires SoundFiles(s) && s'.files == s.files[Path(Tmp, Partial(id)) := f]
    requires s'.written == s.written && s'.offered == s.offered
    ensures SoundFiles(s')
  {
  }

  // A written file gets its name in tmp.
  lemma NamedFileSound(s: System, s': System, id: string)
    requires SoundFiles(s) && id in s.offered && id !in s.written && Path(Tmp, Partial(id)) in s.files
    requires s.files[Path(Tmp, Partial(id))].bytes == s.offered[id] && s'.offered == s.offered
    requires s'.files == MovedFiles(s.files, Path(Tmp, Partial(id)), At(Tmp, id))
    requires s'.written == s.written[id := s.files[Path(Tmp, Partial(id))]]
    ensures SoundFiles(s')
  {
    assert forall stage :: At(stage, id) !in s.files;
    assert forall p | p in s'.files :: p == At(Tmp, id) || p in s.files;
  }

  lemma RenamedFileSound(s: System, s': System, id: string, src: Stage, dst: Stage)
    requires SoundFiles(s) && At(src, id) in s.files && src != dst
    requires s'.files == MovedFiles(s.files, At(src, id), At(dst, id))
    requires s'.written == s.written && s'.offered == s.offered
    ensures SoundFiles(s')
  {
    assert forall p | p in s'.files :: p == At(dst, id) || (p in s.files && p != At(src, id));
  }

  lemma FillingKeepsFilesSound(retention: Retention, s: System, i: nat, fault: bool, entry: Path)
    requires SoundFiles(s) && i < |s.procs| && s.procs[i].Filling? && SoundProc(retention, s, s.procs[i])
    ensures SoundFiles(Acted(retention, s, i, fault, entry))
  {
    var s', p := Acted(retention, s, i, fault, entry), s.procs[i];
    var partial := Path(Tmp, Partial(p.id));
    if fault {
      FewerFilesSound(s, s', partial);
    } else if partial in s.files {
      if p.n < |p.data| {
        PartialFileSound(s, s', p.id, File(p.data[..p.n + 1], s.now));
      } else {
        assert p.data[..p.n] == p.data;
        NamedFileSound(s, s', p.id);
      }
    }
  }

  lemma FilesStaySound(retention: Retention, s: System, i: nat, fault: bool, entry: Path)
    requires SoundFiles(s) && i < |s.procs| && SoundProc(retention, s, s.procs[i])
    ensures SoundFiles(Acted(retention, s, i, fault, entry))
  {
    var s' := Acted(retention, s, i, fault, entry);
    match s.procs[i] {
      case Opening(id, _) =>
        if s'.files != s.files {
          PartialFileSound(s, s', id, File([], s.now));
        }
      case Filling(_, _, _) => FillingKeepsFilesSound(retention, s, i, fault, entry);
      case Renaming(id, src, dst) =>
        if s'.files != s.files {
          RenamedFileSound(s, s', id, src, dst);
        }
      case Deleting(id, stage) =>
        if !fault {
          FewerFilesSound(s, s', At(stage, id));
        }
      case Sweeping(_, doomed) =>
        if doomed.Some? && !fault {
          FewerFilesSound(s, s', doomed.value);
        }
      case _ =>
    }
  }

  lemma PartialsStayOwned(retention: Retention, s: System, i: nat, fault: bool, entry: Path)
    requires PartialsOwned(s) && i < |s.procs| && SoundProc(retention, s, s.procs[i])
    ensures PartialsOwned(Acted(retention, s, i, fault, entry))
  {
  }

  // An operation becomes no writer, and stays at its place.
  ghost predicate KeepsRole(p: Proc, p': Proc) {
    p'.Opening? || p'.Filling? ==> IsWriter(p, p'.id)
  }

  lemma ActorKeepsRole(retention: Retention, s: System, i: nat, fault: bool, entry: Path)
    requires i < |s.procs|
    ensures var s' := Acted(retention, s, i, fault, entry);
            s'.procs == s.procs[i := s'.procs[i]] && KeepsRole(s.procs[i], s'.procs[i])
  {
    if s.procs[i].Ended? {
      assert s.procs[i := s.procs[i]] == s.procs;
    }
  }

  lemma OneWriterUpdate(procs: seq<Proc>, i: nat, p: Proc)
    requires OneWriter(procs) && i < |procs| && KeepsRole(procs[i], p)
    ensures OneWriter(procs[i := p])
  {
  }

  lemma StartKeepsProc(retention: Retention, s: System, step: Step, j: nat)
    requires Inv(retention, s) && !step.Act? && j < |Apply(retention, s, step).procs|
    ensures SoundProc(retention, Apply(retention, s, step), Apply(retention, s, step).procs[j])
  {
  }

  lemma StartKeepsOneWriter(retention: Retention, s: System, step: Step)
    requires Inv(retention, s) && !step.Act?
    ensures OneWriter(Apply(retention, s, step).procs)
  {
  }

  lemma InvStart(retention: Retention, s: System, step: Step)
    requires Inv(retention, s) && !step.Act?
    ensures Inv(retention, Apply(retention, s, step))
  {
    var s' := Apply(retention, s, step);
    StartKeepsOneWriter(retention, s, step);
    forall j | 0 <= j < |s'.procs| ensures SoundProc(retention, s', s'.procs[j]) {
      StartKeepsProc(retention, s, step, j);
    }
    assert SoundFiles(s');
  }

  lemma ProcStaysSound(retention: Retention, s: System, i: nat, fault: bool, entry: Path, j: nat)
    requires Inv(retention, s) && i < |s.procs| && j < |s.procs| && i != j
    ensures SoundProc(retention, Acted(retention, s, i, fault, entry), s.procs[j])
  {
    assert SoundProc(retention, s, s.procs[i]) && SoundProc(retention, s, s.procs[j]);
    OthersUndisturbed(retention, s, i, fault, entry, s.procs[j]);
    UndisturbedStaysSound(retention, s, Acted(retention, s, i, fault, entry), s.procs[j]);
  }

  lemma InvAct(retention: Retention, s: System, i: nat, fault: bool, entry: Path, s': System)
    requires Inv(retention, s) && i < |s.procs| && s' == Acted(retention, s, i, fault, entry)
    ensures Inv(retention, s')
  {
    assert SoundProc(retention, s, s.procs[i]);
    FilesStaySound(retention, s, i, fault, entry);
    PartialsStayOwned(retention, s, i, fault, entry);
    ActorStaysSound(retention, s, i, fault, entry);
    ActorKeepsRole(retention, s, i, fault, entry);
    OneWriterUpdate(s.procs, i, s'.procs[i]);
    forall j | 0 <= j < |s'.procs| ensures SoundProc(retention, s', s'.procs[j]) {
      if j != i {
        ProcStaysSound(retention, s, i, fault, entry, j);
      }
    }
  }

  lemma InvStep(retention: Retention, s: System, step: Step)
    requires Inv(retention, s)
    ensures Inv(retention, Apply(retention, s, step))
  {
    if !step.Act? {
      InvStart(retention, s, step);
    } else if step.i < |s.procs| {
      InvAct(retention, s, step.i, step.fault, step.entry, Apply(retention, s, step));
    }
  }

  lemma {:induction false} InvRun(retention: Retention, s: System, steps: seq<Step>)
    requires Inv(retention, s)
    ensures Inv(retention, Run(retention, s, steps))
    decreases |steps|
  {
    if steps != [] {
      InvStep(retention, s, steps[0]);
      InvRun(retention, Apply(retention, s, steps[0]), steps[1..]);
    }
  }

  // Under any interleaving a message rests in at most one stage, with the bytes its Write was given.
  lemma RestsOnceAsWritten(retention: Retention, start: int, steps: seq<Step>, id: string, a: Stage, b: Stage)
    requires At(a, id) in Run(retention, Init(start), steps).files
    ensures var s := Run(retention, Init(start), steps);
            && id in s.offered && s.files[At(a, id)].bytes == s.offered[id]
            && (At(b, id) in s.files ==> a == b)
  {
    InvRun(retention, Init(start), steps);
  }

  // ---- How messages come and go ----

  ghost predicate Resting(files: Files, id: string) {
    exists stage :: At(stage, id) in files
  }

  // The step is a Delete, or a cleanup that began when the message was older than the
  // retention of the stage it is in.
  ghost predicate MayRemove(retention: Retention, s: System, step: Step, id: string) {
    && step.Act? && step.i < |s.procs| && !step.fault && id in s.written
    && match s.procs[step.i]
       case Deleting(k, stage) => k == id && At(stage, id) in s.files
       case Sweeping(started, doomed) =>
         && started <= s.now && doomed.Some? && doomed.value.name == Message(id) && doomed.value in s.files
         && doomed.value.stage in retention
         && 0 < retention[doomed.value.stage] < started - s.written[id].mtime
       case _ => false
  }

  // A message vanishes by Delete or by retention, and in no other way.
  lemma VanishesOnlyWhenRemoved(retention: Retention, s: System, step: Step, id: string)
    requires Inv(retention, s) && Resting(s.files, id) && !Resting(Apply(retention, s, step).files, id)
    ensures MayRemove(retention, s, step, id)
  {
    var stage :| At(stage, id) in s.files;
    assert SoundProc(retention, s, s.procs[step.i]);
  }

  lemma NewlyWrittenRests(retention: Retention, s: System, step: Step, id: string)
    ensures id in Apply(retention, s, step).written && id !in s.written ==> Resting(Apply(retention, s, step).files, id)
    ensures id in s.written ==> id in Apply(retention, s, step).written
  {
    if id in Apply(retention, s, step).written && id !in s.written {
      assert At(Tmp, id) in Apply(retention, s, step).files;
    }
  }

  lemma {:induction false} LostWasRemoved(retention: Retention, s: System, steps: seq<Step>, id: string)
    returns (n: nat)
    requires Inv(retention, s) && (id in s.written ==> Resting(s.files, id))
    requires id in Run(retention, s, steps).written && !Resting(Run(retention, s, steps).files, id)
    ensures n < |steps| && MayRemove(retention, Run(retention, s, steps[..n]), steps[n], id)
    decreases |steps|
  {
    var s1 := Apply(retention, s, steps[0]);
    InvStep(retention, s, steps[0]);
    if Resting(s.files, id) && !Resting(s1.files, id) {
      VanishesOnlyWhenRemoved(retention, s, steps[0], id);
      return 0;
    }
    NewlyWrittenRests(retention, s, steps[0], id);
    n := LostWasRemoved(retention, s1, steps[1..], id);
    assert steps[..n + 1][1..] == steps[1..][..n];
    n := n + 1;
  }

  // After any run a message that was put into the spool rests in some stage, or some step of
  // the run was a Delete of it or a cleanup that found it past its retention.
  lemma RestsUnlessRemoved(retention: Retention, start: int, steps: seq<Step>, id: string) returns (n: nat)
    requires id in Run(retention, Init(start), steps).written
    ensures Resting(Run(retention, Init(start), steps).files, id)
            || (n < |steps| && MayRemove(retention, Run(retention, Init(start), steps[..n]), steps[n], id))
  {
    n := 0;
    if !Resting(Run(retention, Init(start), steps).files, id) {
      n := LostWasRemoved(retention, Init(start), steps, id);
    }
  }

  // ---- A sweep that looks everywhere leaves nothing too old ----

  // The cleanup at `i` looks at `p`, without a fault.
  predicate LooksAt(s: System, step: Step, i: nat, p: Path) {
    && i < |s.procs| && step == Act(i, false, p)
    && s.procs[i].Sweeping? && s.procs[i].doomed == None
  }

  // No step of the run writes `p`, nor moves a file there.
  ghost predicate NeverWritten(retention: Retention, s: System, steps: seq<Step>, p: Path)
    decreases |steps|
  {
    steps != [] ==>
      var s' := Apply(retention, s, steps[0]);
      && (p in s'.files ==> p in s.files && s'.files[p] == s.files[p])
      && NeverWritten(retention, s', steps[1..], p)
  }

  // The run has the cleanup at `i` look at `p`.
  ghost predicate Looked(retention: Retention, s: System, steps: seq<Step>, i: nat, p: Path)
    decreases |steps|
  {
    steps != [] && (LooksAt(s, steps[0], i, p) || Looked(retention, Apply(retention, s, steps[0]), steps[1..], i, p))
  }

  // No step of the cleanup at `i` meets a fault.
  predicate Faultless(steps: seq<Step>, i: nat) {
    forall n | 0 <= n < |steps| && steps[n].Act? && steps[n].i == i :: !steps[n].fault
  }

  // The cleanup holds the file it found too old, or has removed it.
  ghost predicate Condemned(s: System, i: nat, started: int, p: Path) {
    i < |s.procs| && s.procs[i].Sweeping? && s.procs[i].started == started
    && (p in s.files ==> s.procs[i].doomed == Some(p))
  }

  lemma CondemnedStep(retention: Retention, s: System, step: Step, i: nat, started: int, p: Path)
    requires Condemned(s, i, started, p) && Faultless([step], i)
    requires p in Apply(retention, s, step).files ==> p in s.files
    ensures Condemned(Apply(retention, s, step), i, started, p)
  {
    assert [step][0] == step;
  }

  lemma {:induction false} CondemnedRun(retention: Retention, s: System, steps: seq<Step>, i: nat,
                                        started: int, p: Path)
    requires Condemned(s, i, started, p) && Faultless(steps, i) && NeverWritten(retention, s, steps, p)
    ensures Condemned(Run(retention, s, steps), i, started, p)
    decreases |steps|
  {
    if steps != [] {
      assert Faultless([steps[0]], i) && forall n | 0 <= n < |steps[1..]| :: steps[1..][n] == steps[n + 1];
      CondemnedStep(retention, s, steps[0], i, started, p);
      CondemnedRun(retention, Apply(retention, s, steps[0]), steps[1..], i, started, p);
    }
  }

  // Looking at a file that is too old condemns it.
  lemma LookCondemns(retention: Retention, s: System, step: Step, i: nat, started: int, p: Path)
    requires LooksAt(s, step, i, p) && s.procs[i].started == started
    requires p in s.files ==>
               && p.stage in retention && retention[p.stage] > 0
               && started - s.files[p].mtime > retention[p.stage]
    ensures Condemned(Apply(retention, s, step), i, started, p)
  {
  }

  lemma StaysSweeping(retention: Retention, s: System, step: Step, i: nat)
    requires i < |s.procs| && s.procs[i].Sweeping?
    ensures var s' := Apply(retention, s, step);
            i < |s'.procs| && s'.procs[i].Sweeping? && s'.procs[i].started == s.procs[i].started
  {
  }

  // Once a cleanup has looked at a file without a fault, and removed what it found too old, the
  // file is gone if it was older than its stage's retention when the cleanup began, unless
  // something was written there meanwhile. Looking at every file, a sweep leaves none too old.
  lemma {:induction false} SweepLeavesNothingOld(retention: Retention, s: System, steps: seq<Step>, i: nat,
                                                 started: int, p: Path)
    requires i < |s.procs| && s.procs[i].Sweeping? && s.procs[i].started == started
    requires p in s.files ==>
               && p.stage in retention && retention[p.stage] > 0
               && started - s.files[p].mtime > retention[p.stage]
    requires Looked(retention, s, steps, i, p) && Faultless(steps, i) && NeverWritten(retention, s, steps, p)
    requires i < |Run(retention, s, steps).procs| && Run(retention, s, steps).procs[i] == Sweeping(started, None)
    ensures p !in Run(retention, s, steps).files
    decreases |steps|
  {
    var step, s', rest := steps[0], Apply(retention, s, steps[0]), steps[1..];
    assert forall n | 0 <= n < |rest| :: rest[n] == steps[n + 1];
    if LooksAt(s, step, i, p) {
      LookCondemns(retention, s, step, i, started, p);
      CondemnedRun(retention, s', rest, i, started, p);
    } else {
      StaysSweeping(retention, s, step, i);
      SweepLeavesNothingOld(retention, s', rest, i, started, p);
    }
  }

  // ---- What a Write answers, and what is kept ----

  // How the Write of `id` stands: it has its name before it moves on, and may fail at any time.
  ghost predicate AtWork(s: System, id: string, p: Proc) {
    match p
    case Opening(k, _) => k == id && id !in s.written
    case Filling(k, _, _) => k == id && id !in s.written
    case Checking(k, src, dst) => k == id && src == Tmp && dst == Incoming && id in s.written
    case Renaming(k, src, dst) => k == id && src == Tmp && dst == Incoming && id in s.written
    case Ended(ok) => ok ==> id in s.written
    case _ => false
  }

  ghost predicate WriteSound(s: System, id: string) {
    id in s.writers && s.writers[id] < |s.procs| && AtWork(s, id, s.procs[s.writers[id]])
  }

  ghost predicate HasWriter(s: System, id: string, i: nat) {
    id in s.offered && id in s.writers && s.writers[id] == i
  }

  ghost predicate AnswersSound(s: System) {
    && (forall id | id in s.offered :: WriteSound(s, id))
    && (forall i, id | 0 <= i < |s.procs| && IsWriter(s.procs[i], id) :: HasWriter(s, id, i))
    && (forall id | id in s.written :: id in s.offered)
  }

  // What is known of the operations under way is not touched by one that joins them.
  lemma AnswersJoined(s: System, s': System, p: Proc)
    requires AnswersSound(s) && s'.procs == s.procs + [p] && s'.written == s.written
    requires forall id | id in s.offered :: id in s.writers && HasWriter(s', id, s.writers[id])
    requires forall id | id in s'.offered && id !in s.offered :: WriteSound(s', id)
    requires forall id | IsWriter(p, id) :: HasWriter(s', id, |s.procs|)
    ensures AnswersSound(s')
  {
    forall id | id in s'.offered ensures WriteSound(s', id) {
      if id in s.offered {
        assert WriteSound(s, id);
      }
    }
    forall i, id | 0 <= i < |s'.procs| && IsWriter(s'.procs[i], id) ensures HasWriter(s', id, i) {
      if i < |s.procs| {
        assert IsWriter(s.procs[i], id) && HasWriter(s, id, i);
      }
    }
  }

  lemma AnswersStart(retention: Retention, s: System, step: Step)
    requires AnswersSound(s) && !step.Act?
    ensures AnswersSound(Apply(retention, s, step))
  {
    var s' := Apply(retention, s, step);
    if s'.procs != s.procs {
      AnswersJoined(s, s', s'.procs[|s.procs|]);
    } else {
      assert s' == s.(now := s'.now);
      AnswersTick(s, s');
    }
  }

  lemma AnswersTick(s: System, s': System)
    requires AnswersSound(s) && s' == s.(now := s'.now)
    ensures AnswersSound(s')
  {
    assert forall id | id in s.offered :: WriteSound(s, id) == WriteSound(s', id);
    assert forall i, id | 0 <= i < |s.procs| && IsWriter(s.procs[i], id) :: HasWriter(s, id, i) && HasWriter(s', id, i);
  }

  lemma WriteActs(retention: Retention, s: System, fault: bool, entry: Path, id: string)
    requires WriteSound(s, id)
    ensures WriteSound(Acted(retention, s, s.writers[id], fault, entry), id)
  {
  }

  // Only the Write of `id` itself gives the message its name.
  lemma OtherActs(retention: Retention, s: System, i: nat, fault: bool, entry: Path, id: string)
    requires WriteSound(s, id) && i < |s.procs| && i != s.writers[id] && !IsWriter(s.procs[i], id)
    ensures WriteSound(Acted(retention, s, i, fault, entry), id)
  {
    var s' := Acted(retention, s, i, fault, entry);
    assert s'.procs[s.writers[id]] == s.procs[s.writers[id]] && s'.writers == s.writers;
    assert id in s'.written <==> id in s.written;
  }

  lemma AnswersAct(retention: Retention, s: System, i: nat, fault: bool, entry: Path)
    requires AnswersSound(s) && i < |s.procs|
    ensures AnswersSound(Acted(retention, s, i, fault, entry))
  {
    var s' := Acted(retention, s, i, fault, entry);
    forall id | id in s.offered ensures WriteSound(s', id) {
      if s.writers[id] == i {
        WriteActs(retention, s, fault, entry, id);
      } else {
        OtherActs(retention, s, i, fault, entry, id);
      }
    }
    ActorKeepsRole(retention, s, i, fault, entry);
    NamesOffered(retention, s, i, fault, entry);
    forall j, id | 0 <= j < |s'.procs| && IsWriter(s'.procs[j], id)
      ensures HasWriter(s', id, j)
    {
      assert IsWriter(s.procs[j], id) && HasWriter(s, id, j);
    }
  }

  lemma NamesOffered(retention: Retention, s: System, i: nat, fault: bool, entry: Path)
    requires AnswersSound(s) && i < |s.procs|
    ensures var s' := Acted(retention, s, i, fault, entry);
            s'.offered == s.offered && s'.writers == s.writers && forall id | id in s'.written :: id in s.offered
  {
    var p := s.procs[i];
    if p.Filling? {
      assert IsWriter(p, p.id) && HasWriter(s, p.id, i);
    }
  }

  lemma {:induction false} AnswersRun(retention: Retention, s: System, steps: seq<Step>)
    requires AnswersSound(s)
    ensures AnswersSound(Run(retention, s, steps))
    decreases |steps|
  {
    if steps != [] {
      var step := steps[0];
      if !step.Act? {
        AnswersStart(retention, s, step);
      } else if step.i < |s.procs| {
        AnswersAct(retention, s, step.i, step.fault, step.entry);
      }
      AnswersRun(retention, Apply(retention, s, step), steps[1..]);
    }
  }

  // How the Write of `id` ended, if it did.
  ghost predicate Answered(s: System, id: string, ok: bool) {
    id in s.writers && s.writers[id] < |s.procs| && s.procs[s.writers[id]] == Ended(ok)
  }

  lemma EndsWell(retention: Retention, s: System, i: nat, fault: bool, entry: Path, id: string)
    requires SoundFiles(s) && i < |s.procs|
    requires AtWork(s, id, s.procs[i]) && s.procs[i] != Ended(true)
    requires Acted(retention, s, i, fault, entry).procs[i] == Ended(true)
    ensures var s' := Acted(retention, s, i, fault, entry);
            At(Incoming, id) in s'.files && id in s'.offered && s'.files[At(Incoming, id)].bytes == s'.offered[id]
  {
    assert s.procs[i] == Renaming(id, Tmp, Incoming);
  }

  // In every interleaving the step with which a Write ends well leaves its message complete in incoming.
  lemma AcceptedInIncoming(retention: Retention, start: int, steps: seq<Step>, step: Step, id: string)
    requires var s := Run(retention, Init(start), steps);
             id in s.offered && !Answered(s, id, true) && Answered(Apply(retention, s, step), id, true)
    ensures var s' := Apply(retention, Run(retention, Init(start), steps), step);
            At(Incoming, id) in s'.files && id in s'.offered && s'.files[At(Incoming, id)].bytes == s'.offered[id]
  {
    var s := Run(retention, Init(start), steps);
    assert SoundFiles(s) by {
      InvRun(retention, Init(start), steps);
    }
    assert WriteSound(s, id) by {
      AnswersRun(retention, Init(start), steps);
    }
    TheWriteActed(retention, s, step, id);
    EndsWell(retention, s, step.i, step.fault, step.entry, id);
  }

  lemma TheWriteActed(retention: Retention, s: System, step: Step, id: string)
    requires WriteSound(s, id) && id in s.offered
    requires !Answered(s, id, true) && Answered(Apply(retention, s, step), id, true)
    ensures step.Act? && step.i == s.writers[id]
  {
    if step.Act? && step.i < |s.procs| {
      ActorKeepsRole(retention, s, step.i, step.fault, step.entry);
      assert Acted(retention, s, step.i, step.fault, step.entry).writers == s.writers;
    }
  }

  ghost predicate NeverRemoved(retention: Retention, start: int, steps: seq<Step>, id: string) {
    forall n | 0 <= n < |steps| :: !MayRemove(retention, Run(retention, Init(start), steps[..n]), steps[n], id)
  }

  // In every interleaving a message that nobody removes rests in the spool, complete, exactly if
  // its Write gave it its name; so it does if the Write ended well, and if it failed only later.
  lemma KeptIffNamed(retention: Retention, start: int, steps: seq<Step>, id: string)
    requires NeverRemoved(retention, start, steps, id)
    ensures var s := Run(retention, Init(start), steps);
            && (Resting(s.files, id) <==> id in s.written)
            && (id in s.written ==> id in s.offered && s.written[id].bytes == s.offered[id])
            && (id in s.offered && Answered(s, id, true) ==> Resting(s.files, id))
  {
    var s := Run(retention, Init(start), steps);
    InvRun(retention, Init(start), steps);
    AnswersRun(retention, Init(start), steps);
    if id in s.written {
      var n := RestsUnlessRemoved(retention, start, steps, id);
    }
    if id in s.offered {
      assert WriteSound(s, id);
    }
  }

  // A Write that fails with its message in tmp: the answer is an error, and the message is kept.
  lemma RefusedButKept(retention: Retention, start: int, id: string) returns (steps: seq<Step>)
    ensures var s := Run(retention, Init(start), steps);
            && Answered(s, id, false) && At(Tmp, id) in s.files
            && id in s.offered && s.files[At(Tmp, id)].bytes == s.offered[id]
  {
    var s0, act, fault := Init(start), Act(0, false, ANY), Act(0, true, ANY);
    var s1 := Apply(retention, s0, StartWrite(id, []));
    var s2 := Apply(retention, s1, act);
    var s3 := Apply(retention, s2, act);
    var s4 := Apply(retention, s3, fault);
    RunOne(retention, s0, StartWrite(id, []));
    RunOne(retention, s1, act);
    RunOne(retention, s2, act);
    RunOne(retention, s3, fault);
    var a, b := [StartWrite(id, [])] + [act], [act] + [fault];
    RunConcat(retention, s0, [StartWrite(id, [])], [act]);
    RunConcat(retention, s2, [act], [fault]);
    RunConcat(retention, s0, a, b);
    steps := a + b;
  }

  // The moves into and out of one place, the writes that put a message there, and the removals.
  predicate ArrivesBy(s: System, q: Proc, p: Path) {
    match q
    case Renaming(id, src, dst) => At(src, id) in s.files && p == At(dst, id)
    case Filling(id, data, n) => n >= |data| && Path(Tmp, Partial(id)) in s.files && p == At(Tmp, id)
    case _ => false
  }

  predicate DepartsBy(s: System, q: Proc, p: Path) {
    q.Renaming? && p == At(q.src, q.id) && p in s.files
  }

  predicate IsRemovedBy(s: System, q: Proc, p: Path) {
    && p in s.files
    && match q
       case Deleting(id, stage) => p == At(stage, id)
       case Sweeping(_, doomed) => doomed == Some(p)
       case _ => false
  }

  predicate Acts(s: System, step: Step) {
    step.Act? && step.i < |s.procs| && !step.fault
  }

  predicate Arrives(s: System, step: Step, p: Path) {
    Acts(s, step) && ArrivesBy(s, s.procs[step.i], p)
  }

  predicate Departs(s: System, step: Step, p: Path) {
    Acts(s, step) && DepartsBy(s, s.procs[step.i], p)
  }

  predicate IsRemoved(s: System, step: Step, p: Path) {
    Acts(s, step) && IsRemovedBy(s, s.procs[step.i], p)
  }

  datatype Flow = Flow(arrivals: nat, departures: nat, removals: nat)

  function FlowOf(retention: Retention, s: System, steps: seq<Step>, p: Path): Flow
    decreases |steps|
  {
    if steps == [] then Flow(0, 0, 0)
    else
      var rest := FlowOf(retention, Apply(retention, s, steps[0]), steps[1..], p);
      Flow((if Arrives(s, steps[0], p) then 1 else 0) + rest.arrivals,
           (if Departs(s, steps[0], p) then 1 else 0) + rest.departures,
           (if IsRemoved(s, steps[0], p) then 1 else 0) + rest.removals)
  }

  function Present(s: System, p: Path): nat {
    if p in s.files then 1 else 0
  }

  lemma FlowOfOutcome(retention: Retention, s: System, q: Proc, fault: bool, entry: Path, p: Path)
    requires SoundFiles(s) && SoundProc(retention, s, q) && p.name.Message?
    ensures Present(s, p) + (if !fault && ArrivesBy(s, q, p) then 1 else 0)
         == (if p in OutcomeOf(retention, s, q, fault, entry).files then 1 else 0)
            + (if !fault && DepartsBy(s, q, p) then 1 else 0) + (if !fault && IsRemovedBy(s, q, p) then 1 else 0)
  {
    if q.Filling? {
      assert At(Tmp, q.id) !in s.files;
    } else if q.Renaming? && At(q.src, q.id) in s.files {
      assert At(q.dst, q.id) !in s.files;
    }
  }

  // No arrival ever overwrites a message, and nothing else changes who is there.
  lemma FlowStep(retention: Retention, s: System, step: Step, p: Path)
    requires Inv(retention, s) && p.name.Message?
    ensures Present(s, p) + (if Arrives(s, step, p) then 1 else 0)
         == Present(Apply(retention, s, step), p)
            + (if Departs(s, step, p) then 1 else 0) + (if IsRemoved(s, step, p) then 1 else 0)
  {
    if step.Act? && step.i < |s.procs| {
      assert SoundProc(retention, s, s.procs[step.i]);
      FlowOfOutcome(retention, s, s.procs[step.i], step.fault, step.entry, p);
    }
  }

  // Conservation: for every place, what was there and what arrived is what left, what was
  // removed and what is there now.
  lemma {:induction false} Conservation(retention: Retention, s: System, steps: seq<Step>, p: Path)
    requires Inv(retention, s) && p.name.Message?
    ensures var f := FlowOf(retention, s, steps, p);
            Present(s, p) + f.arrivals == Present(Run(retention, s, steps), p) + f.departures + f.removals
    decreases |steps|
  {
    if steps != [] {
      FlowStep(retention, s, steps[0], p);
      InvStep(retention, s, steps[0]);
      Conservation(retention, Apply(retention, s, steps[0]), steps[1..], p);
    }
  }

  // Of any number of moves of one message out of one stage at most one succeeds, unless
  // the message comes back in between.
  lemma OneMoveWins(retention: Retention, s: System, steps: seq<Step>, p: Path)
    requires Inv(retention, s) && p.name.Message? && FlowOf(retention, s, steps, p).arrivals == 0
    ensures FlowOf(retention, s, steps, p).departures <= 1
    ensures FlowOf(retention, s, steps, p).departures == 1 ==> p in s.files && p !in Run(retention, s, steps).files
  {
    Conservation(retention, s, steps, p);
  }

  // ---- The operations of the spool, uninterrupted, are runs ----

  const ANY: Path := At(Tmp, "")

  lemma {:induction false} RunConcat(retention: Retention, s: System, a: seq<Step>, b: seq<Step>)
    ensures Run(retention, s, a + b) == Run(retention, Run(retention, s, a), b)
    decreases |a|
  {
    if a == [] {
      assert a + b == b;
    } else {
      assert (a + b)[1..] == a[1..] + b;
      RunConcat(retention, Apply(retention, s, a[0]), a[1..], b);
    }
  }

  lemma RunOne(retention: Retention, s: System, step: Step)
    ensures Run(retention, s, [step]) == Apply(retention, s, step)
  {
    var s' := Apply(retention, s, step);
    assert [step][1..] == [] && Run(retention, s', []) == s';
  }

  // The files a Delete leaves, by its result.
  lemma DeleteIsRun(retention: Retention, s: System, stage: Stage, id: string, ok: bool) returns (steps: seq<Step>)
    ensures Run(retention, s, steps).files == if ok then s.files - {At(stage, id)} else s.files
  {
    var start, act := StartDelete(id, stage), Act(|s.procs|, !ok, ANY);
    var s1 := Apply(retention, s, start);
    RunOne(retention, s, start);
    RunOne(retention, s1, act);
    RunConcat(retention, s, [start], [act]);
    steps := [start] + [act];
  }

  // The files a Move on one device leaves, by its result.
  lemma MoveIsRun(retention: Retention, s: System, id: string, src: Stage, dst: Stage, r: MoveResult)
    returns (steps: seq<Step>)
    requires src != dst && (r == Moved ==> At(src, id) in s.files)
    ensures Run(retention, s, steps).files
         == if r == Moved then MovedFiles(s.files, At(src, id), At(dst, id)) else s.files
  {
    var start, act := StartMove(id, src, dst), Act(|s.procs|, r != Moved, ANY);
    var s1 := Apply(retention, s, start);
    var s2 := Apply(retention, s1, act);
    RunOne(retention, s, start);
    RunOne(retention, s1, act);
    RunOne(retention, s2, act);
    RunConcat(retention, s, [start], [act]);
    RunConcat(retention, s, [start] + [act], [act]);
    steps := [start] + [act] + [act];
  }

  // The files between the two halves of a Write, when `n` bytes have been written.
  ghost predicate Writing(before: Files, s: System, i: nat, id: string, data: Bytes, n: nat) {
    && i < |s.procs| && s.procs[i] == Filling(id, data, n) && n <= |data|
    && s.files == before[Path(Tmp, Partial(id)) := File(data[..n], s.now)]
  }

  lemma {:induction false} FillUp(retention: Retention, before: Files, s: System, i: nat, id: string,
                                  data: Bytes, n: nat)
    returns (steps: seq<Step>)
    requires Writing(before, s, i, id, data, n)
    ensures Writing(before, Run(retention, s, steps), i, id, data, |data|)
    ensures Run(retention, s, steps).now == s.now
    decreases |data| - n
  {
    steps := [];
    if n < |data| {
      var act := Act(i, false, ANY);
      var s1 := Apply(retention, s, act);
      var rest := FillUp(retention, before, s1, i, id, data, n + 1);
      steps := [act] + rest;
      assert steps[1..] == rest;
    }
  }

  // A filled file gets its name and moves on to incoming.
  lemma NameAndMove(retention: Retention, before: Files, s: System, i: nat, id: string, data: Bytes)
    returns (steps: seq<Step>)
    requires Writing(before, s, i, id, data, |data|) && Unused(before, id) && Path(Tmp, Partial(id)) !in before
    ensures Run(retention, s, steps).files == before[At(Incoming, id) := File(data, s.now)]
  {
    var act := Act(i, false, ANY);
    var s1 := Apply(retention, s, act);
    assert data[..|data|] == data;
    assert s1.files == before[At(Tmp, id) := File(data, s.now)] && s1.procs[i] == Checking(id, Tmp, Incoming);
    var s2 := Apply(retention, s1, act);
    assert s2.files == s1.files && s2.procs[i] == Renaming(id, Tmp, Incoming);
    var s3 := Apply(retention, s2, act);
    assert s3.files == before[At(Incoming, id) := File(data, s.now)];
    RunOne(retention, s, act);
    RunOne(retention, s1, act);
    RunOne(retention, s2, act);
    RunConcat(retention, s, [act], [act]);
    RunConcat(retention, s, [act] + [act], [act]);
    steps := [act] + [act] + [act];
  }

  // The files a Write on one device leaves when it succeeds, under an identifier not used before.
  lemma WriteIsRun(retention: Retention, s: System, id: string, data: Bytes) returns (steps: seq<Step>)
    requires Inv(retention, s) && id !in s.offered
    ensures Run(retention, s, steps).files
         == (s.files - {Path(Tmp, Partial(id)), At(Tmp, id)})[At(Incoming, id) := File(data, s.now)]
  {
    var i, start, open := |s.procs|, StartWrite(id, data), Act(|s.procs|, false, ANY);
    assert Path(Tmp, Partial(id)) !in s.files && Unused(s.files, id);
    var s1 := Apply(retention, s, start);
    var s2 := Apply(retention, s1, open);
    assert Writing(s.files, s2, i, id, data, 0);
    var fill := FillUp(retention, s.files, s2, i, id, data, 0);
    var move := NameAndMove(retention, s.files, Run(retention, s2, fill), i, id, data);
    RunOne(retention, s, start);
    RunOne(retention, s1, open);
    RunConcat(retention, s, [start], [open]);
    RunConcat(retention, s, [start] + [open], fill);
    RunConcat(retention, s, [start] + [open] + fill, move);
    steps := [start] + [open] + fill + move;
    assert s.files - {Path(Tmp, Partial(id)), At(Tmp, id)} == s.files;
  }

  // A cleanup that stands at `i` removes the files `gone`, all of them expired.
  lemma {:induction false} SweepAway(retention: Retention, s: System, i: nat, gone: set<Path>)
    returns (steps: seq<Step>)
    requires i < |s.procs| && s.procs[i] == Sweeping(s.now, None) && gone <= s.files.Keys
    requires forall p | p in gone :: Expired(p, s.files[p], retention, s.now)
    ensures Run(retention, s, steps).files == s.files - gone
    decreases gone
  {
    steps := [];
    if gone != {} {
      var p :| p in gone;
      var act := Act(i, false, p);
      var s1 := Apply(retention, s, act);
      assert s1.procs[i] == Sweeping(s.now, Some(p)) && s1.files == s.files;
      var s2 := Apply(retention, s1, act);
      assert s2.procs[i] == Sweeping(s.now, None) && s2.files == s.files - {p};
      var rest := SweepAway(retention, s2, i, gone - {p});
      assert (s.files - {p}) - (gone - {p}) == s.files - gone;
      RunOne(retention, s, act);
      RunOne(retention, s1, act);
      RunConcat(retention, s, [act], [act]);
      RunConcat(retention, s, [act] + [act], rest);
      steps := [act] + [act] + rest;
    }
  }

  // Whatever a Cleanup may leave, complete or not.
  lemma CleanupIsRun(retention: Retention, s: System, after: Files) returns (steps: seq<Step>)
    requires SweptSoFar(s.files, after, retention, s.now)
    ensures Run(retention, s, steps).files == after
  {
    var gone := set p | p in s.files && p !in after;
    var s1 := Apply(retention, s, StartCleanup);
    var sweep := SweepAway(retention, s1, |s.procs|, gone);
    RunOne(retention, s, StartCleanup);
    RunConcat(retention, s, [StartCleanup], sweep);
    steps := [StartCleanup] + sweep;
    assert s.files - gone == after;
  }
}
