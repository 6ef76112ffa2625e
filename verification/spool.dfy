// The message spool (internal/spool/spool.go): one directory per stage, and
// operations that leave a complete copy of a message wherever they are cut short.
module Spool {
  import opened Common

  datatype Stage = Tmp | Incoming | Parsed | Filtered | Modified | Signed | Delivering | Done | Failed

  // "<id>.eml", and "<id>.eml.tmp" while it is being written.
  datatype Name = Message(id: string) | Partial(id: string)

  datatype Path = Path(stage: Stage, name: Name)

  datatype File = File(bytes: Bytes, mtime: int)

  type Files = map<Path, File>

  type Retention = map<Stage, int>

  function At(stage: Stage, id: string): Path {
    Path(stage, Message(id))
  }

  predicate Expired(p: Path, f: File, retention: Retention, now: int) {
    p.stage in retention && retention[p.stage] > 0 && now - f.mtime > retention[p.stage]
  }

  // What is left when every expired file is removed, in whatever order.
  function Swept(files: Files, retention: Retention, now: int): Files {
    map p | p in files && !Expired(p, files[p], retention, now) :: files[p]
  }

  // ---- The file system ----

  datatype RenameResult = Renamed | CrossDevice | NotRenamed

  // os.ReadFile: a missing file is told apart from any other failure.
  datatype ReadResult = Content(data: Bytes) | NotFound | ReadFailed

  // `history` lists every state the disk has been in, the present one last. A crash stops
  // the program between two steps, so it leaves the disk in one of these states; what is then in
  // a file counts on only if the file was synced since it was last written, and `doubts` lists
  // for each state the files of which that does not hold. Any step may also fail and leave things
  // as they were, unless the disk is `reliable`.
  class Disk {
    const device: Stage -> nat
    const reliable: bool
    var files: Files
    ghost var unsynced: set<Path>
    ghost var history: seq<Files>
    ghost var doubts: seq<set<Path>>

    ghost predicate Valid()
      reads this
    {
      && history != [] && history[|history| - 1] == files
      && |doubts| == |history| && doubts[|doubts| - 1] == unsynced
    }

    // One more state after those there were.
    twostate predicate Recorded()
      reads this
    {
      Valid() && history == old(history) + [files] && doubts == old(doubts) + [unsynced]
    }

    constructor (device: Stage -> nat, reliable: bool)
      ensures Valid() && this.device == device && this.reliable == reliable && files == map[]
    {
      this.device, this.reliable := device, reliable;
      files, unsynced, history, doubts := map[], {}, [map[]], [{}];
    }

    method Exists(p: Path) returns (found: bool, ok: bool)
      requires Valid()
      ensures ok ==> found == (p in files)
      ensures reliable ==> ok
    {
      ok := *;
      ok := ok || reliable;
      found := p in files;
    }

    // `fault` is whether the file system refuses to read.
    method ReadFile(p: Path, fault: bool) returns (r: ReadResult)
      requires Valid()
      ensures r == if fault then ReadFailed else if p in files then Content(files[p].bytes) else NotFound
    {
      if fault {
        return ReadFailed;
      }
      if p !in files {
        return NotFound;
      }
      return Content(files[p].bytes);
    }

    // open with O_CREATE, and O_EXCL or O_TRUNC
    method Create(p: Path, exclusive: bool, now: int) returns (ok: bool)
      requires Valid()
      modifies this
      ensures Recorded()
      ensures ok ==> files == old(files)[p := File([], now)] && (exclusive ==> p !in old(files))
      ensures unsynced == if ok then old(unsynced) + {p} else old(unsynced)
      ensures !ok ==> files == old(files)
      ensures reliable && !(exclusive && p in old(files)) ==> ok
    {
      ok := *;
      ok := ok || reliable;
      if exclusive && p in files {
        ok := false;
      }
      if ok {
        files := files[p := File([], now)];
        unsynced := unsynced + {p};
      }
      history, doubts := history + [files], doubts + [unsynced];
    }

    // Fills a new file byte by byte; a failure or a crash leaves a prefix.
    method WriteAll(p: Path, data: Bytes, now: int) returns (ok: bool)
      requires Valid() && p in files && files[p].bytes == [] && p in unsynced
      modifies this
      ensures Valid() && old(history) <= history && unsynced == old(unsynced)
      ensures forall k | |old(history)| <= k < |history| ::
                PartlyWritten(old(files), history[k], p, data) && doubts[k] == old(unsynced)
      ensures PartlyWritten(old(files), files, p, data)
      ensures ok ==> files == old(files)[p := File(data, files[p].mtime)]
      ensures ok ==> files[p].mtime == if data == [] then old(files)[p].mtime else now
      ensures old(doubts) <= doubts
      ensures reliable ==> ok
    {
      var n := 0;
      ok := *;
      ok := ok || reliable;
      while ok && n < |data|
        modifies this
        invariant Valid() && old(history) <= history && n <= |data|
        invariant old(doubts) <= doubts && unsynced == old(unsynced) && (reliable ==> ok)
        invariant forall k | |old(history)| <= k < |history| ::
                    PartlyWritten(old(files), history[k], p, data) && doubts[k] == old(unsynced)
        invariant p in files && files == old(files)[p := File(data[..n], files[p].mtime)]
        invariant files[p].mtime == if n == 0 then old(files)[p].mtime else now
        decreases |data| - n, ok
      {
        ok := *;
        ok := ok || reliable;
        if ok {
          n := n + 1;
          files := files[p := File(data[..n], now)];
          history, doubts := history + [files], doubts + [unsynced];
        }
      }
      assert data[..|data|] == data;
    }

    method Rename(src: Path, dst: Path) returns (r: RenameResult)
      requires Valid()
      modifies this
      ensures Recorded()
      ensures r == Renamed ==> src in old(files) && device(src.stage) == device(dst.stage)
      ensures r == Renamed ==> files == MovedFiles(old(files), src, dst)
      ensures unsynced == if r == Renamed then MovedDoubts(old(unsynced), src, dst) else old(unsynced)
      ensures r != Renamed ==> files == old(files)
      ensures r == CrossDevice ==> src in old(files) && device(src.stage) != device(dst.stage)
      ensures reliable && src in old(files) ==> r != NotRenamed
    {
      var fault := *;
      if src !in files || (fault && !reliable) {
        r := NotRenamed;
      } else if device(src.stage) != device(dst.stage) {
        r := CrossDevice;
      } else {
        r := Renamed;
        files, unsynced := MovedFiles(files, src, dst), MovedDoubts(unsynced, src, dst);
      }
      history, doubts := history + [files], doubts + [unsynced];
    }

    method Remove(p: Path) returns (ok: bool)
      requires Valid()
      modifies this
      ensures Recorded()
      ensures ok ==> p in old(files) && files == old(files) - {p}
      ensures unsynced == if ok then old(unsynced) - {p} else old(unsynced)
      ensures !ok ==> files == old(files)
      ensures reliable && p in old(files) ==> ok
    {
      ok := *;
      ok := (ok || reliable) && p in files;
      if ok {
        files := files - {p};
        unsynced := unsynced - {p};
      }
      history, doubts := history + [files], doubts + [unsynced];
    }

    method Sync(p: Path) returns (ok: bool)
      requires Valid()
      modifies this
      ensures Recorded() && files == old(files)
      ensures unsynced == if ok then old(unsynced) - {p} else old(unsynced)
      ensures reliable ==> ok
    {
      ok := *;
      ok := ok || reliable;
      if ok {
        unsynced := unsynced - {p};
      }
      history, doubts := history + [files], doubts + [unsynced];
    }
  }

  // `after` is `before` with `p` holding a prefix of `data`.
  ghost predicate PartlyWritten(before: Files, after: Files, p: Path, data: Bytes) {
    p in after && after == before[p := after[p]] && after[p].bytes <= data
  }

  ghost predicate HasCopy(files: Files, p: Path, data: Bytes) {
    p in files && files[p].bytes == data
  }

  // Nothing but the listed paths differs.
  ghost predicate OnlyTouches(before: Files, after: Files, touched: set<Path>) {
    forall p | p !in touched :: (p in before <==> p in after) && (p in before ==> before[p] == after[p])
  }

  // A complete copy that a crash leaves, if `synced` is asked for.
  ghost predicate Holds(files: Files, doubt: set<Path>, p: Path, data: Bytes, synced: bool) {
    HasCopy(files, p, data) && (synced ==> p !in doubt)
  }

  // Every state from the `n`-th on has a complete copy of `data` at one of two places.
  ghost predicate SafeFrom(history: seq<Files>, doubts: seq<set<Path>>, n: nat, a: Path, b: Path, data: Bytes,
                           synced: bool)
    requires |doubts| == |history|
  {
    forall k | n <= k < |history| ::
      Holds(history[k], doubts[k], a, data, synced) || Holds(history[k], doubts[k], b, data, synced)
  }

  // Every state from the `n`-th on that shows `p` shows it complete.
  ghost predicate NeverPartial(history: seq<Files>, n: nat, p: Path, data: Bytes) {
    forall k | n <= k < |history| && p in history[k] :: HasCopy(history[k], p, data)
  }

  ghost predicate Unused(files: Files, id: string) {
    forall stage :: At(stage, id) !in files
  }

  function MovedFiles(files: Files, src: Path, dst: Path): Files
    requires src in files
  {
    (files - {src})[dst := files[src]]
  }

  // A file goes on being synced, or not, under its new name.
  function MovedDoubts(doubts: set<Path>, src: Path, dst: Path): set<Path> {
    if src in doubts then doubts - {src} + {dst} else doubts - {dst}
  }

  // A complete copy where a Write puts one.
  ghost predicate Keeps(files: Files, id: string, data: Bytes) {
    HasCopy(files, At(Tmp, id), data) || HasCopy(files, At(Incoming, id), data)
  }

  // The only paths a Write touches.
  function PathsOf(id: string): set<Path> {
    {Path(Tmp, Partial(id)), At(Tmp, id), At(Incoming, id)}
  }

  datatype MoveResult = Moved | SourceMissing | MoveFailed

  class Spool {
    const disk: Disk
    const retention: Retention

    constructor (disk: Disk, retention: Retention)
      ensures this.disk == disk && this.retention == retention
    {
      this.disk, this.retention := disk, retention;
    }

    // What Write and CopyFile do to a file they have just created.
    method FillAndSync(p: Path, data: Bytes, now: int) returns (ok: bool)
      requires disk.Valid() && p in disk.files && disk.files[p] == File([], now) && p in disk.unsynced
      modifies disk
      ensures disk.Valid() && old(disk.history) <= disk.history && old(disk.doubts) <= disk.doubts
      ensures forall k | |old(disk.history)| <= k < |disk.history| ::
                && PartlyWritten(old(disk.files), disk.history[k], p, data)
                && disk.doubts[k] - {p} == old(disk.unsynced) - {p}
      ensures PartlyWritten(old(disk.files), disk.files, p, data)
      ensures disk.unsynced == if ok then old(disk.unsynced) - {p} else old(disk.unsynced)
      ensures ok ==> disk.files == old(disk.files)[p := File(data, now)]
      ensures disk.reliable ==> ok
    {
      ok := disk.WriteAll(p, data, now);
      if ok {
        ok := disk.Sync(p);
      }
    }

    method CopyFile(src: Path, dst: Path, now: int) returns (ok: bool)
      requires disk.Valid() && src != dst
      modifies disk
      ensures disk.Valid() && old(disk.history) <= disk.history
      ensures src !in old(disk.files) ==> !ok && disk.files == old(disk.files) && disk.history == old(disk.history)
      ensures forall k | |old(disk.history)| <= k < |disk.history| ::
                src in old(disk.files) && src in disk.history[k] && disk.history[k][src] == old(disk.files)[src]
      ensures OnlyTouches(old(disk.files), disk.files, {dst})
      ensures ok ==> HasCopy(disk.files, dst, old(disk.files)[src].bytes) && dst !in disk.unsynced
      ensures old(disk.doubts) <= disk.doubts
      ensures forall k | |old(disk.history)| <= k < |disk.history| ::
                src in disk.doubts[k] <==> src in old(disk.unsynced)
      ensures disk.reliable && src in old(disk.files) ==> ok
    {
      var fault := *;
      var source := disk.ReadFile(src, fault && !disk.reliable);
      if !source.Content? {
        return false;
      }
      ok := disk.Create(dst, false, now);
      if !ok {
        return;
      }
      ghost var filling := |disk.history|;
      ok := FillAndSync(dst, source.data, now);
      forall k | filling <= k < |disk.history|
        ensures src in disk.doubts[k] <==> src in old(disk.unsynced)
      {
        assert src in disk.doubts[k] - {dst} <==> src in disk.doubts[k];
      }
    }

    // The fallback of Move between devices: copy, and then remove the source.
    method MoveByCopy(src: Path, dst: Path, now: int) returns (ok: bool)
      requires disk.Valid() && src != dst && src in disk.files
      modifies disk
      ensures disk.Valid() && old(disk.history) <= disk.history && old(disk.doubts) <= disk.doubts
      ensures OnlyTouches(old(disk.files), disk.files, {src, dst})
      ensures SafeFrom(disk.history, disk.doubts, |old(disk.history)|, src, dst, old(disk.files)[src].bytes,
                       src !in old(disk.unsynced))
      ensures NeverPartial(disk.history, |old(disk.history)|, src, old(disk.files)[src].bytes)
      ensures ok ==> HasCopy(disk.files, dst, old(disk.files)[src].bytes)
                     && src !in disk.files && dst !in disk.unsynced
      ensures !ok ==> src in disk.files && disk.files[src] == old(disk.files)[src]
      ensures disk.reliable ==> ok
    {
      ok := CopyFile(src, dst, now);
      if ok {
        ok := disk.Remove(src);
      }
    }

    // A message whose source exists is never without a complete copy, synced if the source was, at
    // any step, on the rename path as on the copy path; a failed move leaves the source as it was,
    // and only a failing disk makes one.
    method Move(id: string, src: Stage, dst: Stage, now: int) returns (r: MoveResult)
      requires disk.Valid()
      modifies disk
      ensures disk.Valid() && old(disk.history) <= disk.history && old(disk.doubts) <= disk.doubts
      ensures OnlyTouches(old(disk.files), disk.files, {At(src, id), At(dst, id)})
      ensures r == SourceMissing ==> At(src, id) !in old(disk.files)
      ensures At(src, id) !in old(disk.files) ==> r != Moved && disk.files == old(disk.files)
      ensures At(src, id) in old(disk.files) ==>
                var f := old(disk.files)[At(src, id)];
                && SafeFrom(disk.history, disk.doubts, |old(disk.history)|, At(src, id), At(dst, id), f.bytes,
                            At(src, id) !in old(disk.unsynced))
                && (disk.reliable ==> r == Moved)
                && (r == Moved && At(src, id) !in old(disk.unsynced) ==> At(dst, id) !in disk.unsynced)
                && (src != dst ==> NeverPartial(disk.history, |old(disk.history)|, At(src, id), f.bytes))
                && (r == Moved ==> HasCopy(disk.files, At(dst, id), f.bytes))
                && (r == Moved && src != dst ==> At(src, id) !in disk.files)
                && (r != Moved ==> At(src, id) in disk.files && disk.files[At(src, id)] == f)
      // On one device the move is atomic, and keeps the modification time.
      ensures disk.device(src) == disk.device(dst) ==>
                && (forall k | |old(disk.history)| <= k < |disk.history| ::
                      disk.history[k] == old(disk.files)
                      || (At(src, id) in old(disk.files)
                          && disk.history[k] == MovedFiles(old(disk.files), At(src, id), At(dst, id))))
                && (r == Moved ==> At(src, id) in old(disk.files)
                                   && disk.files == MovedFiles(old(disk.files), At(src, id), At(dst, id)))
                && (r != Moved ==> disk.files == old(disk.files))
    {
      var found, ok := disk.Exists(At(src, id));
      if !ok {
        return MoveFailed;
      }
      if !found {
        return SourceMissing;
      }
      var renamed := disk.Rename(At(src, id), At(dst, id));
      match renamed {
        case Renamed => return Moved;
        case NotRenamed => return MoveFailed;
        case CrossDevice =>
          ok := MoveByCopy(At(src, id), At(dst, id), now);
          return if ok then Moved else MoveFailed;
      }
    }

    // The first half of Write: fill a partial file, then give it its name in one step.
    method WriteToTmp(id: string, data: Bytes, now: int) returns (ok: bool)
      requires disk.Valid()
      modifies disk
      ensures disk.Valid() && old(disk.history) <= disk.history
      ensures OnlyTouches(old(disk.files), disk.files, {Path(Tmp, Partial(id)), At(Tmp, id)})
      ensures Unused(old(disk.files), id) ==>
                forall k | |old(disk.history)| <= k < |disk.history| - (if ok then 1 else 0) ::
                  Unused(disk.history[k], id)
      ensures ok ==> |disk.history| > |old(disk.history)|
                     && At(Tmp, id) in disk.files && disk.files[At(Tmp, id)] == File(data, now)
                     && Path(Tmp, Partial(id)) !in disk.files && At(Tmp, id) !in disk.unsynced
      ensures Path(Tmp, Partial(id)) in old(disk.files) ==> !ok && disk.files == old(disk.files)
      ensures disk.reliable && Path(Tmp, Partial(id)) !in old(disk.files) ==> ok
      ensures old(disk.doubts) <= disk.doubts
    {
      var partial := Path(Tmp, Partial(id));
      ok := disk.Create(partial, true, now);
      if !ok {
        return;
      }
      ok := FillAndSync(partial, data, now);
      if ok {
        var renamed := disk.Rename(partial, At(Tmp, id));
        ok := renamed == Renamed;
      }
      if !ok {
        var _ := disk.Remove(partial);
      }
    }

    // From the step `appeared` at which tmp/<id>.eml appears, every later state has a complete
    // and synced copy there or in incoming; before it neither exists. With both stages on one device
    // incoming/<id>.eml is never seen with partial content. Only a failing disk, or a partial file
    // of that name, refuses a message.
    method Write(id: string, data: Bytes, now: int) returns (ok: bool, ghost appeared: nat)
      requires disk.Valid()
      modifies disk
      ensures disk.Valid() && old(disk.history) <= disk.history
      ensures |old(disk.history)| <= appeared <= |disk.history|
      ensures OnlyTouches(old(disk.files), disk.files, PathsOf(id))
      ensures Unused(old(disk.files), id) ==>
                && (forall k | |old(disk.history)| <= k < appeared :: Unused(disk.history[k], id))
                && SafeFrom(disk.history, disk.doubts, appeared, At(Tmp, id), At(Incoming, id), data, true)
                && NeverPartial(disk.history, |old(disk.history)|, At(Tmp, id), data)
                && (disk.device(Tmp) == disk.device(Incoming) ==>
                      NeverPartial(disk.history, |old(disk.history)|, At(Incoming, id), data))
      ensures ok ==> HasCopy(disk.files, At(Incoming, id), data)
                     && At(Tmp, id) !in disk.files && Path(Tmp, Partial(id)) !in disk.files
                     && appeared < |disk.history| && At(Incoming, id) !in disk.unsynced
      ensures disk.reliable && Path(Tmp, Partial(id)) !in old(disk.files) ==> ok
      // With or without an error, the message is kept exactly if it got its name.
      ensures Unused(old(disk.files), id) ==>
                && (Keeps(disk.files, id, data) <==> appeared < |disk.history|)
                && (appeared == |disk.history| ==> Unused(disk.files, id))
      ensures ok && disk.device(Tmp) == disk.device(Incoming) ==>
                disk.files == (old(disk.files) - {Path(Tmp, Partial(id)), At(Tmp, id)})
                                [At(Incoming, id) := File(data, now)]
      ensures Path(Tmp, Partial(id)) in old(disk.files) ==> !ok && disk.files == old(disk.files)
    {
      ok := WriteToTmp(id, data, now);
      if !ok {
        return false, |disk.history|;
      }
      appeared := |disk.history| - 1;
      var moved := Move(id, Tmp, Incoming, now);
      return moved == Moved, appeared;
    }

    method Read(stage: Stage, id: string, fault: bool) returns (r: ReadResult)
      requires disk.Valid()
      ensures r.ReadFailed? <==> fault
      ensures r.NotFound? <==> !fault && At(stage, id) !in disk.files
      ensures r.Content? ==> HasCopy(disk.files, At(stage, id), r.data)
    {
      r := disk.ReadFile(At(stage, id), fault);
    }

    method Delete(stage: Stage, id: string) returns (ok: bool)
      requires disk.Valid()
      modifies disk
      ensures disk.Valid()
      ensures disk.files == if ok then old(disk.files) - {At(stage, id)} else old(disk.files)
      ensures disk.reliable || At(stage, id) !in old(disk.files) ==> ok
    {
      ok := disk.Remove(At(stage, id));
      if !ok && At(stage, id) !in disk.files {
        ok := true;
      }
    }

    // Stages and entries come in no particular order. `complete` says that no step failed;
    // the outcome is then the same whatever the order.
    method Cleanup(now: int) returns (complete: bool)
      requires disk.Valid()
      modifies disk
      ensures disk.Valid() && SweptSoFar(old(disk.files), disk.files, retention, now)
      ensures disk.reliable ==> complete
      ensures complete ==> disk.files == Swept(old(disk.files), retention, now)
      ensures forall p | p in disk.files :: p in old(disk.files) && disk.files[p] == old(disk.files)[p]
      ensures forall p | p in old(disk.files) && p !in disk.files ::
                && p.stage in retention && retention[p.stage] > 0
                && now - old(disk.files)[p].mtime > retention[p.stage]
      ensures complete ==> forall p | p in old(disk.files) ::
                p in disk.files <==>
                  || p.stage !in retention || retention[p.stage] <= 0
                  || now - old(disk.files)[p].mtime <= retention[p.stage]
    {
      complete := true;
      var stages := retention.Keys;
      while stages != {}
        invariant disk.Valid() && stages <= retention.Keys && (disk.reliable ==> complete)
        invariant SweptSoFar(old(disk.files), disk.files, retention, now)
        invariant complete ==>
                    forall p | p in disk.files && p.stage !in stages :: !Expired(p, disk.files[p], retention, now)
        decreases stages
      {
        var stage :| stage in stages;
        stages := stages - {stage};
        if retention[stage] > 0 {
          var done := CleanupStage(stage, now);
          complete := complete && done;
        }
      }
    }

    method CleanupStage(stage: Stage, now: int) returns (complete: bool)
      requires disk.Valid() && stage in retention && retention[stage] > 0
      modifies disk
      ensures disk.Valid() && SweptSoFar(old(disk.files), disk.files, retention, now)
      ensures disk.reliable ==> complete
      ensures complete ==> forall p | p in disk.files && p.stage == stage :: !Expired(p, disk.files[p], retention, now)
    {
      complete := true;
      var readable := *;
      if !readable && !disk.reliable {
        return false;
      }
      var entries := set p | p in disk.files && p.stage == stage;
      while entries != {}
        invariant disk.Valid() && SweptSoFar(old(disk.files), disk.files, retention, now)
        invariant disk.reliable ==> complete
        invariant entries <= disk.files.Keys && forall p | p in entries :: p.stage == stage
        invariant complete ==> forall p | p in disk.files && p.stage == stage && p !in entries ::
                    !Expired(p, disk.files[p], retention, now)
        decreases entries
      {
        var p :| p in entries;
        entries := entries - {p};
        var info := *;
        if !info && !disk.reliable {
          complete := false;
        } else if now - disk.files[p].mtime > retention[stage] {
          var removed := disk.Remove(p);
          complete := complete && removed;
        }
      }
    }
  }

  // Only expired files are gone, and nothing else changed.
  ghost predicate SweptSoFar(before: Files, after: Files, retention: Retention, now: int) {
    && (forall p | p in after :: p in before && after[p] == before[p])
    && (forall p | p in before && p !in after :: Expired(p, before[p], retention, now))
  }
}
