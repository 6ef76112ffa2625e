// Deduplication (internal/dedup/dedup.go): the first message with a body is
// remembered under its hash for one window; Redis failures let messages pass.
module Dedup {
  import opened Common
  import opened TtlStore

  type Hash = string
  type Originals = Store<Hash, string>

  // ---- The program ----

  datatype Verdict = Unique | Duplicate(originalMsgID: string)

  // Whether Redis answered, and for a failed SET whether it was carried out all the same.
  datatype Reply = Answered | Failed(landed: bool)

  function Remembered(originals: Originals, hash: Hash, msgID: string, window: nat, now: int): Originals {
    if Live(originals, hash, now) then originals else Put(originals, hash, msgID, window, now)
  }

  function Answer(originals: Originals, hash: Hash, now: int): Verdict {
    match Lookup(originals, hash, now)
    case None => Unique
    case Some(original) => Duplicate(original)
  }

  class Deduplicator {
    const window: nat
    const enabled: bool
    const hashMessage: Bytes -> Hash
    var originals: Originals

    constructor (window: nat, enabled: bool, hashMessage: Bytes -> Hash)
      ensures this.window == window && this.enabled == enabled && this.hashMessage == hashMessage && originals == map[]
    {
      this.window, this.enabled, this.hashMessage := window, enabled, hashMessage;
      originals := map[];
    }

    // One call that no other overlaps: GET and SET at the same clock reading.
    method Check(msgID: string, body: Bytes, get: Reply, put: Reply, now: int) returns (v: Verdict)
      modifies this
      ensures !enabled || get.Failed? ==> v == Unique && originals == old(originals)
      ensures enabled && get.Answered? ==> v == Answer(old(originals), hashMessage(body), now)
      ensures enabled && get.Answered? && (put == Failed(false)) ==> originals == old(originals)
      ensures enabled && get.Answered? && (put != Failed(false)) ==>
                originals == Remembered(old(originals), hashMessage(body), msgID, window, now)
    {
      if !enabled {
        return Unique;
      }
      var hash := hashMessage(body);
      if get.Failed? {
        return Unique;
      }
      var found := Lookup(originals, hash, now);
      if found.None? {
        if put.Answered? || put.landed {
          originals := Put(originals, hash, msgID, window, now);
        }
        return Unique;
      }
      return Duplicate(found.value);
    }

    // `ok` is false for the error the caller gets; a failed DEL may have been carried out.
    method Delete(hash: Hash, del: Reply) returns (ok: bool)
      modifies this
      ensures ok <==> !enabled || del.Answered?
      ensures originals == if enabled && del != Failed(false) then Remove(old(originals), hash) else old(originals)
    {
      if !enabled {
        return true;
      }
      if del.Answered? || del.landed {
        originals := Remove(originals, hash);
      }
      return del.Answered?;
    }
  }

  // ---- Calls that do not overlap agree with a scan of the log ----

  datatype Call = Check(msgID: string, hash: Hash, now: int) | Delete(hash: Hash, now: int)

  ghost predicate Timed(calls: seq<Call>) {
    forall i, j | 0 <= i < j < |calls| :: calls[i].now <= calls[j].now
  }

  // The store after the first `n` calls, with Redis up.
  function After(window: nat, calls: seq<Call>, n: nat): Originals
    requires n <= |calls|
  {
    if n == 0 then map[]
    else
      var before := After(window, calls, n - 1);
      match calls[n - 1]
      case Check(msgID, hash, now) => Remembered(before, hash, msgID, window, now)
      case Delete(hash, _) => Remove(before, hash)
  }

  ghost predicate NotDeleted(calls: seq<Call>, i: nat, n: nat, hash: Hash) {
    n <= |calls| && forall j | i < j < n :: calls[j] != Delete(hash, calls[j].now)
  }

  predicate Recent(window: nat, since: int, now: int) {
    window == 0 || now <= since + window
  }

  // The log alone says that call `n` is the first of its kind: no earlier first of its kind
  // with the same hash lies within the window and has not been deleted since.
  ghost predicate First(window: nat, calls: seq<Call>, n: nat)
    decreases n
  {
    && n < |calls| && calls[n].Check?
    && forall i | 0 <= i < n && First(window, calls, i) && calls[i].hash == calls[n].hash
                  && NotDeleted(calls, i, n, calls[n].hash) :: window > 0 && calls[n].now > calls[i].now + window
  }

  // The last first-of-its-kind among the first `n` calls that has not been deleted.
  ghost predicate Standing(window: nat, calls: seq<Call>, n: nat, i: nat, hash: Hash) {
    && i < n <= |calls| && First(window, calls, i) && calls[i].hash == hash && NotDeleted(calls, i, n, hash)
    && forall j | i < j < n && First(window, calls, j) :: calls[j].hash != hash
  }

  // The store holds exactly what stands in the log.
  ghost predicate Mirrors(window: nat, calls: seq<Call>, n: nat, hash: Hash, i: Option<nat>)
    requires n <= |calls|
  {
    var originals := After(window, calls, n);
    match i
    case None =>
      && hash !in originals
      && forall k | 0 <= k < n && First(window, calls, k) && calls[k].hash == hash :: !NotDeleted(calls, k, n, hash)
    case Some(k) =>
      && Standing(window, calls, n, k, hash) && hash in originals
      && originals[hash] == Entry(calls[k].msgID, if window > 0 then Some(calls[k].now + window) else None)
  }

  // A scan of the log gives the answer the store gives.
  lemma FirstIffUnknown(window: nat, calls: seq<Call>, n: nat, i: Option<nat>)
    requires Timed(calls) && n < |calls| && calls[n].Check? && Mirrors(window, calls, n, calls[n].hash, i)
    ensures First(window, calls, n) <==> !Live(After(window, calls, n), calls[n].hash, calls[n].now)
    ensures Live(After(window, calls, n), calls[n].hash, calls[n].now)
       <==> i.Some? && Recent(window, calls[i.value].now, calls[n].now)
  {
    if i.Some? {
      assert First(window, calls, i.value) && NotDeleted(calls, i.value, n, calls[n].hash);
    }
  }

  lemma MirrorsOther(window: nat, calls: seq<Call>, n: nat, hash: Hash, i: Option<nat>)
    requires 0 < n <= |calls| && calls[n - 1].hash != hash && Mirrors(window, calls, n - 1, hash, i)
    ensures Mirrors(window, calls, n, hash, i)
  {
    assert forall k: nat | k < n - 1 :: NotDeleted(calls, k, n, hash) == NotDeleted(calls, k, n - 1, hash);
  }

  lemma MirrorsDelete(window: nat, calls: seq<Call>, n: nat, hash: Hash)
    requires 0 < n <= |calls| && calls[n - 1].hash == hash && calls[n - 1].Delete?
    ensures Mirrors(window, calls, n, hash, None)
  {
    assert forall k: nat | k < n - 1 :: !NotDeleted(calls, k, n, hash);
  }

  lemma MirrorsKnown(window: nat, calls: seq<Call>, n: nat, hash: Hash, i: Option<nat>)
    requires 0 < n <= |calls| && calls[n - 1].hash == hash && calls[n - 1].Check? && !First(window, calls, n - 1)
    requires Live(After(window, calls, n - 1), hash, calls[n - 1].now) && Mirrors(window, calls, n - 1, hash, i)
    ensures Mirrors(window, calls, n, hash, i)
  {
    assert forall k: nat | k < n - 1 :: NotDeleted(calls, k, n, hash) == NotDeleted(calls, k, n - 1, hash);
  }

  lemma {:induction false} StoreMirrorsLog(window: nat, calls: seq<Call>, n: nat, hash: Hash) returns (i: Option<nat>)
    requires Timed(calls) && n <= |calls|
    ensures Mirrors(window, calls, n, hash, i)
  {
    if n == 0 {
      return None;
    }
    i := StoreMirrorsLog(window, calls, n - 1, hash);
    var c := calls[n - 1];
    if c.hash != hash {
      MirrorsOther(window, calls, n, hash, i);
    } else if c.Delete? {
      MirrorsDelete(window, calls, n, hash);
      i := None;
    } else {
      FirstIffUnknown(window, calls, n - 1, i);
      if First(window, calls, n - 1) {
        i := Some(n - 1);
      } else {
        MirrorsKnown(window, calls, n, hash, i);
      }
    }
  }

  // Without overlapping calls a message is reported as a duplicate of `m` exactly when the
  // log has `m` as its latest undeleted original with that body, at most a window ago.
  lemma CheckAgreesWithLog(window: nat, calls: seq<Call>, n: nat)
    requires Timed(calls) && n < |calls| && calls[n].Check?
    ensures var v := Answer(After(window, calls, n), calls[n].hash, calls[n].now);
            && (v == Unique <==> First(window, calls, n))
            && (forall m :: v == Duplicate(m) <==>
                  exists i: nat :: Standing(window, calls, n, i, calls[n].hash) && calls[i].msgID == m
                                   && (window == 0 || calls[n].now <= calls[i].now + window))
  {
    var i := StoreMirrorsLog(window, calls, n, calls[n].hash);
    FirstIffUnknown(window, calls, n, i);
    if i.Some? {
      assert forall k: nat | Standing(window, calls, n, k, calls[n].hash) :: k == i.value;
    }
  }

  // No two different bodies of the log have one hash.
  ghost predicate NoCollision(bodies: seq<Bytes>, hashMessage: Bytes -> Hash) {
    forall i, j | 0 <= i < |bodies| && 0 <= j < |bodies| && hashMessage(bodies[i]) == hashMessage(bodies[j]) ::
      bodies[i] == bodies[j]
  }

  // The messages of the log have these bodies.
  ghost predicate Carries(calls: seq<Call>, bodies: seq<Bytes>, hashMessage: Bytes -> Hash) {
    |bodies| == |calls| && forall i | 0 <= i < |calls| && calls[i].Check? :: calls[i].hash == hashMessage(bodies[i])
  }

  // As long as no two bodies in the log have one hash, duplicates are messages with the same body.
  lemma DuplicateIffSameBody(window: nat, calls: seq<Call>, bodies: seq<Bytes>, hashMessage: Bytes -> Hash, n: nat)
    requires Timed(calls) && n < |calls| && calls[n].Check?
    requires Carries(calls, bodies, hashMessage) && NoCollision(bodies, hashMessage)
    ensures forall m :: Answer(After(window, calls, n), calls[n].hash, calls[n].now) == Duplicate(m) <==>
              exists i: nat :: Standing(window, calls, n, i, hashMessage(bodies[n])) && bodies[i] == bodies[n]
                               && calls[i].msgID == m && (window == 0 || calls[n].now <= calls[i].now + window)
  {
    CheckAgreesWithLog(window, calls, n);
    forall i: nat | Standing(window, calls, n, i, calls[n].hash) ensures bodies[i] == bodies[n] {
      assert calls[i].hash == hashMessage(bodies[i]);
    }
  }

  // Two originals with one body are more than a window apart, unless the first was deleted.
  lemma OriginalsFarApart(window: nat, calls: seq<Call>, i: nat, n: nat)
    requires Timed(calls) && i < n < |calls| && calls[i].Check? && calls[n].Check? && calls[i].hash == calls[n].hash
    requires NotDeleted(calls, i, n, calls[n].hash)
    requires Answer(After(window, calls, i), calls[i].hash, calls[i].now) == Unique
    requires Answer(After(window, calls, n), calls[n].hash, calls[n].now) == Unique
    ensures window > 0 && calls[n].now > calls[i].now + window
  {
    CheckAgreesWithLog(window, calls, i);
    CheckAgreesWithLog(window, calls, n);
  }

  // ---- Overlapping calls ----

  // `missed[i]` is 1 while the i-th caller has had its GET answered with a miss and has not
  // yet written; all callers carry the same body.
  datatype Race = Race(now: int, originals: Originals, missed: seq<nat>)

  datatype Move =
    | Tick(to: int)
    | Get(i: nat, answered: bool)
    | Set(i: nat, msgID: string, landed: bool)
    | Del(landed: bool)

  function Moved(window: nat, hash: Hash, r: Race, m: Move): Race {
    match m
    case Tick(to) => if r.now <= to then r.(now := to) else r
    case Get(i, answered) =>
      if i < |r.missed| && r.missed[i] == 0 && answered && !Live(r.originals, hash, r.now)
      then r.(missed := r.missed[i := 1]) else r
    case Set(i, msgID, landed) =>
      if i < |r.missed| && r.missed[i] == 1 then
        r.(missed := r.missed[i := 0],
           originals := if landed then Put(r.originals, hash, msgID, window, r.now) else r.originals)
      else r
    case Del(landed) => if landed then r.(originals := Remove(r.originals, hash)) else r
  }

  function AfterMoves(window: nat, hash: Hash, start: Race, moves: seq<Move>): Race {
    if moves == [] then start
    else Moved(window, hash, AfterMoves(window, hash, start, moves[..|moves| - 1]), moves[|moves| - 1])
  }

  // A GET and SET that no other caller comes between do what Check does as one call.
  lemma UninterruptedCheck(window: nat, hash: Hash, r: Race, i: nat, msgID: string, answered: bool, landed: bool)
    requires i < |r.missed| && r.missed[i] == 0
    ensures Moved(window, hash, Moved(window, hash, r, Get(i, answered)), Set(i, msgID, landed))
         == if answered && landed then r.(originals := Remembered(r.originals, hash, msgID, window, r.now)) else r
  {
    assert r.missed[i := 1][i := 0] == r.missed && r.missed[i := 0] == r.missed;
  }

  // Within one window from `from`, which for a window of zero never ends.
  predicate InWindow(window: nat, r: Race, from: int) {
    from <= r.now && Recent(window, from, r.now)
  }

  // A message is declared unique: because it was the first, or, with `failed`, because Redis
  // failed GET or SET.
  predicate Declares(window: nat, r: Race, m: Move, from: int, failed: bool) {
    && InWindow(window, r, from)
    && match m
       case Get(i, answered) => i < |r.missed| && r.missed[i] == 0 && failed && !answered
       case Set(i, _, landed) => i < |r.missed| && r.missed[i] == 1 && failed != landed
       case _ => false
  }

  predicate Deletes(window: nat, r: Race, m: Move, from: int) {
    m.Del? && m.landed && InWindow(window, r, from)
  }

  // The number of deletions in the window.
  function Deleted(window: nat, hash: Hash, start: Race, moves: seq<Move>, from: int): nat {
    if moves == [] then 0
    else
      var prefix := moves[..|moves| - 1];
      Deleted(window, hash, start, prefix, from)
      + (if Deletes(window, AfterMoves(window, hash, start, prefix), moves[|moves| - 1], from) then 1 else 0)
  }

  // The number of messages so declared.
  function Declared(window: nat, hash: Hash, start: Race, moves: seq<Move>, from: int, failed: bool): nat {
    if moves == [] then 0
    else
      var prefix := moves[..|moves| - 1];
      Declared(window, hash, start, prefix, from, failed)
      + (if Declares(window, AfterMoves(window, hash, start, prefix), moves[|moves| - 1], from, failed) then 1 else 0)
  }

  function AllDeclared(window: nat, hash: Hash, start: Race, moves: seq<Move>, from: int): nat {
    Declared(window, hash, start, moves, from, false) + Declared(window, hash, start, moves, from, true)
  }

  lemma RaceAppend(window: nat, hash: Hash, start: Race, moves: seq<Move>, m: Move, from: int, failed: bool)
    ensures AfterMoves(window, hash, start, moves + [m])
         == Moved(window, hash, AfterMoves(window, hash, start, moves), m)
    ensures Declared(window, hash, start, moves + [m], from, failed)
         == Declared(window, hash, start, moves, from, failed)
            + (if Declares(window, AfterMoves(window, hash, start, moves), m, from, failed) then 1 else 0)
    ensures Deleted(window, hash, start, moves + [m], from)
         == Deleted(window, hash, start, moves, from)
            + (if Deletes(window, AfterMoves(window, hash, start, moves), m, from) then 1 else 0)
  {
    assert (moves + [m])[..|moves|] == moves;
  }

  // The hash is known until the window is over.
  ghost predicate Known(window: nat, hash: Hash, r: Race, from: int) {
    && hash in r.originals
    && (r.originals[hash].expiry == None
        || (window > 0 && r.originals[hash].expiry.value >= from + window))
  }

  // After `n` declarations and `d` deletions in the window: while the hash is known only callers
  // that have missed it can still be told so; once it is deleted every caller can again.
  ghost predicate Contained(window: nat, hash: Hash, r: Race, n: nat, d: nat, from: int) {
    && AtMost(r.missed, 1)
    && n <= Product(d + 1, |r.missed|)
    && (n > 0 && Recent(window, from, r.now) ==>
          && from <= r.now
          && (if Known(window, hash, r, from) then n + Sum(r.missed) <= Product(d + 1, |r.missed|)
              else n <= Product(d, |r.missed|)))
  }

  lemma ContainedGet(window: nat, hash: Hash, r: Race, m: Move, n: nat, d: nat, from: int)
    requires Contained(window, hash, r, n, d, from) && m.Get?
    ensures Contained(window, hash, Moved(window, hash, r, m), n, d, from)
  {
    if m.i < |r.missed| {
      SumUpdate(r.missed, m.i, 1);
    }
  }

  lemma ContainedSet(window: nat, hash: Hash, r: Race, m: Move, n: nat, d: nat, from: int)
    requires Contained(window, hash, r, n, d, from) && m.Set?
    ensures var n' := if Declares(window, r, m, from, false) then n + 1 else n;
            Contained(window, hash, Moved(window, hash, r, m), n', d, from)
  {
    SumAtMost(r.missed, 1);
    assert Product(d + 1, |r.missed|) == |r.missed| + Product(d, |r.missed|);
    if m.i < |r.missed| {
      SumUpdate(r.missed, m.i, 0);
    }
  }

  lemma ContainedDelete(window: nat, hash: Hash, r: Race, m: Move, n: nat, d: nat, from: int)
    requires Contained(window, hash, r, n, d, from) && m.Del?
    ensures var d' := if Deletes(window, r, m, from) then d + 1 else d;
            Contained(window, hash, Moved(window, hash, r, m), n, d', from)
  {
    assert Product(d + 2, |r.missed|) == |r.missed| + Product(d + 1, |r.missed|);
  }

  lemma ContainedStep(window: nat, hash: Hash, r: Race, m: Move, n: nat, d: nat, from: int)
    requires Contained(window, hash, r, n, d, from)
    ensures var n' := if Declares(window, r, m, from, false) then n + 1 else n;
            var d' := if Deletes(window, r, m, from) then d + 1 else d;
            && |Moved(window, hash, r, m).missed| == |r.missed|
            && Contained(window, hash, Moved(window, hash, r, m), n', d', from)
  {
    match m {
      case Tick(_) =>
      case Get(_, _) => ContainedGet(window, hash, r, m, n, d, from);
      case Set(_, _, _) => ContainedSet(window, hash, r, m, n, d, from);
      case Del(_) => ContainedDelete(window, hash, r, m, n, d, from);
    }
  }

  lemma {:induction false} ContainedRun(window: nat, hash: Hash, start: Race, moves: seq<Move>, from: int)
    requires AtMost(start.missed, 1)
    ensures var r, n := AfterMoves(window, hash, start, moves), Declared(window, hash, start, moves, from, false);
            && |r.missed| == |start.missed|
            && Contained(window, hash, r, n, Deleted(window, hash, start, moves, from), from)
  {
    if moves == [] {
      assert Product(1, |start.missed|) >= 0;
    } else {
      var prefix := moves[..|moves| - 1];
      ContainedRun(window, hash, start, prefix, from);
      ContainedStep(window, hash, AfterMoves(window, hash, start, prefix), moves[|moves| - 1],
                    Declared(window, hash, start, prefix, from, false),
                    Deleted(window, hash, start, prefix, from), from);
    }
  }

  // Of N overlapping callers with one body at most N are told within a window that theirs is
  // unique, and N more for every deletion in it, whatever Redis held and whichever callers were
  // under way at the start; besides them those that are told so because Redis failed.
  lemma RaceDeclaresAtMost(window: nat, hash: Hash, start: Race, moves: seq<Move>, from: int)
    requires AtMost(start.missed, 1)
    ensures Declared(window, hash, start, moves, from, false)
         <= (Deleted(window, hash, start, moves, from) + 1) * |start.missed|
  {
    ContainedRun(window, hash, start, moves, from);
    ProductIsTimes(Deleted(window, hash, start, moves, from) + 1, |start.missed|);
  }

  // What else may happen: Redis fails commands, and entries are deleted.
  datatype Faults = Faults(failed: bool, deleted: bool)

  // Redis carries out every command of the run.
  ghost predicate RedisUp(moves: seq<Move>) {
    forall i | 0 <= i < |moves| ::
      && (moves[i].Get? ==> moves[i].answered) && (moves[i].Set? ==> moves[i].landed)
      && (moves[i].Del? ==> moves[i].landed)
  }

  ghost predicate NeverDeleted(moves: seq<Move>) {
    forall i | 0 <= i < |moves| :: !moves[i].Del?
  }

  ghost predicate Admissible(moves: seq<Move>, f: Faults) {
    (f.failed || RedisUp(moves)) && (f.deleted || NeverDeleted(moves))
  }

  lemma {:induction false} NothingFailed(window: nat, hash: Hash, start: Race, moves: seq<Move>, from: int)
    requires RedisUp(moves) || start.missed == []
    ensures Declared(window, hash, start, moves, from, true) == 0
    ensures |AfterMoves(window, hash, start, moves).missed| == |start.missed|
  {
    if moves != [] {
      var prefix := moves[..|moves| - 1];
      assert forall i | 0 <= i < |prefix| :: prefix[i] == moves[i];
      NothingFailed(window, hash, start, prefix, from);
    }
  }

  lemma {:induction false} NothingDeleted(window: nat, hash: Hash, start: Race, moves: seq<Move>, from: int)
    requires NeverDeleted(moves)
    ensures Deleted(window, hash, start, moves, from) == 0
  {
    if moves != [] {
      var prefix := moves[..|moves| - 1];
      assert forall i | 0 <= i < |prefix| :: prefix[i] == moves[i];
      NothingDeleted(window, hash, start, prefix, from);
    }
  }

  // ---- The bound is reached ----

  // An empty store and no caller under way.
  function Empty(callers: nat): Race {
    Race(0, map[], FirstOnes(callers, 0, 1, 0))
  }

  // `moves` lead from the empty store to `r` at its first instant, with `n` declared and `d` deleted.
  ghost predicate Reaches(window: nat, hash: Hash, callers: nat, moves: seq<Move>, r: Race, n: nat, d: nat) {
    && RedisUp(moves) && (d == 0 ==> NeverDeleted(moves))
    && r.now == 0
    && (r, n, d) == (AfterMoves(window, hash, Empty(callers), moves),
                     Declared(window, hash, Empty(callers), moves, 0, false),
                     Deleted(window, hash, Empty(callers), moves, 0))
  }

  lemma TakeMove(window: nat, hash: Hash, callers: nat, moves: seq<Move>, r: Race, n: nat, d: nat, m: Move)
    returns (more: seq<Move>)
    requires Reaches(window, hash, callers, moves, r, n, d)
    requires match m
             case Tick(_) => false
             case Get(i, answered) => answered
             case Set(i, _, landed) => landed && i < |r.missed| && r.missed[i] == 1
             case Del(landed) => landed
    ensures Reaches(window, hash, callers, more, Moved(window, hash, r, m),
                    if m.Set? then n + 1 else n, if m.Del? then d + 1 else d)
  {
    RaceAppend(window, hash, Empty(callers), moves, m, 0, false);
    more := moves + [m];
  }

  // Callers below `k` have their GET answered with a miss before any of them writes.
  lemma {:induction false} GetAll(window: nat, hash: Hash, callers: nat, moves: seq<Move>, r: Race,
                                  n: nat, d: nat, k: nat)
    returns (more: seq<Move>)
    requires Reaches(window, hash, callers, moves, r, n, d) && k <= callers
    requires r == Empty(callers)
    ensures Reaches(window, hash, callers, more, Race(0, map[], FirstOnes(callers, k, 1, 0)), n, d)
  {
    more := moves;
    if k > 0 {
      var before := GetAll(window, hash, callers, moves, r, n, d, k - 1);
      var s := Race(0, map[], FirstOnes(callers, k - 1, 1, 0));
      FirstOnesNext(callers, k - 1, 1, 0);
      more := TakeMove(window, hash, callers, before, s, n, d, Get(k - 1, true));
    }
  }

  // And callers below `k` write.
  lemma {:induction false} SetAll(window: nat, hash: Hash, callers: nat, moves: seq<Move>, r: Race,
                                  n: nat, d: nat, k: nat)
    returns (more: seq<Move>, t: Race)
    requires Reaches(window, hash, callers, moves, r, n, d) && k <= callers
    requires r.missed == FirstOnes(callers, 0, 0, 1)
    ensures Reaches(window, hash, callers, more, t, n + k, d)
    ensures t.missed == FirstOnes(callers, k, 0, 1) && t.originals.Keys <= r.originals.Keys + {hash}
  {
    more, t := moves, r;
    if k > 0 {
      var before, u := SetAll(window, hash, callers, moves, r, n, d, k - 1);
      FirstOnesNext(callers, k - 1, 0, 1);
      assert u.missed[k - 1] == 1;
      var write := Set(k - 1, "msg", true);
      more := TakeMove(window, hash, callers, before, u, n + k - 1, d, write);
      t := Moved(window, hash, u, write);
    }
  }

  // All callers are told that theirs is unique.
  lemma OneRound(window: nat, hash: Hash, callers: nat, moves: seq<Move>, n: nat, d: nat)
    returns (more: seq<Move>, t: Race)
    requires Reaches(window, hash, callers, moves, Empty(callers), n, d)
    ensures Reaches(window, hash, callers, more, t, n + callers, d)
    ensures t.missed == FirstOnes(callers, callers, 0, 1) && t.originals.Keys <= {hash}
  {
    var missed := GetAll(window, hash, callers, moves, Empty(callers), n, d, callers);
    FirstOnesEnds(callers, 1, 0);
    more, t := SetAll(window, hash, callers, missed, Race(0, map[], FirstOnes(callers, callers, 1, 0)), n, d, callers);
  }

  // And the entry is deleted, so that the store is empty again.
  lemma RoundAgain(window: nat, hash: Hash, callers: nat, moves: seq<Move>, n: nat, d: nat) returns (more: seq<Move>)
    requires Reaches(window, hash, callers, moves, Empty(callers), n, d)
    ensures Reaches(window, hash, callers, more, Empty(callers), n + callers, d + 1)
  {
    var all, t := OneRound(window, hash, callers, moves, n, d);
    more := TakeMove(window, hash, callers, all, t, n + callers, d, Del(true));
    FirstOnesEnds(callers, 0, 1);
    assert Remove(t.originals, hash) == map[];
  }

  lemma {:induction false} Rounds(window: nat, hash: Hash, callers: nat, d: nat) returns (moves: seq<Move>)
    ensures Reaches(window, hash, callers, moves, Empty(callers), Product(d, callers), d)
  {
    moves := [];
    if d > 0 {
      var before := Rounds(window, hash, callers, d - 1);
      moves := RoundAgain(window, hash, callers, before, Product(d - 1, callers), d - 1);
    }
  }

  // For every number of callers and of deletions some interleaving, with Redis up, tells so many
  // callers at one instant that theirs is unique.
  lemma RaceReached(window: nat, hash: Hash, callers: nat, d: nat) returns (moves: seq<Move>)
    ensures RedisUp(moves) && (d == 0 ==> NeverDeleted(moves))
    ensures Deleted(window, hash, Empty(callers), moves, 0) == d
    ensures AllDeclared(window, hash, Empty(callers), moves, 0) == (d + 1) * callers
  {
    var rounds := Rounds(window, hash, callers, d);
    var t;
    moves, t := OneRound(window, hash, callers, rounds, Product(d, callers), d);
    NothingFailed(window, hash, Empty(callers), moves, 0);
    ProductIsTimes(d + 1, callers);
  }

  lemma GetFails(window: nat, hash: Hash, callers: nat)
    requires callers >= 1
    ensures var r := Empty(callers);
            Moved(window, hash, r, Get(0, false)) == r && Declares(window, r, Get(0, false), 0, true)
  {
    assert Empty(callers).missed[0] == 0;
  }

  // `n` messages of one caller, each with GET failed.
  lemma {:induction false} FailInARow(window: nat, hash: Hash, callers: nat, n: nat) returns (moves: seq<Move>)
    requires callers >= 1
    ensures AfterMoves(window, hash, Empty(callers), moves) == Empty(callers) && NeverDeleted(moves)
    ensures Declared(window, hash, Empty(callers), moves, 0, true) == n
  {
    if n == 0 {
      moves := [];
    } else {
      var start := Empty(callers);
      var before := FailInARow(window, hash, callers, n - 1);
      GetFails(window, hash, callers);
      RaceAppend(window, hash, start, before, Get(0, false), 0, true);
      moves := before + [Get(0, false)];
      assert AfterMoves(window, hash, start, moves) == Moved(window, hash, start, Get(0, false)) == start;
    }
  }

  // ---- When there is a bound, and when it is one ----

  ghost predicate DeclaresWithin(window: nat, hash: Hash, callers: nat, f: Faults, bound: int) {
    forall start: Race, moves, from |
      AtMost(start.missed, 1) && |start.missed| == callers && Admissible(moves, f) ::
      AllDeclared(window, hash, start, moves, from) <= bound
  }

  // Redis is up and nothing is deleted.
  predicate Undisturbed(f: Faults) {
    !f.failed && !f.deleted
  }

  lemma DeclaresWithinCallers(window: nat, hash: Hash, callers: nat, f: Faults)
    requires Undisturbed(f) || callers == 0
    ensures DeclaresWithin(window, hash, callers, f, callers)
  {
    forall start: Race, moves, from |
      AtMost(start.missed, 1) && |start.missed| == callers && Admissible(moves, f)
      ensures AllDeclared(window, hash, start, moves, from) <= callers
    {
      RaceDeclaresAtMost(window, hash, start, moves, from);
      NothingFailed(window, hash, start, moves, from);
      if callers > 0 {
        NothingDeleted(window, hash, start, moves, from);
      }
    }
  }

  lemma DeclaresMore(window: nat, hash: Hash, callers: nat, f: Faults, bound: int)
    requires callers >= 1 && !Undisturbed(f)
    ensures !DeclaresWithin(window, hash, callers, f, bound)
  {
    var n: nat, moves := Max(bound + 1, 0), [];
    if f.failed {
      moves := FailInARow(window, hash, callers, n);
    } else {
      moves := RaceReached(window, hash, callers, n);
      assert (n + 1) * callers >= n + 1;
    }
    assert AtMost(Empty(callers).missed, 1) && AllDeclared(window, hash, Empty(callers), moves, 0) > bound;
  }

  // "One message with a body is unique in a window" holds of every run exactly when calls do not
  // overlap, Redis is up and nothing is deleted, or when there are no calls.
  lemma DeclaresOneIff(window: nat, hash: Hash, callers: nat, f: Faults)
    ensures DeclaresWithin(window, hash, callers, f, 1) <==> callers == 0 || (callers == 1 && Undisturbed(f))
  {
    if Undisturbed(f) || callers == 0 {
      DeclaresWithinCallers(window, hash, callers, f);
      var moves := RaceReached(window, hash, callers, 0);
      assert AtMost(Empty(callers).missed, 1) && Admissible(moves, f);
      assert AllDeclared(window, hash, Empty(callers), moves, 0) == callers;
    } else {
      DeclaresMore(window, hash, callers, f, 1);
    }
  }

  // There is any bound at all exactly when Redis is up and nothing is deleted, or there are no calls.
  lemma DeclaresBoundedIff(window: nat, hash: Hash, callers: nat, f: Faults)
    ensures (exists bound :: DeclaresWithin(window, hash, callers, f, bound)) <==> callers == 0 || Undisturbed(f)
  {
    if Undisturbed(f) || callers == 0 {
      DeclaresWithinCallers(window, hash, callers, f);
    } else {
      forall bound ensures !DeclaresWithin(window, hash, callers, f, bound) {
        DeclaresMore(window, hash, callers, f, bound);
      }
    }
  }
}
