// A whole SMTP session on the spool's disk: what the client was answered, and what is on the
// disk when the commands are done.
module Submission {
  import opened Common
  import opened Session
  import Spool

  // What the session made of a command: for DATA the disk says what its Write came to.
  ghost predicate HeardAs(c: Command, heard: Command) {
    heard == c || (c.Data? && heard.Data? && heard == c.(result := heard.result))
  }

  function IdsOf(commands: seq<Command>): set<string> {
    set c | c in commands && c.Data? :: c.msgID
  }

  function MailedBy(c: Command): Mailed
    requires c.Data?
  {
    Mailed(c.msgID, c.content)
  }

  // After the commands `done`: what was stored without an error is complete in incoming, and of
  // each message there is a complete copy exactly if it counts as kept.
  ghost predicate Sound(trace: seq<Effect>, files: Spool.Files, done: seq<Command>) {
    && (forall m | m in Kept(trace) :: m.msgID in IdsOf(done))
    && (forall m | m in Mailings(trace, {Stored}) ::
          m.msgID in IdsOf(done) && Spool.HasCopy(files, Spool.At(Spool.Incoming, m.msgID), m.data))
    && (forall c | c in done && c.Data? ::
          MailedBy(c) in Kept(trace) <==> Spool.Keeps(files, c.msgID, c.content))
  }

  lemma IdsAppend(done: seq<Command>, c: Command)
    ensures IdsOf(done + [c]) == IdsOf(done) + (if c.Data? then {c.msgID} else {})
  {
    assert forall k | k in done + [c] :: k in done || k == c;
    assert forall k | k in done || k == c :: k in done + [c];
  }

  lemma OthersUntouched(files: Spool.Files, files': Spool.Files, id: string, other: string, data: Bytes)
    requires Spool.OnlyTouches(files, files', Spool.PathsOf(id)) && other != id
    ensures Spool.HasCopy(files', Spool.At(Spool.Incoming, other), data)
       <==> Spool.HasCopy(files, Spool.At(Spool.Incoming, other), data)
    ensures Spool.Keeps(files', other, data) <==> Spool.Keeps(files, other, data)
  {
  }

  lemma SoundOther(cfg: Config, s: State, files: Spool.Files, done: seq<Command>, c: Command)
    requires Sound(s.trace, files, done) && !c.Data?
    ensures Sound(Step(cfg, s, c).0.trace, files, done + [c])
  {
    IdsAppend(done, c);
    MailingsOther(cfg, s, c, {Stored, LeftBehind});
    MailingsOther(cfg, s, c, {Stored});
  }

  lemma SoundData(cfg: Config, s: State, files: Spool.Files, files': Spool.Files, done: seq<Command>, c: Command)
    requires Sound(s.trace, files, done) && c.Data? && c.msgID !in IdsOf(done)
    requires Spool.OnlyTouches(files, files', Spool.PathsOf(c.msgID))
    requires Spool.Keeps(files', c.msgID, c.content) <==> Writing(cfg, s, c) && c.result != NotStored
    requires Writing(cfg, s, c) && c.result == Stored ==>
               Spool.HasCopy(files', Spool.At(Spool.Incoming, c.msgID), c.content)
    ensures Sound(Step(cfg, s, c).0.trace, files', done + [c])
  {
    IdsAppend(done, c);
    MailingsData(cfg, s, c, {Stored, LeftBehind});
    MailingsData(cfg, s, c, {Stored});
    var trace := Step(cfg, s, c).0.trace;
    forall m | m in Mailings(trace, {Stored})
      ensures Spool.HasCopy(files', Spool.At(Spool.Incoming, m.msgID), m.data)
    {
      if m in Mailings(s.trace, {Stored}) {
        OthersUntouched(files, files', c.msgID, m.msgID, m.data);
      }
    }
    forall d | d in done && d.Data?
      ensures MailedBy(d) in Kept(trace) <==> Spool.Keeps(files', d.msgID, d.content)
    {
      assert d.msgID in IdsOf(done);
      OthersUntouched(files, files', c.msgID, d.msgID, d.content);
    }
    assert MailedBy(c) !in Kept(s.trace);
  }

  // The identifiers drawn for the messages are new and different from one another.
  ghost predicate FreshIds(files: Spool.Files, commands: seq<Command>) {
    && (forall c | c in commands && c.Data? :: Spool.Unused(files, c.msgID))
    && (forall i, j | 0 <= i < j < |commands| && commands[i].Data? && commands[j].Data? ::
          commands[i].msgID != commands[j].msgID)
  }

  method Obey(session: SmtpSession, c: Command, now: int) returns (r: Reply, ghost heard: Command)
    requires session.spool.disk.Valid() && (c.Data? ==> Spool.Unused(session.spool.disk.files, c.msgID))
    modifies session, session.spool.disk
    ensures HeardAs(c, heard) && (session.Now(), r) == Step(session.config, old(session.Now()), heard)
    ensures session.spool.disk.Valid()
    ensures !c.Data? ==> session.spool.disk.files == old(session.spool.disk.files)
    ensures c.Data? ==>
              var files := session.spool.disk.files;
              var wrote := Writing(session.config, old(session.Now()), heard);
              && Spool.OnlyTouches(old(session.spool.disk.files), files, Spool.PathsOf(c.msgID))
              && (Spool.Keeps(files, c.msgID, c.content) <==> wrote && heard.result != NotStored)
              && (wrote && heard.result == Stored ==>
                    Spool.HasCopy(files, Spool.At(Spool.Incoming, c.msgID), c.content))
  {
    heard := c;
    match c {
      case Auth(mechanism) =>
        session.StartAuth(mechanism);
        r := Accepted;
      case Next(response, answers) => r := session.NextResponse(response, answers);
      case Mail(from, userAdmitted, globalAdmitted) => r := session.MailFrom(from, userAdmitted, globalAdmitted);
      case Rcpt(to) => r := session.RcptTo(to);
      case Data(content, readError, recipientsAdmitted, msgID, _) =>
        ghost var result;
        r, result := session.ReceiveData(content, readError, recipientsAdmitted, msgID, now);
        heard := c.(result := result);
      case Reset =>
        session.ResetEnvelope();
        r := Accepted;
    }
  }

  // One more command of a session that has gone through `done`.
  method Continue(session: SmtpSession, ghost done: seq<Command>, c: Command, now: int)
    returns (r: Reply, ghost heard: Command)
    requires session.spool.disk.Valid() && session.Now() == Run(session.config, done)
    requires Sound(session.trace, session.spool.disk.files, done)
    requires c.Data? ==> Spool.Unused(session.spool.disk.files, c.msgID) && c.msgID !in IdsOf(done)
    modifies session, session.spool.disk
    ensures HeardAs(c, heard) && session.spool.disk.Valid()
    ensures session.Now() == Run(session.config, done + [heard])
    ensures Sound(session.trace, session.spool.disk.files, done + [heard])
    ensures forall id | !(c.Data? && id == c.msgID) && Spool.Unused(old(session.spool.disk.files), id) ::
              Spool.Unused(session.spool.disk.files, id)
  {
    ghost var s, files := session.Now(), session.spool.disk.files;
    r, heard := Obey(session, c, now);
    if c.Data? {
      SoundData(session.config, s, files, session.spool.disk.files, done, heard);
    } else {
      SoundOther(session.config, s, files, done, heard);
    }
    RunAppend(session.config, done, heard);
  }

  // The identifiers still to come are unused, and have not been.
  ghost predicate FreshFrom(files: Spool.Files, heard: seq<Command>, commands: seq<Command>, i: nat) {
    forall j | i <= j < |commands| && commands[j].Data? ::
      Spool.Unused(files, commands[j].msgID) && commands[j].msgID !in IdsOf(heard)
  }

  lemma FreshNext(files: Spool.Files, files': Spool.Files, heard: seq<Command>, h: Command,
                  commands: seq<Command>, i: nat)
    requires i < |commands| && FreshFrom(files, heard, commands, i) && HeardAs(commands[i], h)
    requires forall j | i < j < |commands| && commands[i].Data? && commands[j].Data? ::
               commands[i].msgID != commands[j].msgID
    requires forall id | !(commands[i].Data? && id == commands[i].msgID) && Spool.Unused(files, id) ::
               Spool.Unused(files', id)
    ensures FreshFrom(files', heard + [h], commands, i + 1)
  {
    IdsAppend(heard, h);
  }

  // The whole session, whatever goes wrong in the spool: the session object goes through the run
  // of the commands as heard, each message answered as accepted is complete in incoming, and of
  // each message there is a complete copy in the spool exactly if it counts as kept.
  method Converse(session: SmtpSession, commands: seq<Command>, clock: nat -> int)
    returns (ghost heard: seq<Command>)
    requires session.spool.disk.Valid() && session.Now() == INIT
    requires FreshIds(session.spool.disk.files, commands)
    modifies session, session.spool.disk
    ensures |heard| == |commands| && forall i | 0 <= i < |commands| :: HeardAs(commands[i], heard[i])
    ensures session.Now() == Run(session.config, heard)
    ensures forall m | m in Acknowledged(session.config, heard) ::
              Spool.HasCopy(session.spool.disk.files, Spool.At(Spool.Incoming, m.msgID), m.data)
    ensures forall c | c in heard && c.Data? ::
              MailedBy(c) in Kept(Run(session.config, heard).trace)
              <==> Spool.Keeps(session.spool.disk.files, c.msgID, c.content)
  {
    heard := [];
    for i := 0 to |commands|
      invariant session.spool.disk.Valid() && |heard| == i
      invariant forall j | 0 <= j < i :: HeardAs(commands[j], heard[j])
      invariant session.Now() == Run(session.config, heard)
      invariant Sound(session.trace, session.spool.disk.files, heard)
      invariant FreshFrom(session.spool.disk.files, heard, commands, i)
    {
      ghost var files := session.spool.disk.files;
      ghost var h;
      var r;
      r, h := Continue(session, heard, commands[i], clock(i));
      FreshNext(files, session.spool.disk.files, heard, h, commands, i);
      heard := heard + [h];
    }
    AcknowledgedAreStored(session.config, heard);
  }
}
