// One SMTP session (internal/smtpserver/session.go): authentication, envelope
// and message, with the answers of the limiter and Redis as inputs; the session object
// writes to the spool itself.
module Session {
  import opened Common
  import Spool

  datatype Config = Config(maxRecipients: int, maxMessageSize: int)

  datatype Mechanism = Plain | Login | OtherMechanism

  // The state of one SASL exchange.
  datatype Sasl = Sasl(mechanism: Mechanism, username: Bytes, step: nat)

  // What a Write to the spool comes to: no error; an error after the message had its name, so
  // that it is in tmp or incoming all the same; or an error before that.
  datatype WriteResult = Stored | LeftBehind | NotStored

  // What the session asks of the rest of the daemon, in order.
  datatype Effect =
    | Allowlisted(username: Bytes)
    | IpCheck(admitted: bool)
    | PasswordCheck(username: Bytes, password: Bytes, ok: bool)
    | UserMessageCheck(user: Bytes, admitted: bool)
    | GlobalMessageCheck(admitted: bool)
    | RecipientCheck(user: Bytes, count: nat, admitted: bool)
    | SpoolWrite(msgID: string, data: Bytes, user: Bytes, recipients: nat, authenticated: bool, result: WriteResult)

  datatype State = State(
    authUser: Bytes,
    authenticated: bool,
    mailFrom: string,
    rcptTo: seq<string>,
    sasl: Option<Sasl>,
    trace: seq<Effect>)

  // The answers an authentication step may need.
  datatype Answers = Answers(allowlisted: bool, ipAdmitted: bool, passwordOk: bool)

  // A command, with what the client sends and how the rest of the daemon answers.
  datatype Command =
    | Auth(mechanism: Mechanism)
    | Next(response: Bytes, answers: Answers)
    | Mail(from: string, userAdmitted: bool, globalAdmitted: bool)
    | Rcpt(to: string)
    | Data(content: Bytes, readError: bool, recipientsAdmitted: bool, msgID: string, result: WriteResult)
    | Reset

  // Malformed is an error that carries no SMTP code of the daemon's own.
  datatype Reply = Accepted | Challenge(prompt: string) | Rejected(code: int) | Malformed

  const INIT: State := State([], false, "", [], None, [])

  // ---- SASL PLAIN ----

  // bytes.Split by the zero byte
  function Parts(b: Bytes): (parts: seq<Bytes>)
    ensures parts != []
  {
    if b == [] then [[]]
    else
      var rest := Parts(b[1..]);
      if b[0] == 0 then [[]] + rest else [[b[0]] + rest[0]] + rest[1..]
  }

  function PlainMessage(authzid: Bytes, username: Bytes, password: Bytes): Bytes {
    authzid + [0] + username + [0] + password
  }

  lemma {:induction false} PartsOfFirst(a: Bytes, rest: Bytes)
    requires 0 !in a
    ensures Parts(a + [0] + rest) == [a] + Parts(rest)
  {
    var b := a + [0] + rest;
    if a == [] {
      assert b[1..] == rest;
    } else {
      assert b[1..] == a[1..] + [0] + rest;
      PartsOfFirst(a[1..], rest);
      assert [a[0]] + a[1..] == a;
    }
  }

  lemma {:induction false} PartsOfLast(a: Bytes)
    requires 0 !in a
    ensures Parts(a) == [a]
  {
    if a != [] {
      PartsOfLast(a[1..]);
      assert [a[0]] + a[1..] == a;
    }
  }

  // The inverse of Parts.
  function Joined(parts: seq<Bytes>): Bytes {
    if parts == [] then [] else if |parts| == 1 then parts[0] else parts[0] + [0] + Joined(parts[1..])
  }

  lemma {:induction false} JoinedParts(b: Bytes)
    ensures Joined(Parts(b)) == b
    ensures forall i | 0 <= i < |Parts(b)| :: 0 !in Parts(b)[i]
  {
    if b != [] {
      JoinedParts(b[1..]);
      var rest, parts := Parts(b[1..]), Parts(b);
      if b[0] == 0 {
        assert parts[1..] == rest;
        assert Joined(parts) == [] + [0] + Joined(rest);
      } else {
        assert parts[1..] == rest[1..];
        assert Joined(parts) == [b[0]] + Joined(rest);
      }
      assert [b[0]] + b[1..] == b;
    }
  }

  lemma PlainRead(authzid: Bytes, username: Bytes, password: Bytes)
    requires 0 !in authzid && 0 !in username && 0 !in password
    ensures Parts(PlainMessage(authzid, username, password)) == [authzid, username, password]
  {
    assert PlainMessage(authzid, username, password) == authzid + [0] + (username + [0] + password);
    PartsOfFirst(authzid, username + [0] + password);
    PartsOfFirst(username, password);
    PartsOfLast(password);
  }

  lemma ThreePartsJoined(response: Bytes)
    requires |Parts(response)| == 3
    ensures var parts := Parts(response);
            response == PlainMessage(parts[0], parts[1], parts[2]) && 0 !in parts[0] && 0 !in parts[1] && 0 !in parts[2]
  {
    JoinedParts(response);
    var parts := Parts(response);
    assert parts[1..] == [parts[1], parts[2]] && [parts[1], parts[2]][1..] == [parts[2]];
    assert Joined([parts[1], parts[2]]) == parts[1] + [0] + Joined([parts[2]]);
    assert Joined(parts) == parts[0] + [0] + Joined([parts[1], parts[2]]);
  }

  // A response is read as (username, password) exactly when it is some PLAIN message of them
  // without further zero bytes (section 2 of RFC 4616); the authorization identity is ignored.
  lemma PlainReadsWhatWasSent(response: Bytes, username: Bytes, password: Bytes)
    ensures (|Parts(response)| == 3 && Parts(response)[1] == username && Parts(response)[2] == password)
       <==> (0 !in username && 0 !in password
             && exists authzid: Bytes :: 0 !in authzid && response == PlainMessage(authzid, username, password))
  {
    if |Parts(response)| == 3 {
      ThreePartsJoined(response);
    }
    if authzid: Bytes :|
      0 !in authzid && 0 !in username && 0 !in password && response == PlainMessage(authzid, username, password)
    {
      PlainRead(authzid, username, password);
    }
  }

  // ---- Commands ----

  function Authenticated(s: State, username: Bytes, password: Bytes, a: Answers): (State, Reply) {
    if a.allowlisted then
      (s.(authUser := username, authenticated := true, trace := s.trace + [Allowlisted(username)]), Accepted)
    else if !a.ipAdmitted then
      (s.(trace := s.trace + [IpCheck(false)]), Rejected(421))
    else if !a.passwordOk then
      (s.(trace := s.trace + [IpCheck(true), PasswordCheck(username, password, false)]), Rejected(535))
    else
      (s.(authUser := username, authenticated := true,
          trace := s.trace + [IpCheck(true), PasswordCheck(username, password, true)]), Accepted)
  }

  function SaslStep(s: State, sasl: Sasl, response: Bytes, a: Answers): (State, Reply) {
    match sasl.mechanism
    case OtherMechanism => (s, Malformed)
    case Plain =>
      var parts := Parts(response);
      if |parts| != 3 then (s, Malformed) else Authenticated(s, parts[1], parts[2], a)
    case Login =>
      var next := sasl.(step := sasl.step + 1);
      if next.step == 1 then (s.(sasl := Some(next)), Challenge("Username:"))
      else if next.step == 2 then (s.(sasl := Some(next.(username := response))), Challenge("Password:"))
      else if next.step == 3 then Authenticated(s.(sasl := Some(next)), sasl.username, response, a)
      else (s.(sasl := Some(next)), Malformed)
  }

  // What io.LimitReader lets through of a message: one byte more than is allowed, and nothing
  // at all under a limit that is not positive.
  function Read(cfg: Config, content: Bytes): Bytes {
    if cfg.maxMessageSize < 0 then []
    else if |content| <= cfg.maxMessageSize + 1 then content
    else content[..cfg.maxMessageSize + 1]
  }

  // The limits let some message through.
  predicate CanWrite(cfg: Config) {
    cfg.maxRecipients >= 1 && cfg.maxMessageSize >= 0
  }

  function DataStep(cfg: Config, s: State, c: Command): (State, Reply)
    requires c.Data?
  {
    if s.rcptTo == [] then (s, Rejected(503))
    else
      var checked := s.(trace := s.trace + [RecipientCheck(s.authUser, |s.rcptTo|, c.recipientsAdmitted)]);
      var buf := Read(cfg, c.content);
      if !c.recipientsAdmitted then (checked, Rejected(450))
      else if c.readError then (checked, Rejected(451))
      else if |buf| > cfg.maxMessageSize then (checked, Rejected(552))
      else
        (checked.(trace := checked.trace
            + [SpoolWrite(c.msgID, buf, s.authUser, |s.rcptTo|, s.authenticated, c.result)]),
         if c.result == Stored then Accepted else Rejected(451))
  }

  function Step(cfg: Config, s: State, c: Command): (State, Reply) {
    match c
    case Auth(mechanism) => (s.(sasl := Some(Sasl(mechanism, [], 0))), Accepted)
    case Next(response, answers) =>
      (match s.sasl
       case None => (s, Malformed)
       case Some(sasl) => SaslStep(s, sasl, response, answers))
    case Mail(from, userAdmitted, globalAdmitted) =>
      if !s.authenticated then (s, Rejected(530))
      else
        var user := s.(trace := s.trace + [UserMessageCheck(s.authUser, userAdmitted)]);
        if !userAdmitted then (user, Rejected(450))
        else
          var global := user.(trace := user.trace + [GlobalMessageCheck(globalAdmitted)]);
          if !globalAdmitted then (global, Rejected(450)) else (global.(mailFrom := from), Accepted)
    case Rcpt(to) =>
      if s.mailFrom == "" then (s, Rejected(503))
      else if |s.rcptTo| >= cfg.maxRecipients then (s, Rejected(452))
      else (s.(rcptTo := s.rcptTo + [to]), Accepted)
    case Data(_, _, _, _, _) => DataStep(cfg, s, c)
    case Reset => (s.(mailFrom := "", rcptTo := []), Accepted)
  }

  function Run(cfg: Config, commands: seq<Command>): State {
    if commands == [] then INIT
    else Step(cfg, Run(cfg, commands[..|commands| - 1]), commands[|commands| - 1]).0
  }

  // ---- Properties of every command sequence ----

  ghost predicate ProvedIdentity(trace: seq<Effect>, n: nat, user: Bytes) {
    exists i :: 0 <= i < n <= |trace| &&
      (trace[i] == Allowlisted(user) || (trace[i].PasswordCheck? && trace[i].username == user && trace[i].ok))
  }

  // A message goes to the spool only for a user who has proved who they are, after the quota
  // admitted all of its 1 .. maxRecipients recipients, and within the size limit.
  ghost predicate WriteJustified(cfg: Config, trace: seq<Effect>, n: nat)
    requires n < |trace| && trace[n].SpoolWrite?
  {
    var w := trace[n];
    && w.authenticated && ProvedIdentity(trace, n, w.user)
    && 1 <= w.recipients <= cfg.maxRecipients
    && |w.data| <= cfg.maxMessageSize
    && n > 0 && trace[n - 1] == RecipientCheck(w.user, w.recipients, true)
  }

  ghost predicate Before(trace: seq<Effect>, n: nat, e: Effect) {
    0 < n <= |trace| && trace[n - 1] == e
  }

  ghost predicate GoodTrace(cfg: Config, trace: seq<Effect>) {
    && (forall n | 0 <= n < |trace| && trace[n].SpoolWrite? :: WriteJustified(cfg, trace, n))
    && (forall n | 0 <= n < |trace| && trace[n].PasswordCheck? :: Before(trace, n, IpCheck(true)))
  }

  ghost predicate Good(cfg: Config, s: State) {
    && GoodTrace(cfg, s.trace)
    && (s.authenticated ==> ProvedIdentity(s.trace, |s.trace|, s.authUser))
    && (s.mailFrom != "" ==> s.authenticated)
    && (s.rcptTo != [] ==> s.authenticated && |s.rcptTo| <= cfg.maxRecipients)
  }

  lemma ProofLasts(trace: seq<Effect>, n: nat, m: nat, more: seq<Effect>, user: Bytes)
    requires ProvedIdentity(trace, n, user) && n <= m <= |trace + more|
    ensures ProvedIdentity(trace + more, m, user)
  {
    var i :| 0 <= i < n
             && (trace[i] == Allowlisted(user)
                 || (trace[i].PasswordCheck? && trace[i].username == user && trace[i].ok));
    assert (trace + more)[i] == trace[i];
  }

  lemma GoodTraceGrows(cfg: Config, trace: seq<Effect>, e: Effect)
    requires GoodTrace(cfg, trace)
    requires e.PasswordCheck? ==> Before(trace, |trace|, IpCheck(true))
    requires e.SpoolWrite? ==> WriteJustified(cfg, trace + [e], |trace|)
    ensures GoodTrace(cfg, trace + [e])
  {
    var t := trace + [e];
    forall n | 0 <= n < |t| && t[n].SpoolWrite? ensures WriteJustified(cfg, t, n) {
      if n < |trace| {
        assert WriteJustified(cfg, trace, n);
        ProofLasts(trace, n, n, [e], trace[n].user);
      }
    }
    forall n | 0 <= n < |t| && t[n].PasswordCheck? ensures Before(t, n, IpCheck(true)) {
      if n < |trace| {
        assert Before(trace, n, IpCheck(true));
      }
    }
  }

  lemma GoodAuthentication(cfg: Config, s: State, username: Bytes, password: Bytes, a: Answers)
    requires Good(cfg, s)
    ensures Good(cfg, Authenticated(s, username, password, a).0)
  {
    var t := Authenticated(s, username, password, a).0;
    if a.allowlisted {
      GoodTraceGrows(cfg, s.trace, Allowlisted(username));
      assert t.trace[|s.trace|] == Allowlisted(username);
    } else {
      GoodTraceGrows(cfg, s.trace, IpCheck(a.ipAdmitted));
      if a.ipAdmitted {
        var checked, e := s.trace + [IpCheck(true)], PasswordCheck(username, password, a.passwordOk);
        GoodTraceGrows(cfg, checked, e);
        assert t.trace == checked + [e] && t.trace[|checked|] == e;
      }
    }
    if s.authenticated {
      var more := t.trace[|s.trace|..];
      assert t.trace == s.trace + more;
      ProofLasts(s.trace, |s.trace|, |t.trace|, more, s.authUser);
    }
  }

  lemma GoodData(cfg: Config, s: State, c: Command)
    requires Good(cfg, s) && c.Data?
    ensures Good(cfg, DataStep(cfg, s, c).0)
  {
    if s.rcptTo != [] {
      var t, check := DataStep(cfg, s, c).0, RecipientCheck(s.authUser, |s.rcptTo|, c.recipientsAdmitted);
      GoodTraceGrows(cfg, s.trace, check);
      var checked := s.trace + [check];
      ProofLasts(s.trace, |s.trace|, |checked|, [check], s.authUser);
      if t.trace != checked {
        var w := t.trace[|checked|];
        assert t.trace == checked + [w];
        ProofLasts(checked, |checked|, |checked|, [w], s.authUser);
        ProofLasts(checked, |checked|, |t.trace|, [w], s.authUser);
        GoodTraceGrows(cfg, checked, w);
      }
    }
  }

  lemma GoodMail(cfg: Config, s: State, c: Command)
    requires Good(cfg, s) && c.Mail?
    ensures Good(cfg, Step(cfg, s, c).0)
  {
    if s.authenticated {
      var a, b := UserMessageCheck(s.authUser, c.userAdmitted), GlobalMessageCheck(c.globalAdmitted);
      GoodTraceGrows(cfg, s.trace, a);
      ProofLasts(s.trace, |s.trace|, |s.trace| + 1, [a], s.authUser);
      GoodTraceGrows(cfg, s.trace + [a], b);
      ProofLasts(s.trace + [a], |s.trace| + 1, |s.trace| + 2, [b], s.authUser);
    }
  }

  lemma GoodStep(cfg: Config, s: State, c: Command)
    requires Good(cfg, s)
    ensures Good(cfg, Step(cfg, s, c).0)
  {
    match c {
      case Next(response, answers) =>
        if s.sasl.Some? {
          var sasl := s.sasl.value;
          if sasl.mechanism == Plain && |Parts(response)| == 3 {
            GoodAuthentication(cfg, s, Parts(response)[1], Parts(response)[2], answers);
          } else if sasl.mechanism == Login && sasl.step == 2 {
            GoodAuthentication(cfg, s.(sasl := Some(sasl.(step := 3))), sasl.username, response, answers);
          }
        }
      case Mail(_, _, _) => GoodMail(cfg, s, c);
      case Data(_, _, _, _, _) => GoodData(cfg, s, c);
      case _ =>
    }
  }

  // Over every command sequence each write to the spool is justified, and each password check
  // comes right after an admitted check of the client's address.
  lemma {:induction false} EveryEffectJustified(cfg: Config, commands: seq<Command>)
    ensures Good(cfg, Run(cfg, commands))
  {
    if commands != [] {
      EveryEffectJustified(cfg, commands[..|commands| - 1]);
      GoodStep(cfg, Run(cfg, commands[..|commands| - 1]), commands[|commands| - 1]);
    }
  }

  // ---- What single commands come to ----

  // An attempt to authenticate as `u` with password `p` took the session from `s` to `t`: the
  // allowlist comes first, then the limit on the address, and then the password.
  ghost predicate Attempted(s: State, t: State, r: Reply, u: Bytes, p: Bytes, a: Answers) {
    && (r == Accepted <==> a.allowlisted || (a.ipAdmitted && a.passwordOk))
    && (r == Rejected(421) <==> !a.allowlisted && !a.ipAdmitted)
    && (r == Rejected(535) <==> !a.allowlisted && a.ipAdmitted && !a.passwordOk)
    && t.authUser == (if r == Accepted then u else s.authUser)
    && t.authenticated == (r == Accepted || s.authenticated)
    && t.trace == s.trace + (if a.allowlisted then [Allowlisted(u)]
                             else if !a.ipAdmitted then [IpCheck(false)]
                             else [IpCheck(true), PasswordCheck(u, p, a.passwordOk)])
    && t.mailFrom == s.mailFrom && t.rcptTo == s.rcptTo
  }

  // AUTH PLAIN and one response: identity, user name and password between zero bytes.
  lemma PlainAttempts(cfg: Config, s: State, authzid: Bytes, u: Bytes, p: Bytes, a: Answers)
    requires 0 !in authzid && 0 !in u && 0 !in p
    ensures var (s1, r1) := Step(cfg, s, Auth(Plain));
            var (t, r) := Step(cfg, s1, Next(authzid + [0] + u + [0] + p, a));
            r1 == Accepted && s1 == s.(sasl := s1.sasl) && Attempted(s, t, r, u, p, a)
  {
    PlainRead(authzid, u, p);
  }

  // Any other response is malformed and changes nothing.
  lemma NotPlainIsMalformed(cfg: Config, s: State, response: Bytes, a: Answers)
    requires forall authzid: Bytes, u: Bytes, p: Bytes | 0 !in authzid && 0 !in u && 0 !in p ::
               response != authzid + [0] + u + [0] + p
    ensures var s1 := Step(cfg, s, Auth(Plain)).0;
            Step(cfg, s1, Next(response, a)) == (s1, Malformed)
  {
    if |Parts(response)| == 3 {
      ThreePartsJoined(response);
    }
  }

  // AUTH LOGIN: the first response counts for nothing, the second is the user name and the third
  // the password; after that every response is malformed.
  lemma LoginAttempts(cfg: Config, s: State, x: Bytes, u: Bytes, p: Bytes, more: Bytes, a: seq<Answers>)
    requires |a| == 4
    ensures var (s1, r1) := Step(cfg, s, Auth(Login));
            var (s2, r2) := Step(cfg, s1, Next(x, a[0]));
            var (s3, r3) := Step(cfg, s2, Next(u, a[1]));
            var (t, r) := Step(cfg, s3, Next(p, a[2]));
            var (t', r') := Step(cfg, t, Next(more, a[3]));
            && r1 == Accepted && r2 == Challenge("Username:") && r3 == Challenge("Password:")
            && s1 == s.(sasl := s1.sasl) && s2 == s.(sasl := s2.sasl) && s3 == s.(sasl := s3.sasl)
            && Attempted(s, t, r, u, p, a[2])
            && r' == Malformed && t' == t.(sasl := t'.sasl)
  {
  }

  // Other mechanisms, and responses without an exchange, are malformed and change nothing.
  lemma NoSuchExchange(cfg: Config, s: State, response: Bytes, a: Answers)
    requires s.sasl == None || s.sasl.value.mechanism == OtherMechanism
    ensures Step(cfg, s, Next(response, a)) == (s, Malformed)
  {
  }

  // MAIL is accepted exactly for an authenticated user within the user's and the global limit,
  // asked in this order, and only then is the sender kept.
  lemma MailAnswers(cfg: Config, s: State, from: string, userAdmitted: bool, globalAdmitted: bool)
    ensures var (t, r) := Step(cfg, s, Mail(from, userAdmitted, globalAdmitted));
            && (r == Accepted <==> s.authenticated && userAdmitted && globalAdmitted)
            && (r == Rejected(530) <==> !s.authenticated)
            && (r == Rejected(450) <==> s.authenticated && !(userAdmitted && globalAdmitted))
            && t == s.(mailFrom := t.mailFrom, trace := t.trace)
            && t.mailFrom == (if r == Accepted then from else s.mailFrom)
            && t.trace == s.trace + (if !s.authenticated then []
                                     else if !userAdmitted then [UserMessageCheck(s.authUser, false)]
                                     else [UserMessageCheck(s.authUser, true), GlobalMessageCheck(globalAdmitted)])
  {
  }

  // RCPT is accepted exactly after a sender and with room left, and adds the recipient at the end.
  lemma RcptAnswers(cfg: Config, s: State, to: string)
    ensures var (t, r) := Step(cfg, s, Rcpt(to));
            && (r == Accepted <==> s.mailFrom != "" && |s.rcptTo| < cfg.maxRecipients)
            && (r == Rejected(503) <==> s.mailFrom == "")
            && (r == Rejected(452) <==> s.mailFrom != "" && |s.rcptTo| >= cfg.maxRecipients)
            && t == s.(rcptTo := if r == Accepted then s.rcptTo + [to] else s.rcptTo)
  {
  }

  // DATA writes the whole message or nothing: it writes exactly when there are recipients, the
  // quota admits them, the message can be read and fits; each of the other cases has its answer.
  lemma WholeMessageOrNone(cfg: Config, s: State, c: Command)
    requires c.Data?
    ensures var (t, r) := Step(cfg, s, c);
            var fits := |c.content| <= cfg.maxMessageSize;
            var asked := s.rcptTo != [];
            var wrote := asked && c.recipientsAdmitted && !c.readError && fits;
            && (r == Accepted <==> wrote && c.result == Stored)
            && (r == Rejected(503) <==> !asked)
            && (r == Rejected(450) <==> asked && !c.recipientsAdmitted)
            && (r == Rejected(552) <==> asked && c.recipientsAdmitted && !c.readError && !fits)
            && (r == Rejected(451) <==>
                  (asked && c.recipientsAdmitted && c.readError) || (wrote && c.result != Stored))
            && t == s.(trace := t.trace)
            && t.trace == s.trace
                          + (if asked then [RecipientCheck(s.authUser, |s.rcptTo|, c.recipientsAdmitted)] else [])
                          + (if wrote then [SpoolWrite(c.msgID, c.content, s.authUser, |s.rcptTo|,
                                                       s.authenticated, c.result)]
                             else [])
  {
  }

  // RSET, and the server's own reset, forget the envelope and nothing else.
  lemma ResetForgets(cfg: Config, s: State)
    ensures Step(cfg, s, Reset) == (s.(mailFrom := "", rcptTo := []), Accepted)
  {
  }

  // An accepted MAIL lets recipients follow exactly when its reverse-path is not empty: the
  // null reverse-path of section 4.5.5 of RFC 5321 is accepted and then treated as no MAIL at all.
  lemma RecipientsFollowIffNamedSender(cfg: Config, s: State, mail: Command, to: string)
    requires mail.Mail? && Step(cfg, s, mail).1 == Accepted && |s.rcptTo| < cfg.maxRecipients
    ensures var t := Step(cfg, s, mail).0;
            && (Step(cfg, t, Rcpt(to)).1 == Accepted <==> mail.from != "")
            && (Step(cfg, t, Rcpt(to)).1 == Rejected(503) <==> mail.from == "")
  {
  }

  // ---- Messages spooled against messages admitted ----

  function Writes(trace: seq<Effect>): nat {
    if trace == [] then 0 else Writes(trace[..|trace| - 1]) + (if trace[|trace| - 1].SpoolWrite? then 1 else 0)
  }

  function Admitted(trace: seq<Effect>): nat {
    if trace == [] then 0
    else Admitted(trace[..|trace| - 1]) + (if trace[|trace| - 1] == GlobalMessageCheck(true) then 1 else 0)
  }

  lemma CountsGrow(trace: seq<Effect>, e: Effect)
    ensures Writes(trace + [e]) == Writes(trace) + (if e.SpoolWrite? then 1 else 0)
    ensures Admitted(trace + [e]) == Admitted(trace) + (if e == GlobalMessageCheck(true) then 1 else 0)
  {
    assert (trace + [e])[..|trace|] == trace;
  }

  // The server resets the session after every DATA.
  ghost predicate ResetAfterData(commands: seq<Command>) {
    forall i | 0 <= i < |commands| - 1 && commands[i].Data? :: commands[i + 1].Reset?
  }

  // An envelope that may still be sent counts as a write to come, unless it was just sent.
  ghost predicate Paid(s: State, justSent: bool) {
    Writes(s.trace) + (if !justSent && (s.mailFrom != "" || s.rcptTo != []) then 1 else 0) <= Admitted(s.trace)
  }

  lemma PaidAuthentication(s: State, username: Bytes, password: Bytes, a: Answers)
    requires Paid(s, false)
    ensures Paid(Authenticated(s, username, password, a).0, false)
  {
    CountsGrow(s.trace, Allowlisted(username));
    CountsGrow(s.trace, IpCheck(a.ipAdmitted));
    var check := PasswordCheck(username, password, a.passwordOk);
    CountsGrow(s.trace + [IpCheck(true)], check);
    assert s.trace + [IpCheck(true), check] == s.trace + [IpCheck(true)] + [check];
  }

  lemma PaidMail(cfg: Config, s: State, c: Command)
    requires Paid(s, false) && c.Mail?
    ensures Paid(Step(cfg, s, c).0, false)
  {
    var user := UserMessageCheck(s.authUser, c.userAdmitted);
    CountsGrow(s.trace, user);
    CountsGrow(s.trace + [user], GlobalMessageCheck(c.globalAdmitted));
  }

  lemma PaidData(cfg: Config, s: State, c: Command)
    requires Paid(s, false) && c.Data?
    ensures Paid(Step(cfg, s, c).0, true)
  {
    var check := RecipientCheck(s.authUser, |s.rcptTo|, c.recipientsAdmitted);
    CountsGrow(s.trace, check);
    CountsGrow(s.trace + [check],
               SpoolWrite(c.msgID, Read(cfg, c.content), s.authUser, |s.rcptTo|, s.authenticated, c.result));
  }

  lemma {:induction false} PaidStep(cfg: Config, s: State, c: Command, justSent: bool)
    requires Paid(s, justSent) && (justSent ==> c.Reset?)
    ensures Paid(Step(cfg, s, c).0, c.Data?)
  {
    match c {
      case Next(response, a) =>
        if s.sasl.Some? {
          var sasl := s.sasl.value;
          if sasl.mechanism == Plain && |Parts(response)| == 3 {
            PaidAuthentication(s, Parts(response)[1], Parts(response)[2], a);
          } else if sasl.mechanism == Login && sasl.step == 2 {
            PaidAuthentication(s.(sasl := Some(sasl.(step := 3))), sasl.username, response, a);
          }
        }
      case Mail(_, _, _) => PaidMail(cfg, s, c);
      case Data(_, _, _, _, _) => PaidData(cfg, s, c);
      case _ =>
    }
  }

  // A session whose DATA commands are each followed by a reset writes at most one message to
  // the spool for every MAIL that passed the user's and the global message limits.
  lemma {:induction false} WritesWithinAdmissions(cfg: Config, commands: seq<Command>)
    requires ResetAfterData(commands)
    ensures Paid(Run(cfg, commands), commands != [] && commands[|commands| - 1].Data?)
    ensures Writes(Run(cfg, commands).trace) <= Admitted(Run(cfg, commands).trace)
  {
    if commands != [] {
      var prefix := commands[..|commands| - 1];
      assert forall i | 0 <= i < |prefix| :: prefix[i] == commands[i];
      WritesWithinAdmissions(cfg, prefix);
      PaidStep(cfg, Run(cfg, prefix), commands[|commands| - 1], prefix != [] && prefix[|prefix| - 1].Data?);
    }
  }

  // What the session is told when the client sends `commands`: a server that resets does so
  // after every DATA.
  function Served(resets: bool, commands: seq<Command>): seq<Command> {
    if commands == [] then []
    else
      var last := commands[|commands| - 1];
      Served(resets, commands[..|commands| - 1]) + (if resets && last.Data? then [last, Reset] else [last])
  }

  lemma {:induction false} ServedResets(commands: seq<Command>)
    ensures var served := Served(true, commands);
            ResetAfterData(served) && (served != [] ==> !served[|served| - 1].Data?)
  {
    if commands != [] {
      ServedResets(commands[..|commands| - 1]);
    }
  }

  lemma {:induction false} ServedAsSent(commands: seq<Command>)
    ensures Served(false, commands) == commands
  {
    if commands != [] {
      ServedAsSent(commands[..|commands| - 1]);
    }
  }

  lemma {:induction false} NoWrites(trace: seq<Effect>)
    requires forall n | 0 <= n < |trace| :: !trace[n].SpoolWrite?
    ensures Writes(trace) == 0
  {
    if trace != [] {
      NoWrites(trace[..|trace| - 1]);
    }
  }

  lemma RunAppend(cfg: Config, commands: seq<Command>, c: Command)
    ensures Run(cfg, commands + [c]) == Step(cfg, Run(cfg, commands), c).0
  {
    assert (commands + [c])[..|commands|] == commands;
  }

  // DATA itself leaves the envelope in place, so a second DATA in a row writes again.
  lemma DataWritesOnce(cfg: Config, s: State, c: Command)
    requires c.Data? && c.recipientsAdmitted && !c.readError && |c.content| <= cfg.maxMessageSize && s.rcptTo != []
    ensures var t := Step(cfg, s, c).0;
            t.rcptTo == s.rcptTo && Writes(t.trace) == Writes(s.trace) + 1 && Admitted(t.trace) == Admitted(s.trace)
  {
    var check := RecipientCheck(s.authUser, |s.rcptTo|, c.recipientsAdmitted);
    CountsGrow(s.trace, check);
    CountsGrow(s.trace + [check],
               SpoolWrite(c.msgID, Read(cfg, c.content), s.authUser, |s.rcptTo|, s.authenticated, c.result));
  }

  // One admitted MAIL, one recipient and `n` DATA commands in a row.
  lemma {:induction false} DataInARow(cfg: Config, n: nat) returns (commands: seq<Command>)
    requires CanWrite(cfg)
    ensures var s := Run(cfg, commands);
            s.rcptTo != [] && Writes(s.trace) == n && Admitted(s.trace) == 1
  {
    if n == 0 {
      var login, mail := Next([0, 0], Answers(true, true, true)), Mail("sender", true, true);
      commands := [Auth(Plain)] + [login] + [mail] + [Rcpt("recipient")];
      var s1 := Step(cfg, INIT, Auth(Plain)).0;
      PlainRead([], [], []);
      assert PlainMessage([], [], []) == [0, 0];
      var s2 := Step(cfg, s1, login).0;
      assert s2.authenticated && s2.trace == [Allowlisted([])];
      RunAppend(cfg, [], Auth(Plain));
      assert [] + [Auth(Plain)] == [Auth(Plain)];
      RunAppend(cfg, [Auth(Plain)], login);
      RunAppend(cfg, [Auth(Plain)] + [login], mail);
      RunAppend(cfg, [Auth(Plain)] + [login] + [mail], Rcpt("recipient"));
      CountsGrow([], Allowlisted([]));
      CountsGrow([Allowlisted([])], UserMessageCheck([], true));
      CountsGrow([Allowlisted([]), UserMessageCheck([], true)], GlobalMessageCheck(true));
      assert [] + [Allowlisted([])] == [Allowlisted([])];
      assert Run(cfg, commands).trace
          == [Allowlisted([]), UserMessageCheck([], true)] + [GlobalMessageCheck(true)];
    } else {
      commands := DataInARow(cfg, n - 1);
      var data := Data([], false, true, "msg", Stored);
      DataWritesOnce(cfg, Run(cfg, commands), data);
      RunAppend(cfg, commands, data);
      commands := commands + [data];
    }
  }

  ghost predicate PaidFor(cfg: Config, resets: bool) {
    forall commands ::
      Writes(Run(cfg, Served(resets, commands)).trace) <= Admitted(Run(cfg, Served(resets, commands)).trace)
  }

  // "A session spools at most one message for every MAIL that passed the limits" holds of every
  // session exactly when the server resets it after DATA, or the limits let no message through.
  lemma PaidForIffReset(cfg: Config, resets: bool)
    ensures PaidFor(cfg, resets) <==> resets || !CanWrite(cfg)
  {
    if resets || !CanWrite(cfg) {
      forall commands
        ensures Writes(Run(cfg, Served(resets, commands)).trace) <= Admitted(Run(cfg, Served(resets, commands)).trace)
      {
        if resets {
          ServedResets(commands);
          WritesWithinAdmissions(cfg, Served(resets, commands));
        } else {
          EveryEffectJustified(cfg, Served(resets, commands));
          NoWrites(Run(cfg, Served(resets, commands)).trace);
        }
      }
    } else {
      var commands := DataInARow(cfg, 2);
      ServedAsSent(commands);
    }
  }

  // ---- Messages kept against messages acknowledged ----

  datatype Mailed = Mailed(msgID: string, data: Bytes)

  // The messages of the writes that came to one of `results`, in order.
  function Mailings(trace: seq<Effect>, results: set<WriteResult>): seq<Mailed> {
    if trace == [] then []
    else
      var e := trace[|trace| - 1];
      Mailings(trace[..|trace| - 1], results)
      + (if e.SpoolWrite? && e.result in results then [Mailed(e.msgID, e.data)] else [])
  }

  // The messages that are in the spool.
  function Kept(trace: seq<Effect>): seq<Mailed> {
    Mailings(trace, {Stored, LeftBehind})
  }

  // The messages that were answered as accepted, as the client sent them.
  function Acknowledged(cfg: Config, commands: seq<Command>): seq<Mailed> {
    if commands == [] then []
    else
      var prefix, c := commands[..|commands| - 1], commands[|commands| - 1];
      Acknowledged(cfg, prefix)
      + (if c.Data? && Step(cfg, Run(cfg, prefix), c).1 == Accepted then [Mailed(c.msgID, c.content)] else [])
  }

  lemma MailingsGrow(trace: seq<Effect>, e: Effect, results: set<WriteResult>)
    ensures Mailings(trace + [e], results)
         == Mailings(trace, results)
            + (if e.SpoolWrite? && e.result in results then [Mailed(e.msgID, e.data)] else [])
  {
    assert (trace + [e])[..|trace|] == trace;
  }

  lemma MailingsAuthentication(s: State, username: Bytes, password: Bytes, a: Answers, results: set<WriteResult>)
    ensures Mailings(Authenticated(s, username, password, a).0.trace, results) == Mailings(s.trace, results)
  {
    MailingsGrow(s.trace, Allowlisted(username), results);
    MailingsGrow(s.trace, IpCheck(a.ipAdmitted), results);
    var check := PasswordCheck(username, password, a.passwordOk);
    MailingsGrow(s.trace + [IpCheck(true)], check, results);
    assert s.trace + [IpCheck(true), check] == s.trace + [IpCheck(true)] + [check];
  }

  // DATA gets as far as the spool.
  predicate Writing(cfg: Config, s: State, c: Command) {
    && c.Data? && s.rcptTo != [] && c.recipientsAdmitted && !c.readError
    && |c.content| <= cfg.maxMessageSize
  }

  lemma MailingsData(cfg: Config, s: State, c: Command, results: set<WriteResult>)
    requires c.Data?
    ensures var (t, reply) := Step(cfg, s, c);
            && Mailings(t.trace, results)
               == Mailings(s.trace, results)
                  + (if Writing(cfg, s, c) && c.result in results then [Mailed(c.msgID, c.content)] else [])
            && (reply == Accepted <==> Writing(cfg, s, c) && c.result == Stored)
  {
    var check := RecipientCheck(s.authUser, |s.rcptTo|, c.recipientsAdmitted);
    MailingsGrow(s.trace, check, results);
    MailingsGrow(s.trace + [check],
                 SpoolWrite(c.msgID, Read(cfg, c.content), s.authUser, |s.rcptTo|, s.authenticated, c.result), results);
  }

  lemma MailingsMail(cfg: Config, s: State, c: Command, results: set<WriteResult>)
    requires c.Mail?
    ensures Mailings(Step(cfg, s, c).0.trace, results) == Mailings(s.trace, results)
  {
    var user := UserMessageCheck(s.authUser, c.userAdmitted);
    MailingsGrow(s.trace, user, results);
    MailingsGrow(s.trace + [user], GlobalMessageCheck(c.globalAdmitted), results);
  }

  lemma MailingsNext(s: State, sasl: Sasl, response: Bytes, a: Answers, results: set<WriteResult>)
    ensures Mailings(SaslStep(s, sasl, response, a).0.trace, results) == Mailings(s.trace, results)
  {
    if sasl.mechanism == Plain && |Parts(response)| == 3 {
      MailingsAuthentication(s, Parts(response)[1], Parts(response)[2], a, results);
    } else if sasl.mechanism == Login && sasl.step == 2 {
      MailingsAuthentication(s.(sasl := Some(sasl.(step := 3))), sasl.username, response, a, results);
    }
  }

  lemma {:induction false} MailingsOther(cfg: Config, s: State, c: Command, results: set<WriteResult>)
    requires !c.Data?
    ensures Mailings(Step(cfg, s, c).0.trace, results) == Mailings(s.trace, results)
  {
    match c {
      case Next(response, a) =>
        if s.sasl.Some? {
          MailingsNext(s, s.sasl.value, response, a, results);
        }
      case Mail(_, _, _) => MailingsMail(cfg, s, c, results);
      case _ =>
    }
  }

  // Over every command sequence the messages answered as accepted are exactly those whose Write
  // returned without an error: whole and in order.
  lemma {:induction false} AcknowledgedAreStored(cfg: Config, commands: seq<Command>)
    ensures Mailings(Run(cfg, commands).trace, {Stored}) == Acknowledged(cfg, commands)
  {
    if commands != [] {
      var prefix, c := commands[..|commands| - 1], commands[|commands| - 1];
      AcknowledgedAreStored(cfg, prefix);
      if c.Data? {
        MailingsData(cfg, Run(cfg, prefix), c, {Stored});
      } else {
        MailingsOther(cfg, Run(cfg, prefix), c, {Stored});
      }
    }
  }

  ghost predicate NoneLeftBehind(trace: seq<Effect>) {
    forall n | 0 <= n < |trace| && trace[n].SpoolWrite? :: trace[n].result != LeftBehind
  }

  lemma {:induction false} KeptAreStored(trace: seq<Effect>)
    ensures |Kept(trace)| >= |Mailings(trace, {Stored})|
    ensures NoneLeftBehind(trace) ==> Kept(trace) == Mailings(trace, {Stored})
    ensures |Kept(trace)| == |Mailings(trace, {Stored})| ==> NoneLeftBehind(trace)
  {
    if trace != [] {
      KeptAreStored(trace[..|trace| - 1]);
      assert trace == trace[..|trace| - 1] + [trace[|trace| - 1]];
    }
  }

  // A session keeps exactly the messages it answered as accepted if and only if none of its
  // writes failed after the message had its name.
  lemma KeptIffNoneLeftBehind(cfg: Config, commands: seq<Command>)
    ensures Kept(Run(cfg, commands).trace) == Acknowledged(cfg, commands)
       <==> NoneLeftBehind(Run(cfg, commands).trace)
  {
    AcknowledgedAreStored(cfg, commands);
    KeptAreStored(Run(cfg, commands).trace);
  }

  // No Write fails once the message has its name.
  ghost predicate NeverLate(commands: seq<Command>) {
    forall i | 0 <= i < |commands| && commands[i].Data? :: commands[i].result != LeftBehind
  }

  lemma {:induction false} NoneLeftIffNoMailings(trace: seq<Effect>)
    ensures NoneLeftBehind(trace) <==> Mailings(trace, {LeftBehind}) == []
  {
    if trace != [] {
      NoneLeftIffNoMailings(trace[..|trace| - 1]);
      assert trace == trace[..|trace| - 1] + [trace[|trace| - 1]];
    }
  }

  lemma {:induction false} NeverLateLeavesNothing(cfg: Config, commands: seq<Command>)
    requires NeverLate(commands)
    ensures Mailings(Run(cfg, commands).trace, {LeftBehind}) == []
  {
    if commands != [] {
      var prefix, c := commands[..|commands| - 1], commands[|commands| - 1];
      assert forall i | 0 <= i < |prefix| :: prefix[i] == commands[i];
      NeverLateLeavesNothing(cfg, prefix);
      if c.Data? {
        MailingsData(cfg, Run(cfg, prefix), c, {LeftBehind});
      } else {
        MailingsOther(cfg, Run(cfg, prefix), c, {LeftBehind});
      }
    }
  }

  lemma TwoMailings(cfg: Config, s: State, first: Command, again: Command, results: set<WriteResult>)
    requires Writing(cfg, s, first) && Writing(cfg, s, again) && Writes(s.trace) == 0
    ensures Mailings(Step(cfg, Step(cfg, s, first).0, again).0.trace, results)
         == (if first.result in results then [Mailed(first.msgID, first.content)] else [])
            + (if again.result in results then [Mailed(again.msgID, again.content)] else [])
  {
    var s1 := Step(cfg, s, first).0;
    NoMailings(s.trace, results);
    MailingsData(cfg, s, first, results);
    MailingsData(cfg, s1, again, results);
  }

  // A message is answered 451 and left in the spool; the client sends it again, and it is kept twice.
  lemma SentAgain(cfg: Config) returns (commands: seq<Command>)
    requires CanWrite(cfg)
    ensures Kept(Run(cfg, commands).trace) == [Mailed("first", []), Mailed("again", [])]
    ensures Acknowledged(cfg, commands) == [Mailed("again", [])]
  {
    var before := DataInARow(cfg, 0);
    var first, again := Data([], false, true, "first", LeftBehind), Data([], false, true, "again", Stored);
    TwoMailings(cfg, Run(cfg, before), first, again, {Stored, LeftBehind});
    TwoMailings(cfg, Run(cfg, before), first, again, {Stored});
    RunAppend(cfg, before, first);
    RunAppend(cfg, before + [first], again);
    commands := before + [first] + [again];
    AcknowledgedAreStored(cfg, commands);
  }

  lemma {:induction false} NoMailings(trace: seq<Effect>, results: set<WriteResult>)
    requires Writes(trace) == 0
    ensures Mailings(trace, results) == []
  {
    if trace != [] {
      NoMailings(trace[..|trace| - 1], results);
    }
  }

  ghost predicate KeepsWhatItAcknowledges(cfg: Config, mayBeLate: bool) {
    forall commands | mayBeLate || NeverLate(commands) ::
      Kept(Run(cfg, commands).trace) == Acknowledged(cfg, commands)
  }

  // "The messages kept are those answered as accepted" holds of every session exactly when no
  // Write fails after the naming of its message, or the limits let no message through.
  lemma KeptIsAcknowledgedIff(cfg: Config, mayBeLate: bool)
    ensures KeepsWhatItAcknowledges(cfg, mayBeLate) <==> !mayBeLate || !CanWrite(cfg)
  {
    if !mayBeLate || !CanWrite(cfg) {
      forall commands | mayBeLate || NeverLate(commands)
        ensures Kept(Run(cfg, commands).trace) == Acknowledged(cfg, commands)
      {
        if CanWrite(cfg) {
          NeverLateLeavesNothing(cfg, commands);
          NoneLeftIffNoMailings(Run(cfg, commands).trace);
        } else {
          EveryEffectJustified(cfg, commands);
        }
        KeptIffNoneLeftBehind(cfg, commands);
      }
    } else {
      var commands := SentAgain(cfg);
      assert Kept(Run(cfg, commands).trace) != Acknowledged(cfg, commands);
    }
  }

  // ---- The session object ----

  class SmtpSession {
    const config: Config
    const spool: Spool.Spool
    var authUser: Bytes
    var authenticated: bool
    var mailFrom: string
    var rcptTo: seq<string>
    var sasl: Option<Sasl>
    ghost var trace: seq<Effect>

    ghost function Now(): State
      reads this
    {
      State(authUser, authenticated, mailFrom, rcptTo, sasl, trace)
    }

    constructor (config: Config, spool: Spool.Spool)
      ensures this.config == config && this.spool == spool && Now() == INIT
    {
      this.config, this.spool := config, spool;
      authUser, authenticated, mailFrom, rcptTo, sasl, trace := [], false, "", [], None, [];
    }

    method StartAuth(mechanism: Mechanism)
      modifies this
      ensures Now() == Step(config, old(Now()), Auth(mechanism)).0
    {
      sasl := Some(Sasl(mechanism, [], 0));
    }

    method SplitByZero(b: Bytes) returns (parts: seq<Bytes>)
      ensures parts == Parts(b)
    {
      parts := [[]];
      var i := |b|;
      while i > 0
        invariant 0 <= i <= |b| && parts == Parts(b[i..])
      {
        i := i - 1;
        assert b[i..][1..] == b[i + 1..];
        parts := if b[i] == 0 then [[]] + parts else [[b[i]] + parts[0]] + parts[1..];
      }
      assert b[0..] == b;
    }

    method Authenticate(username: Bytes, password: Bytes, a: Answers) returns (r: Reply)
      modifies this
      ensures (Now(), r) == Authenticated(old(Now()), username, password, a)
      ensures Attempted(old(Now()), Now(), r, username, password, a) && sasl == old(sasl)
    {
      if a.allowlisted {
        authUser, authenticated := username, true;
        trace := trace + [Allowlisted(username)];
        return Accepted;
      }
      trace := trace + [IpCheck(a.ipAdmitted)];
      if !a.ipAdmitted {
        return Rejected(421);
      }
      trace := trace + [PasswordCheck(username, password, a.passwordOk)];
      assert trace == old(trace) + [IpCheck(true), PasswordCheck(username, password, a.passwordOk)];
      if !a.passwordOk {
        return Rejected(535);
      }
      authUser, authenticated := username, true;
      return Accepted;
    }

    method NextResponse(response: Bytes, a: Answers) returns (r: Reply)
      modifies this
      ensures (Now(), r) == Step(config, old(Now()), Next(response, a))
    {
      if sasl.None? {
        return Malformed;
      }
      match sasl.value.mechanism {
        case OtherMechanism => return Malformed;
        case Plain =>
          var parts := SplitByZero(response);
          if |parts| != 3 {
            return Malformed;
          }
          r := Authenticate(parts[1], parts[2], a);
        case Login =>
          sasl := Some(sasl.value.(step := sasl.value.step + 1));
          if sasl.value.step == 1 {
            r := Challenge("Username:");
          } else if sasl.value.step == 2 {
            sasl := Some(sasl.value.(username := response));
            r := Challenge("Password:");
          } else if sasl.value.step == 3 {
            r := Authenticate(sasl.value.username, response, a);
          } else {
            r := Malformed;
          }
      }
    }

    method MailFrom(from: string, userAdmitted: bool, globalAdmitted: bool) returns (r: Reply)
      modifies this
      ensures (Now(), r) == Step(config, old(Now()), Mail(from, userAdmitted, globalAdmitted))
    {
      if !authenticated {
        return Rejected(530);
      }
      trace := trace + [UserMessageCheck(authUser, userAdmitted)];
      if !userAdmitted {
        return Rejected(450);
      }
      trace := trace + [GlobalMessageCheck(globalAdmitted)];
      if !globalAdmitted {
        return Rejected(450);
      }
      mailFrom := from;
      return Accepted;
    }

    method RcptTo(to: string) returns (r: Reply)
      modifies this
      ensures (Now(), r) == Step(config, old(Now()), Rcpt(to))
    {
      if mailFrom == "" {
        return Rejected(503);
      }
      if |rcptTo| >= config.maxRecipients {
        return Rejected(452);
      }
      rcptTo := rcptTo + [to];
      return Accepted;
    }

    // `content` is all the client sends; the loop takes it through the limited reader. `msgID` is
    // the identifier the program draws at random. A message answered as accepted is complete in
    // incoming. One that is not is in the spool all the same, complete, exactly when its Write
    // failed after giving it its name.
    method ReceiveData(content: Bytes, readError: bool, recipientsAdmitted: bool, msgID: string, now: int)
      returns (r: Reply, ghost result: WriteResult)
      requires spool.disk.Valid()
      modifies this, spool.disk
      ensures (Now(), r) == Step(config, old(Now()), Data(content, readError, recipientsAdmitted, msgID, result))
      ensures spool.disk.Valid() && Spool.OnlyTouches(old(spool.disk.files), spool.disk.files, Spool.PathsOf(msgID))
      ensures r == Accepted ==> Spool.HasCopy(spool.disk.files, Spool.At(Spool.Incoming, msgID), content)
      ensures Spool.Unused(old(spool.disk.files), msgID) ==>
                var wrote := Writing(config, old(Now()), Data(content, readError, recipientsAdmitted, msgID, result));
                && (Spool.Keeps(spool.disk.files, msgID, content) <==> wrote && result != NotStored)
                && (!wrote || result == NotStored ==> Spool.Unused(spool.disk.files, msgID))
                && (spool.disk.reliable && Spool.Path(Spool.Tmp, Spool.Partial(msgID)) !in old(spool.disk.files) ==>
                      (r == Accepted <==> wrote))
    {
      result := NotStored;
      if |rcptTo| == 0 {
        return Rejected(503), result;
      }
      trace := trace + [RecipientCheck(authUser, |rcptTo|, recipientsAdmitted)];
      if !recipientsAdmitted {
        return Rejected(450), result;
      }
      var buf: Bytes := [];
      while |buf| < |content| && |buf| < config.maxMessageSize + 1
        invariant |buf| <= |content| && |buf| <= Max(config.maxMessageSize + 1, 0) && buf == content[..|buf|]
        decreases |content| - |buf|
      {
        buf := buf + [content[|buf|]];
      }
      assert buf == Read(config, content);
      if readError {
        return Rejected(451), result;
      }
      if |buf| > config.maxMessageSize {
        return Rejected(552), result;
      }
      var ok, appeared := spool.Write(msgID, buf, now);
      result := if ok then Stored else if appeared < |spool.disk.history| then LeftBehind else NotStored;
      trace := trace + [SpoolWrite(msgID, buf, authUser, |rcptTo|, authenticated, result)];
      return if ok then Accepted else Rejected(451), result;
    }

    method ResetEnvelope()
      modifies this
      ensures Now() == Step(config, old(Now()), Reset).0
    {
      mailFrom, rcptTo := "", [];
    }
  }
}
