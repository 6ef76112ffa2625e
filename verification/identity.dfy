// Who a session is, and what its envelope holds, read off the commands and the answers alone.
module Identity {
  import opened Common
  import opened Session

  // ---- The user ----

  // The exchange under way after the commands, and the responses it has had.
  datatype Exchange = Exchange(mechanism: Mechanism, responses: seq<Bytes>)

  function ExchangeAfter(commands: seq<Command>): Option<Exchange> {
    if commands == [] then None
    else
      var before := ExchangeAfter(commands[..|commands| - 1]);
      match commands[|commands| - 1]
      case Auth(mechanism) => Some(Exchange(mechanism, []))
      case Next(response, _) =>
        (match before
         case None => None
         case Some(x) => Some(x.(responses := x.responses + [response])))
      case _ => before
  }

  // Command `n` completes an exchange with this user name and password.
  ghost predicate Offers(commands: seq<Command>, n: nat, u: Bytes, p: Bytes) {
    && n < |commands| && commands[n].Next?
    && var x := ExchangeAfter(commands[..n]);
    && x.Some?
    && match x.value.mechanism
       case Plain =>
         && 0 !in u && 0 !in p
         && exists authzid: Bytes :: 0 !in authzid && commands[n].response == authzid + [0] + u + [0] + p
       case Login => |x.value.responses| == 2 && x.value.responses[1] == u && commands[n].response == p
       case OtherMechanism => false
  }

  // And the answers to it let the user in.
  ghost predicate LetsIn(commands: seq<Command>, n: nat, u: Bytes) {
    && (exists p :: Offers(commands, n, u, p))
    && var a := commands[n].answers;
    a.allowlisted || (a.ipAdmitted && a.passwordOk)
  }

  // The last command that let anyone in let `u` in.
  ghost predicate LastLetIn(commands: seq<Command>, u: Bytes) {
    exists n: nat ::
      && n < |commands| && LetsIn(commands, n, u)
      && forall m: nat, v | n < m < |commands| :: !LetsIn(commands, m, v)
  }

  // The session's own record of the exchange agrees.
  ghost predicate Follows(s: State, x: Option<Exchange>) {
    match x
    case None => s.sasl == None
    case Some(x) =>
      && s.sasl.Some? && s.sasl.value.mechanism == x.mechanism
      && (x.mechanism == Login ==>
            && s.sasl.value.step == |x.responses|
            && (|x.responses| >= 2 ==> s.sasl.value.username == x.responses[1]))
  }

  lemma {:induction false} FollowsRun(cfg: Config, commands: seq<Command>)
    ensures Follows(Run(cfg, commands), ExchangeAfter(commands))
  {
    if commands != [] {
      FollowsRun(cfg, commands[..|commands| - 1]);
    }
  }

  // A command that completes an exchange is an attempt for the credentials offered.
  lemma OfferAttempts(cfg: Config, commands: seq<Command>, n: nat, u: Bytes, p: Bytes)
    requires Offers(commands, n, u, p)
    ensures var s := Run(cfg, commands[..n]);
            var (t, r) := Step(cfg, s, commands[n]);
            Attempted(s, t, r, u, p, commands[n].answers)
  {
    var s, c := Run(cfg, commands[..n]), commands[n];
    FollowsRun(cfg, commands[..n]);
    if s.sasl.value.mechanism == Plain {
      var authzid: Bytes :| 0 !in authzid && c.response == authzid + [0] + u + [0] + p;
      assert c.response == PlainMessage(authzid, u, p);
      PlainRead(authzid, u, p);
    }
  }

  // Any other asks nobody, and changes nobody's identity.
  lemma OfferOrNoAttempt(cfg: Config, commands: seq<Command>, n: nat) returns (u: Bytes, p: Bytes)
    requires n < |commands|
    ensures var s := Run(cfg, commands[..n]);
            var t := Step(cfg, s, commands[n]).0;
            || Offers(commands, n, u, p)
            || (t.authUser == s.authUser && t.authenticated == s.authenticated
                && forall e | e in t.trace && e !in s.trace :: !e.Allowlisted? && !e.PasswordCheck? && !e.IpCheck?)
  {
    var s, c := Run(cfg, commands[..n]), commands[n];
    FollowsRun(cfg, commands[..n]);
    u, p := [], [];
    if c.Next? && s.sasl.Some? {
      var x := ExchangeAfter(commands[..n]).value;
      if x.mechanism == Plain && |Parts(c.response)| == 3 {
        ThreePartsJoined(c.response);
        var authzid := Parts(c.response)[0];
        u, p := Parts(c.response)[1], Parts(c.response)[2];
        assert c.response == authzid + [0] + u + [0] + p;
      } else if x.mechanism == Login && |x.responses| == 2 {
        u, p := x.responses[1], c.response;
      }
    }
  }

  // At most one user is let in at a time.
  lemma OneUserOffered(commands: seq<Command>, n: nat, u: Bytes, p: Bytes, v: Bytes, q: Bytes)
    requires Offers(commands, n, u, p) && Offers(commands, n, v, q)
    ensures u == v && p == q
  {
    var response := commands[n].response;
    if ExchangeAfter(commands[..n]).value.mechanism == Plain {
      var a: Bytes :| 0 !in a && response == a + [0] + u + [0] + p;
      var b: Bytes :| 0 !in b && response == b + [0] + v + [0] + q;
      PlainRead(a, u, p);
      PlainRead(b, v, q);
      assert PlainMessage(a, u, p) == PlainMessage(b, v, q);
    }
  }

  // The earlier commands of a run are what they were.
  lemma OffersEarlier(commands: seq<Command>, c: Command, n: nat, u: Bytes)
    requires n < |commands|
    ensures LetsIn(commands + [c], n, u) <==> LetsIn(commands, n, u)
  {
    assert (commands + [c])[..n] == commands[..n] && (commands + [c])[n] == commands[n];
    forall p ensures Offers(commands + [c], n, u, p) <==> Offers(commands, n, u, p) {
    }
  }

  lemma LastLetInByThis(commands: seq<Command>, c: Command, u: Bytes)
    requires LetsIn(commands + [c], |commands|, u)
    ensures forall v :: LastLetIn(commands + [c], v) <==> v == u
  {
    var all := commands + [c];
    forall v ensures LastLetIn(all, v) <==> v == u {
      if LastLetIn(all, v) {
        var n: nat :| n < |all| && LetsIn(all, n, v) && forall m: nat, w | n < m < |all| :: !LetsIn(all, m, w);
        assert n == |commands|;
        var p :| Offers(all, n, u, p);
        var q :| Offers(all, n, v, q);
        OneUserOffered(all, n, u, p, v, q);
      }
    }
  }

  lemma LastLetInBefore(commands: seq<Command>, c: Command, v: Bytes)
    requires forall u :: !LetsIn(commands + [c], |commands|, u)
    ensures LastLetIn(commands + [c], v) <==> LastLetIn(commands, v)
  {
    var all := commands + [c];
    forall m: nat, u | m < |commands| ensures LetsIn(all, m, u) <==> LetsIn(commands, m, u) {
      OffersEarlier(commands, c, m, u);
    }
    if LastLetIn(all, v) {
      var n: nat :| n < |all| && LetsIn(all, n, v) && forall m: nat, w | n < m < |all| :: !LetsIn(all, m, w);
      assert n < |commands| && LetsIn(commands, n, v);
    }
    if LastLetIn(commands, v) {
      var n: nat :| n < |commands| && LetsIn(commands, n, v)
                    && forall m: nat, w | n < m < |commands| :: !LetsIn(commands, m, w);
      assert LetsIn(all, n, v);
    }
  }

  // Over every command sequence the session is authenticated as `u` exactly when the last command
  // that let anyone in let `u` in: it completed an exchange that offered `u`, and the allowlist or
  // the limit and the password admitted it.
  lemma {:induction false} AuthenticatedIffLetIn(cfg: Config, commands: seq<Command>, u: Bytes)
    ensures var s := Run(cfg, commands); s.authenticated && s.authUser == u <==> LastLetIn(commands, u)
  {
    if commands != [] {
      var prefix, c, n := commands[..|commands| - 1], commands[|commands| - 1], |commands| - 1;
      assert prefix + [c] == commands;
      AuthenticatedIffLetIn(cfg, prefix, u);
      if v, p :| Offers(commands, n, v, p) {
        OfferAttempts(cfg, commands, n, v, p);
        if LetsIn(commands, n, v) {
          LastLetInByThis(prefix, c, v);
        } else {
          forall w ensures !LetsIn(commands, n, w) {
            if q :| Offers(commands, n, w, q) {
              OneUserOffered(commands, n, v, p, w, q);
            }
          }
          LastLetInBefore(prefix, c, u);
        }
      } else {
        var _, _ := OfferOrNoAttempt(cfg, commands, n);
        LastLetInBefore(prefix, c, u);
      }
    }
  }

  // ---- The envelope ----

  datatype Envelope = Envelope(sender: string, recipients: seq<string>)

  // What was accepted since the last reset.
  function EnvelopeAfter(cfg: Config, commands: seq<Command>): Envelope {
    if commands == [] then Envelope("", [])
    else
      var prefix, c := commands[..|commands| - 1], commands[|commands| - 1];
      var before, accepted := EnvelopeAfter(cfg, prefix), Step(cfg, Run(cfg, prefix), c).1 == Accepted;
      match c
      case Mail(from, _, _) => if accepted then before.(sender := from) else before
      case Rcpt(to) => if accepted then before.(recipients := before.recipients + [to]) else before
      case Reset => Envelope("", [])
      case _ => before
  }

  // Over every command sequence the envelope holds the last sender and all the recipients
  // accepted since the last reset.
  lemma {:induction false} EnvelopeIsWhatWasAccepted(cfg: Config, commands: seq<Command>)
    ensures var s := Run(cfg, commands); Envelope(s.mailFrom, s.rcptTo) == EnvelopeAfter(cfg, commands)
  {
    if commands != [] {
      EnvelopeIsWhatWasAccepted(cfg, commands[..|commands| - 1]);
    }
  }
}
