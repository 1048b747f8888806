/** `handleRegister` as the gateway runs it, await by await, when nothing else runs in between: its effect is
    six steps of `Registration`, so the theorems about interleavings are theorems about this code. */
module RegistrationHandler {
  import opened Wrappers
  import opened Encoding
  import opened Certificates
  import opened Registration
  import RegistrationRuns
  import CaService
  import Ledger
  import LedgerMeaning
  import Columns
  import Text

  /** What the remote calls of one request meet with. */
  datatype Calls = Calls(
    email: Fate, issue: Fate, serialBytes: CaService.SerialBytes, issuedAt: int, checkedAt: int,
    user: Fate, draw: Random16, revoke: Fate, revokedAt: int, mark: Fate)

  ghost function Script(s: System, t: Token, body: Body, x: Calls): seq<Op> {
    var k := |s.handlers|;
    [Arrive(t), CheckEmail(k, x.email), Issue(k, body, x.serialBytes, x.issuedAt, x.checkedAt, x.issue),
     CreateBankUser(k, body.fullName, x.draw, x.user), Compensate(k, x.revokedAt, x.revoke), MarkUsed(k, x.mark)]
  }

  /** A client certificate for the person of the token: owner, email and name as given, but for white space and the
      case of letters. */
  predicate CertifiesApplicant(r: Cert, t: Token, body: Body) {
    && r.certType == "client" && r.ownerId == Text.Trim(t.ownerId) && r.subjectCN == Text.Trim(body.fullName)
    && r.subjectEmail == Text.Trim(Text.Lower(t.sub)) && r.revokedAt == None
  }

  /** The bank user of the same person. */
  predicate AccountsApplicant(c: Setup, u: Ledger.User, t: Token, body: Body) {
    && c.bank.uuid(Text.Trim(t.ownerId)) == Some(u.id) && u.fullName == Text.Trim(body.fullName)
    && u.email == Text.Trim(Text.Lower(t.sub)) && u.status == "active"
  }

  lemma IssuedToApplicant(c: Setup, certs: Certs, t: Token, body: Body, serial: string, issuedAt: int, checkedAt: int)
    ensures var (certs', reply) :=
              CaService.RegisterUser(c.ca, certs, IssueInput(t, body), serial, issuedAt, checkedAt);
            reply == Ok ==> serial in certs' && CertifiesApplicant(certs'[serial], t, body)
  {
    hide CaService.RegisterUser, CaService.AdmitCert, CaService.PutRootCert, CaService.PutSignerCert;
    hide CaService.InputOk, CaService.Valid, Text.Trim, Text.Lower;
    var input := IssueInput(t, body);
    CaService.RegisterUserIsSteps(c.ca, certs, input, serial, issuedAt, checkedAt);
    var certs1 := CaService.PutRootCert(c.ca, certs, issuedAt, issuedAt).0;
    var certs2 := CaService.PutSignerCert(c.ca, certs1, issuedAt, issuedAt).0;
    CaService.AdmittedExactly(c.ca, certs2, input, serial, issuedAt, checkedAt);
    CaService.InputExactly(input);
    TwiceLowered(t.sub);
  }

  /** The email is lower-cased by the gateway and again by the CA. */
  lemma TwiceLowered(s: string)
    ensures Text.Lower(Text.Lower(s)) == Text.Lower(s)
  {
  }

  lemma CreatedForApplicant(c: Setup, bank: Ledger.State, t: Token, body: Body, draw: Random16)
    ensures var (bank', o) := Ledger.CreateUser(c.bank, bank, t.ownerId, Email(t), body.fullName, NewUuid(draw));
            o.Done? ==> bank'.users != [] && AccountsApplicant(c, bank'.users[|bank'.users| - 1], t, body)
  {
    hide Ledger.CreateUser, Text.Trim, Text.Lower;
    LedgerMeaning.CreateUserExactly(c.bank, bank, t.ownerId, Email(t), body.fullName, NewUuid(draw));
  }

  class Gateway {
    const c: Setup
    var certs: Certs
    var bank: Ledger.State
    var used: set<string>
    ghost var handlers: seq<Handler>
    ghost var stranded: set<string>
    ghost var half: set<string>

    ghost function View(): System
      reads this
    {
      System(certs, bank, used, handlers, stranded, half)
    }

    constructor (c: Setup, bank: Ledger.State)
      ensures this.c == c && View() == System(map[], bank, {}, [], {}, {})
    {
      this.c := c;
      this.bank := bank;
      certs, used := map[], {};
      handlers, stranded, half := [], {}, {};
    }

    ghost method Advance(k: nat, phase: Phase)
      requires k < |handlers|
      modifies this`handlers
      ensures View() == Move(old(View()), k, phase)
    {
      handlers := handlers[k := handlers[k].(phase := phase)];
    }

    method VetToken(t: Token, x: Calls) returns (ending: Option<Ending>)
      modifies this
      ensures var s := old(View()); View() == Step(c, Step(c, s, Arrive(t)), CheckEmail(|s.handlers|, x.email))
      ensures |handlers| == |old(handlers)| + 1
      ensures handlers[|old(handlers)|] == Handler(t, if ending.None? then Vetted else Ended(ending.value))
      ensures ending.Some? ==> ending.value != Registered
      ensures ending.None? ==> t.jti !in old(used) && |t.sub| > 0 && |t.ownerId| > 0
      ensures ending.None? ==>
        forall i :: 0 <= i < |bank.users| ==> !Text.SameButCase(bank.users[i].email, Text.Trim(Text.Lower(t.sub)))
      ensures ending == Some(EmailTaken) ==>
        exists i :: 0 <= i < |bank.users| && Text.SameButCase(bank.users[i].email, Text.Trim(Text.Lower(t.sub)))
    {
      hide EmailKnown, Text.Trim, Text.Lower, Text.SameButCase;
      RegistrationRuns.KnownExactly(bank.users, Email(t));
      ghost var k := |handlers|;
      if t.jti in used || t.sub == "" || t.ownerId == "" {
        handlers := handlers + [Handler(t, Ended(TokenRefused))];
        return Some(TokenRefused);
      }
      handlers := handlers + [Handler(t, Arrived)];
      if x.email != Delivered || Text.Trim(Email(t)) == "" || !Columns.ValidText(Text.Trim(Email(t))) {
        Advance(k, Ended(CheckFailed));
        return Some(CheckFailed);
      }
      if EmailKnown(bank.users, Email(t)) {
        Advance(k, Ended(EmailTaken));
        return Some(EmailTaken);
      }
      Advance(k, Vetted);
      ending := None;
    }

    method IssueCertificate(ghost k: nat, t: Token, body: Body, x: Calls) returns (ending: Option<Ending>)
      requires k < |handlers| && handlers[k] == Handler(t, Vetted)
      modifies this
      ensures View() == Step(c, old(View()), Issue(k, body, x.serialBytes, x.issuedAt, x.checkedAt, x.issue))
      ensures |handlers| == |old(handlers)|
      ensures handlers[k] == Handler(t, if ending.None? then Issued(Hex(x.serialBytes)) else Ended(ending.value))
      ensures ending.Some? ==> ending.value != Registered
      ensures ending.None? ==> Hex(x.serialBytes) in certs && CertifiesApplicant(certs[Hex(x.serialBytes)], t, body)
    {
      hide CaService.RegisterUser, CertifiesApplicant;
      IssuedToApplicant(c, certs, t, body, Hex(x.serialBytes), x.issuedAt, x.checkedAt);
      if x.issue == NotDone {
        Advance(k, Ended(IssueFailed));
        return Some(IssueFailed);
      }
      var (issued, reply) :=
        CaService.RegisterUser(c.ca, certs, IssueInput(t, body), Hex(x.serialBytes), x.issuedAt, x.checkedAt);
      certs := issued;
      if reply != Ok {
        Advance(k, Ended(IssueFailed));
        return Some(IssueFailed);
      }
      if x.issue == Lost {
        stranded := stranded + {Owner(t)};
        Advance(k, Ended(IssueFailed));
        return Some(IssueFailed);
      }
      Advance(k, Issued(Hex(x.serialBytes)));
      ending := None;
    }

    method RegisterAtBank(ghost k: nat, t: Token, serial: string, body: Body, x: Calls) returns (reported: bool)
      requires k < |handlers| && handlers[k] == Handler(t, Issued(serial))
      modifies this
      ensures View() == Step(c, old(View()), CreateBankUser(k, body.fullName, x.draw, x.user))
      ensures |handlers| == |old(handlers)|
      ensures handlers[k] == Handler(t, if reported then Ended(Registered) else Compensating(serial))
      ensures certs == old(certs)
      ensures reported ==> bank.users != [] && AccountsApplicant(c, bank.users[|bank.users| - 1], t, body)
    {
      hide Ledger.CreateUser, AccountsApplicant;
      CreatedForApplicant(c, bank, t, body, x.draw);
      var created := false;
      if x.user != NotDone {
        var (after, o) := Ledger.CreateUser(c.bank, bank, t.ownerId, Email(t), body.fullName, NewUuid(x.draw));
        bank := after;
        created := o.Done?;
      }
      reported := created && x.user == Delivered;
      if created && !reported {
        half := half + {Owner(t)};
      }
      Advance(k, if reported then Ended(Registered) else Compensating(serial));
    }

    method RollBack(ghost k: nat, t: Token, serial: string, x: Calls) returns (ending: Ending)
      requires k < |handlers| && handlers[k] == Handler(t, Compensating(serial))
      modifies this
      ensures View() == Step(c, old(View()), Compensate(k, x.revokedAt, x.revoke))
      ensures |handlers| == |old(handlers)| && handlers[k] == Handler(t, Ended(ending)) && ending != Registered
    {
      hide CaService.RevokeCertificate;
      if x.revoke == NotDone {
        stranded := stranded + {Owner(t)};
      } else {
        certs := CaService.RevokeCertificate(certs, serial, ROLLBACK_REASON, x.revokedAt).0;
      }
      ending := if x.revoke == Delivered then RolledBack else RollbackFailed;
      Advance(k, Ended(ending));
    }

    method HandleRegister(t: Token, body: Body, x: Calls) returns (ending: Ending)
      modifies this
      ensures View() == Run(c, old(View()), Script(old(View()), t, body, x))
      ensures |handlers| == |old(handlers)| + 1 && handlers[|old(handlers)|] == Handler(t, Ended(ending))
      ensures ending == Registered ==>
        && Hex(x.serialBytes) in certs && CertifiesApplicant(certs[Hex(x.serialBytes)], t, body)
        && bank.users != [] && AccountsApplicant(c, bank.users[|bank.users| - 1], t, body)
    {
      hide Step, CertifiesApplicant, AccountsApplicant;
      ghost var s, k := View(), |handlers|;
      var early := VetToken(t, x);
      if early.Some? {
        EndedStays(c, View(), k, body, x);
        ScriptSteps(c, s, t, body, x);
        return early.value;
      }
      early := IssueCertificate(k, t, body, x);
      if early.Some? {
        EndedStays(c, View(), k, body, x);
        ScriptSteps(c, s, t, body, x);
        return early.value;
      }
      var reported := RegisterAtBank(k, t, Hex(x.serialBytes), body, x);
      ending := Registered;
      if reported {
        RegisteredStays(c, View(), k, x);
      } else {
        ending := RollBack(k, t, Hex(x.serialBytes), x);
      }
      ghost var last := View();
      if ending == Registered && x.mark != NotDone {
        used := used + {t.jti};
      }
      assert View() == Step(c, last, MarkUsed(k, x.mark)) by { MarkedStep(c, last, View(), k, t, x, ending); }
      ScriptSteps(c, s, t, body, x);
    }
  }

  lemma MarkedStep(c: Setup, s: System, s': System, k: nat, t: Token, x: Calls, ending: Ending)
    requires k < |s.handlers| && s.handlers[k] == Handler(t, Ended(ending))
    requires s' == if ending == Registered && x.mark != NotDone then s.(used := s.used + {t.jti}) else s
    ensures s' == Step(c, s, MarkUsed(k, x.mark))
  {
  }

  /** A handler that has ended without registering does nothing more. */
  lemma EndedStays(c: Setup, s: System, k: nat, body: Body, x: Calls)
    requires k < |s.handlers| && s.handlers[k].phase.Ended? && s.handlers[k].phase != Ended(Registered)
    ensures Step(c, s, Issue(k, body, x.serialBytes, x.issuedAt, x.checkedAt, x.issue)) == s
    ensures Step(c, s, CreateBankUser(k, body.fullName, x.draw, x.user)) == s
    ensures Step(c, s, Compensate(k, x.revokedAt, x.revoke)) == s
    ensures Step(c, s, MarkUsed(k, x.mark)) == s
  {
  }

  /** A handler that has registered its user has nothing to compensate. */
  lemma RegisteredStays(c: Setup, s: System, k: nat, x: Calls)
    requires k < |s.handlers| && s.handlers[k].phase == Ended(Registered)
    ensures Step(c, s, Compensate(k, x.revokedAt, x.revoke)) == s
  {
  }

  lemma ScriptSteps(c: Setup, s: System, t: Token, body: Body, x: Calls)
    ensures var ops := Script(s, t, body, x);
            Run(c, s, ops)
            == Step(c, Step(c, Step(c, Step(c, Step(c, Step(c, s, ops[0]), ops[1]), ops[2]), ops[3]), ops[4]), ops[5])
  {
    hide Step;
    var ops := Script(s, t, body, x);
    RunStep(c, s, ops, 0);
    RunStep(c, s, ops, 1);
    RunStep(c, s, ops, 2);
    RunStep(c, s, ops, 3);
    RunStep(c, s, ops, 4);
    RunStep(c, s, ops, 5);
    assert ops[..6] == ops && ops[..0] == [];
  }

  lemma RunStep(c: Setup, s: System, ops: seq<Op>, n: nat)
    requires n < |ops|
    ensures Run(c, s, ops[..n + 1]) == Step(c, Run(c, s, ops[..n]), ops[n])
  {
    assert ops[..n + 1][..n] == ops[..n];
  }
}
