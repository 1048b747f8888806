/** Every interleaving of registrations keeps certificates and bank users in step, up to the owners whom a
    failed call left behind; and those are exactly what can put them out of step. */
module RegistrationRuns {
  import opened Wrappers
  import opened Encoding
  import opened Certificates
  import opened Registration
  import CaService
  import Ledger
  import LedgerChain
  import Columns
  import Text

  // ---- what one call does to the certificates ----

  lemma SteadyActive(c: Setup, certs: Certs, s: string, now: int)
    requires CertsOk(c, certs) && s in certs && certs[s].certType == CLIENT && now <= c.horizon
    ensures IsActive(certs[s], now) == IsActive(certs[s], c.horizon)
  {
  }

  /** Client records are untouched. */
  ghost predicate SameClients(certs: Certs, certs': Certs) {
    && (forall s :: s in certs && certs[s].certType == CLIENT ==> s in certs' && certs'[s] == certs[s])
    && (forall s :: s in certs' && certs'[s].certType == CLIENT ==> s in certs && certs[s] == certs'[s])
  }

  lemma UpsertIssuerSameClients(c: Setup, certs: Certs, r: Cert, now: int)
    requires CertsOk(c, certs) && IssuerSerial(c.ca, r.serial) && r.certType != CLIENT
    ensures SameClients(certs, Upsert(certs, r, now).0) && CertsOk(c, Upsert(certs, r, now).0)
  {
    var certs' := Upsert(certs, r, now).0;
    forall s ensures ActiveClient(certs', s, c.horizon) ==> ActiveClient(certs, s, c.horizon) && certs'[s] == certs[s] {
    }
  }

  lemma IssuerChainSameClients(c: Setup, certs: Certs, now: int)
    requires CertsOk(c, certs)
    ensures var certs' := CaService.EnsureIssuerChain(c.ca, certs, now).0;
            SameClients(certs, certs') && CertsOk(c, certs')
  {
    hide CertsOk, Upsert;
    var certs1 := certs;
    if c.ca.root.Some? {
      var r := CaService.IssuerRecord(c.ca.root.value, ROOT_CA, ROOT_CA_ID, now);
      UpsertIssuerSameClients(c, certs, r, now);
      certs1 := Upsert(certs, r, now).0;
    }
    UpsertIssuerSameClients(c, certs1, CaService.IssuerRecord(c.ca.signer, INTERMEDIATE_CA, CLIENT_CA_ID, now), now);
  }

  lemma SameClientsSameActive(certs: Certs, certs': Certs, now: int)
    requires SameClients(certs, certs')
    ensures forall s :: ActiveClient(certs', s, now) == ActiveClient(certs, s, now)
    ensures forall s :: ActiveClient(certs, s, now) ==> s in certs' && certs'[s] == certs[s]
  {
  }

  /** A successful call adds one active certificate of an owner who had none; a refused one adds none. */
  ghost predicate Grown(certs: Certs, certs': Certs, added: bool, serial: string, owner: string, now: int) {
    && (forall s :: ActiveClient(certs', s, now) <==> ActiveClient(certs, s, now) || (added && s == serial))
    && (forall s :: ActiveClient(certs, s, now) ==> certs'[s].ownerId == certs[s].ownerId)
    && (added ==> ActiveClient(certs', serial, now) && certs'[serial].ownerId == owner && !HasActive(certs, owner, now)
                  && !ActiveClient(certs, serial, now))
  }

  lemma CreateGrows(c: Setup, certs: Certs, r: Cert, now: int)
    requires CertsOk(c, certs) && now <= c.horizon <= r.notAfter && !IssuerSerial(c.ca, r.serial)
    requires r.certType == CLIENT && r.status == Active && r.revokedAt.None?
    ensures var (certs', reply) := Create(certs, r, now);
            Grown(certs, certs', reply == Ok, r.serial, r.ownerId, c.horizon) && CertsOk(c, certs')
  {
    var (certs', reply) := Create(certs, r, now);
    if reply == Ok {
      assert forall s :: s in certs ==> certs'[s] == certs[s];
      if HasActive(certs, r.ownerId, c.horizon) {
        var s :| s in certs && ActiveClient(certs, s, c.horizon) && certs[s].ownerId == r.ownerId;
        SteadyActive(c, certs, s, now);
        assert Conflicts(certs[s], r, now);
      }
      assert forall s :: ActiveClient(certs', s, c.horizon) <==> ActiveClient(certs, s, c.horizon) || s == r.serial;
      NewOwnerKeepsOneActive(certs, certs', r.serial, c.horizon);
    }
  }

  lemma NewOwnerKeepsOneActive(certs: Certs, certs': Certs, serial: string, now: int)
    requires OneActive(certs, now) && serial in certs' && !HasActive(certs, certs'[serial].ownerId, now)
    requires forall s :: s in certs ==> s in certs' && certs'[s] == certs[s]
    requires forall s :: ActiveClient(certs', s, now) <==> ActiveClient(certs, s, now) || s == serial
    ensures OneActive(certs', now)
  {
    forall s, s' | ActiveClient(certs', s, now) && ActiveClient(certs', s', now)
      ensures certs'[s].ownerId == certs'[s'].ownerId ==> s == s'
    {
      assert s != serial ==> ActiveClient(certs, s, now);
      assert s' != serial ==> ActiveClient(certs, s', now);
    }
  }

  lemma GrownAfterSame(certs: Certs, mid: Certs, certs': Certs, added: bool, serial: string, owner: string, now: int)
    requires forall s :: ActiveClient(mid, s, now) == ActiveClient(certs, s, now)
    requires forall s :: ActiveClient(certs, s, now) ==> s in mid && mid[s].ownerId == certs[s].ownerId
    requires Grown(mid, certs', added, serial, owner, now)
    ensures Grown(certs, certs', added, serial, owner, now)
  {
    if HasActive(certs, owner, now) {
      var s :| s in certs && ActiveClient(certs, s, now) && certs[s].ownerId == owner;
      assert ActiveClient(mid, s, now);
    }
  }

  lemma IssueGrows(c: Setup, certs: Certs, t: Token, body: Body, serial: string, issuedAt: int, checkedAt: int)
    requires CertsOk(c, certs) && !IssuerSerial(c.ca, serial)
    requires checkedAt <= c.horizon <= CaService.Expiry(c.ca, issuedAt)
    ensures var input := IssueInput(t, body);
            var (certs', reply) := CaService.RegisterUser(c.ca, certs, input, serial, issuedAt, checkedAt);
            Grown(certs, certs', reply == Ok, serial, Owner(t), c.horizon) && CertsOk(c, certs')
  {
    hide CertsOk, ActiveClient, Create, CaService.EnsureIssuerChain, SameClients, Grown, HasActive, IssuerSerial;
    var input := IssueInput(t, body);
    var (certs', reply) := CaService.RegisterUser(c.ca, certs, input, serial, issuedAt, checkedAt);
    NothingGrows(certs, serial, Owner(t), c.horizon);
    if CaService.InputOk(input) {
      IssuerChainSameClients(c, certs, issuedAt);
      var chained := CaService.EnsureIssuerChain(c.ca, certs, issuedAt).0;
      SameClientsSameActive(certs, chained, c.horizon);
      NothingGrows(chained, serial, Owner(t), c.horizon);
      CreateGrows(c, chained, CaService.ClientRecord(c.ca, input, serial, issuedAt), checkedAt);
      GrownAfterSame(certs, chained, certs', reply == Ok, serial, Owner(t), c.horizon);
    }
  }

  lemma NothingGrows(certs: Certs, serial: string, owner: string, now: int)
    ensures Grown(certs, certs, false, serial, owner, now)
  {
  }

  lemma GrownOwners(certs: Certs, certs': Certs, added: bool, serial: string, owner: string, now: int)
    requires Grown(certs, certs', added, serial, owner, now)
    ensures forall o :: HasActive(certs', o, now) <==> HasActive(certs, o, now) || (added && o == owner)
  {
    forall o ensures HasActive(certs', o, now) <==> HasActive(certs, o, now) || (added && o == owner) {
      if HasActive(certs', o, now) {
        var s :| s in certs' && ActiveClient(certs', s, now) && certs'[s].ownerId == o;
        assert ActiveClient(certs, s, now) || (added && s == serial);
      }
      if HasActive(certs, o, now) {
        var s :| s in certs && ActiveClient(certs, s, now) && certs[s].ownerId == o;
        assert ActiveClient(certs', s, now);
      }
      if added {
        assert ActiveClient(certs', serial, now);
      }
    }
  }

  lemma RollbackRevokes(certs: Certs, serial: string, at: int, now: int)
    requires ActiveClient(certs, serial, now) && serial != "" && Text.Trimmed(serial)
    ensures var certs' := CaService.RevokeCertificate(certs, serial, ROLLBACK_REASON, at).0;
            && certs' == certs[serial := certs'[serial]]
            && !IsActive(certs'[serial], now) && certs'[serial].notAfter == certs[serial].notAfter
            && certs'[serial].ownerId == certs[serial].ownerId && certs'[serial].certType == CLIENT
            && certs'[serial].revokedAt == Some(at) && certs'[serial].reason == "registration_rollback"
  {
    assert Text.Trim(serial) == serial;
    assert ROLLBACK_REASON[0] == 'r';
    assert Text.Trim(ROLLBACK_REASON) == ROLLBACK_REASON;
  }

  lemma ShrunkOwners(certs: Certs, certs': Certs, serial: string, now: int)
    requires OneActive(certs, now) && ActiveClient(certs, serial, now)
    requires forall s :: ActiveClient(certs', s, now) <==> ActiveClient(certs, s, now) && s != serial
    requires forall s :: ActiveClient(certs, s, now) ==> s in certs' && certs'[s].ownerId == certs[s].ownerId
    ensures forall o :: HasActive(certs', o, now) <==> HasActive(certs, o, now) && o != certs[serial].ownerId
  {
    forall o ensures HasActive(certs', o, now) <==> HasActive(certs, o, now) && o != certs[serial].ownerId {
      if HasActive(certs', o, now) {
        var s :| s in certs' && ActiveClient(certs', s, now) && certs'[s].ownerId == o;
        assert ActiveClient(certs, s, now) && s != serial;
      }
      if HasActive(certs, o, now) && o != certs[serial].ownerId {
        var s :| s in certs && ActiveClient(certs, s, now) && certs[s].ownerId == o;
        assert ActiveClient(certs', s, now);
      }
    }
  }

  /** The compensating revoke takes away the one active certificate of its owner and nothing else. */
  lemma RevokeShrinks(c: Setup, certs: Certs, serial: string, at: int)
    requires CertsOk(c, certs) && ActiveClient(certs, serial, c.horizon) && serial != "" && Text.Trimmed(serial)
    ensures var certs' := CaService.RevokeCertificate(certs, serial, ROLLBACK_REASON, at).0;
            && CertsOk(c, certs')
            && (forall s :: ActiveClient(certs', s, c.horizon) <==> ActiveClient(certs, s, c.horizon) && s != serial)
            && (forall s :: ActiveClient(certs, s, c.horizon) ==> s in certs' && certs'[s].ownerId == certs[s].ownerId)
            && forall o :: HasActive(certs', o, c.horizon) <==>
                 HasActive(certs, o, c.horizon) && o != certs[serial].ownerId
  {
    hide CaService.RevokeCertificate, HasActive, IsActive;
    RollbackRevokes(certs, serial, at, c.horizon);
    ShrunkOwners(certs, CaService.RevokeCertificate(certs, serial, ROLLBACK_REASON, at).0, serial, c.horizon);
  }

  // ---- who holds what ----

  lemma HeldAfterMove(s: System, s': System, k: nat, phase: Phase)
    requires k < |s.handlers| && s'.handlers == s.handlers[k := s.handlers[k].(phase := phase)]
    requires forall i, j :: 0 <= i < j < |s.handlers| && Holds(s.handlers[i]) && Holds(s.handlers[j]) ==>
      Owner(s.handlers[i].token) != Owner(s.handlers[j].token)
    ensures var owner, holds := Owner(s.handlers[k].token), phase.Issued? || phase.Compensating?;
            forall o :: Held(s', o) <==>
              if o == owner && Holds(s.handlers[k]) then holds else Held(s, o) || (holds && o == owner)
  {
    var owner := Owner(s.handlers[k].token);
    forall o ensures Held(s', o) <==>
      if o == owner && Holds(s.handlers[k]) then phase.Issued? || phase.Compensating?
      else Held(s, o) || ((phase.Issued? || phase.Compensating?) && o == owner)
    {
      if Held(s', o) {
        var i :| 0 <= i < |s'.handlers| && Holds(s'.handlers[i]) && Owner(s'.handlers[i].token) == o;
        assert i != k ==> Holds(s.handlers[i]) && (i < k || k < i);
      }
      if Held(s, o) {
        var i :| 0 <= i < |s.handlers| && Holds(s.handlers[i]) && Owner(s.handlers[i].token) == o;
        assert i != k ==> s'.handlers[i] == s.handlers[i];
      }
      assert s'.handlers[k].phase == phase;
    }
  }

  lemma HexTrimmed(b: CaService.SerialBytes)
    ensures Hex(b) != "" && Text.Trimmed(Hex(b))
  {
  }

  // ---- one step ----

  lemma ArriveKeepsInv(c: Setup, s: System, t: Token)
    requires Inv(c, s)
    ensures Inv(c, StepArrive(s, t))
  {
    hide CertsOk, HasActive, UserExists;
    var s' := StepArrive(s, t);
    SameUsers(s, s');
    forall o ensures AccountedFor(c, s', o) {
      assert AccountedFor(c, s, o);
      if Held(s, o) {
        var i :| 0 <= i < |s.handlers| && Holds(s.handlers[i]) && Owner(s.handlers[i].token) == o;
        assert s'.handlers[i] == s.handlers[i];
      }
    }
  }

  lemma SameUsers(s: System, s': System)
    requires s'.bank.users == s.bank.users
    ensures forall o :: UserExists(s', o) == UserExists(s, o)
  {
  }

  ghost predicate HolderOk(c: Setup, certs: Certs, h: Handler) {
    Holds(h) ==>
      && ActiveClient(certs, h.phase.serial, c.horizon) && certs[h.phase.serial].ownerId == Owner(h.token)
      && h.phase.serial != "" && Text.Trimmed(h.phase.serial)
  }

  lemma HoldersAfterMove(c: Setup, s: System, s': System, k: nat, phase: Phase)
    requires HoldersOk(c, s.certs, s.handlers) && k < |s.handlers|
    requires s'.handlers == s.handlers[k := s.handlers[k].(phase := phase)]
    requires forall i :: 0 <= i < |s.handlers| && i != k && Holds(s.handlers[i]) ==>
      HolderOk(c, s'.certs, s.handlers[i])
    requires HolderOk(c, s'.certs, s'.handlers[k])
    requires Holds(s'.handlers[k]) && !Holds(s.handlers[k]) ==> !Held(s, Owner(s.handlers[k].token))
    ensures HoldersOk(c, s'.certs, s'.handlers)
  {
    forall i | 0 <= i < |s.handlers| && i != k ensures s'.handlers[i] == s.handlers[i] {
    }
    forall i | 0 <= i < |s.handlers| && i != k && Holds(s.handlers[i]) && Holds(s'.handlers[k])
      ensures Owner(s.handlers[i].token) != Owner(s.handlers[k].token)
    {
      if Holds(s.handlers[k]) {
        assert i < k || k < i;
      }
    }
  }

  /** A move between phases that do not hold a certificate, with nothing else changed. */
  lemma IdleMoveKeepsInv(c: Setup, s: System, k: nat, phase: Phase)
    requires Inv(c, s) && k < |s.handlers| && !Holds(s.handlers[k]) && !phase.Issued? && !phase.Compensating?
    ensures Inv(c, Move(s, k, phase))
  {
    hide CertsOk, HasActive, Held, UserExists;
    var s' := Move(s, k, phase);
    HeldAfterMove(s, s', k, phase);
    SameUsers(s, s');
    HoldersAfterMove(c, s, s', k, phase);
    forall o ensures AccountedFor(c, s', o) {
      assert AccountedFor(c, s, o);
    }
  }

  lemma IssueKeepsInv(c: Setup, s: System, k: nat, body: Body, serial: string, issuedAt: int, checkedAt: int,
                      fate: Fate)
    requires Inv(c, s) && k < |s.handlers| && s.handlers[k].phase.Vetted? && fate != NotDone
    requires checkedAt <= c.horizon <= CaService.Expiry(c.ca, issuedAt) && !IssuerSerial(c.ca, serial)
    requires serial != "" && Text.Trimmed(serial)
    ensures Inv(c, StepIssue(c, s, k, body, serial, issuedAt, checkedAt, fate))
  {
    hide CertsOk, HasActive, Held, UserExists, CaService.RegisterUser;
    var t := s.handlers[k].token;
    var s' := StepIssue(c, s, k, body, serial, issuedAt, checkedAt, fate);
    var (certs, reply) := CaService.RegisterUser(c.ca, s.certs, IssueInput(t, body), serial, issuedAt, checkedAt);
    IssueGrows(c, s.certs, t, body, serial, issuedAt, checkedAt);
    GrownOwners(s.certs, certs, reply == Ok, serial, Owner(t), c.horizon);
    assert AccountedFor(c, s, Owner(t));
    HeldAfterMove(s, s', k, s'.handlers[k].phase);
    HoldersAfterMove(c, s, s', k, s'.handlers[k].phase);
    SameUsers(s, s');
    forall o ensures AccountedFor(c, s', o) {
      assert AccountedFor(c, s, o);
    }
  }

  lemma CreateUserKeepsInv(c: Setup, s: System, k: nat, fullName: string, draw: Random16, fate: Fate)
    requires Inv(c, s) && k < |s.handlers| && s.handlers[k].phase.Issued?
    requires Minted(c, s.handlers[k].token)
    ensures Inv(c, StepCreateUser(c, s, k, fullName, draw, fate))
  {
    hide CertsOk, HasActive, Held, UserExists, Ledger.CreateUser;
    var t := s.handlers[k].token;
    var s' := StepCreateUser(c, s, k, fullName, draw, fate);
    var (bank, o) := Ledger.CreateUser(c.bank, s.bank, t.ownerId, Email(t), fullName, NewUuid(draw));
    CreateUserEffect(c, s, t, fullName, draw);
    HeldAfterMove(s, s', k, s'.handlers[k].phase);
    HoldersAfterMove(c, s, s', k, s'.handlers[k].phase);
    assert fate == NotDone ==> s'.bank == s.bank;
    SameUsers(s, s.(handlers := s'.handlers));
    forall q ensures AccountedFor(c, s', q) {
      assert AccountedFor(c, s, q);
      assert Holds(s.handlers[k]) && Owner(t) == q ==> Held(s, q) by { HolderIsHeld(s, k); }
    }
  }

  lemma HolderIsHeld(s: System, k: nat)
    requires k < |s.handlers| && Holds(s.handlers[k])
    ensures Held(s, Owner(s.handlers[k].token))
  {
  }

  lemma NothingToTrim()
    ensures Text.Trim("") == ""
  {
  }

  /** The users after a creation that the bank carried out. */
  lemma CreatedUsers(c: LedgerChain.Config, s: Ledger.State, userId: string, email: string, fullName: string,
                     accountId: string)
    ensures var (s', o) := Ledger.CreateUser(c, s, userId, email, fullName, accountId);
            if o.Done? then
              && c.uuid(Text.Trim(userId)).Some? && Text.Trim(userId) != ""
              && var id := c.uuid(Text.Trim(userId)).value;
                 && s'.users == s.users + [Ledger.User(id, Text.Trim(email), Text.Trim(fullName), "active")]
                 && forall i :: 0 <= i < |s.users| ==> s.users[i].id != id && s.users[i].email != Text.Trim(email)
            else s' == s
  {
    hide Ledger.AccountNumber, Text.Trim, Columns.Fits;
  }

  /** The bank either creates exactly the user of the token, who did not exist, or changes nothing. */
  lemma CreateUserEffect(c: Setup, s: System, t: Token, fullName: string, draw: Random16)
    requires Minted(c, t)
    ensures var (bank, o) := Ledger.CreateUser(c.bank, s.bank, t.ownerId, Email(t), fullName, NewUuid(draw));
            && (o.Done? ==> !UserExists(s, Owner(t)))
            && (!o.Done? ==> bank == s.bank)
            && forall s': System, q :: s'.bank == bank ==>
                 (UserExists(s', q) <==> UserExists(s, q) || (o.Done? && q == Owner(t)))
  {
    hide Ledger.CreateUser, Text.Trim;
    NothingToTrim();
    CreatedUsers(c.bank, s.bank, t.ownerId, Email(t), fullName, NewUuid(draw));
    var (bank, o) := Ledger.CreateUser(c.bank, s.bank, t.ownerId, Email(t), fullName, NewUuid(draw));
    forall s': System, q | s'.bank == bank
      ensures UserExists(s', q) <==> UserExists(s, q) || (o.Done? && q == Owner(t))
    {
      if o.Done? {
        assert bank.users[|s.bank.users|].id == Owner(t);
        assert forall i :: 0 <= i < |s.bank.users| ==> bank.users[i] == s.bank.users[i];
      }
    }
  }

  lemma CompensateKeepsInv(c: Setup, s: System, k: nat, at: int, fate: Fate)
    requires Inv(c, s) && k < |s.handlers| && s.handlers[k].phase.Compensating?
    ensures Inv(c, StepCompensate(s, k, at, fate))
  {
    hide CertsOk, HasActive, Held, UserExists, CaService.RevokeCertificate;
    var t, serial := s.handlers[k].token, s.handlers[k].phase.serial;
    var s' := StepCompensate(s, k, at, fate);
    RevokeShrinks(c, s.certs, serial, at);
    forall i | 0 <= i < |s.handlers| && i != k && Holds(s.handlers[i]) ensures s.handlers[i].phase.serial != serial {
      assert i < k || k < i;
    }
    HeldAfterMove(s, s', k, s'.handlers[k].phase);
    HoldersAfterMove(c, s, s', k, s'.handlers[k].phase);
    SameUsers(s, s');
    HolderIsHeld(s, k);
    forall o ensures AccountedFor(c, s', o) {
      assert AccountedFor(c, s, o);
    }
  }

  lemma MarkUsedKeepsInv(c: Setup, s: System, k: nat, fate: Fate)
    requires Inv(c, s) && k < |s.handlers|
    ensures Inv(c, StepMarkUsed(s, k, fate))
  {
    hide CertsOk, HasActive;
    var s' := StepMarkUsed(s, k, fate);
    forall o ensures AccountedFor(c, s', o) {
      assert AccountedFor(c, s, o);
      assert Held(s', o) == Held(s, o) && UserExists(s', o) == UserExists(s, o);
    }
  }

  lemma StepKeepsTokens(c: Setup, s: System, op: Op)
    requires TokensOk(c, s) && Admissible(c, op)
    ensures TokensOk(c, Step(c, s, op))
  {
    hide CaService.RegisterUser, CaService.RevokeCertificate, Ledger.CreateUser, EmailKnown, Minted, IssuerSerial;
  }

  lemma StepKeepsInv(c: Setup, s: System, op: Op)
    requires Inv(c, s) && TokensOk(c, s) && Admissible(c, op)
    ensures Inv(c, Step(c, s, op))
  {
    hide Inv, StepIssue, StepCreateUser, StepCompensate, StepMarkUsed, StepArrive, IssuerSerial, Minted;
    match op
    case Arrive(t) => ArriveKeepsInv(c, s, t);
    case CheckEmail(k, fate) =>
      if k < |s.handlers| && s.handlers[k].phase.Arrived? {
        IdleMoveKeepsInv(c, s, k, StepCheckEmail(s, k, fate).handlers[k].phase);
      }
    case Issue(k, body, serialBytes, issuedAt, checkedAt, fate) =>
      if k < |s.handlers| && s.handlers[k].phase.Vetted? {
        IdleMoveKeepsInv(c, s, k, Ended(IssueFailed));
        if fate != NotDone {
          HexTrimmed(serialBytes);
          IssueKeepsInv(c, s, k, body, Hex(serialBytes), issuedAt, checkedAt, fate);
        } else {
          assert StepIssue(c, s, k, body, Hex(serialBytes), issuedAt, checkedAt, fate)
              == Move(s, k, Ended(IssueFailed)) by {
            NotIssued(c, s, k, body, Hex(serialBytes), issuedAt, checkedAt);
          }
        }
      }
    case CreateBankUser(k, fullName, draw, fate) =>
      if k < |s.handlers| && s.handlers[k].phase.Issued? {
        CreateUserKeepsInv(c, s, k, fullName, draw, fate);
      }
    case Compensate(k, at, fate) =>
      if k < |s.handlers| && s.handlers[k].phase.Compensating? {
        CompensateKeepsInv(c, s, k, at, fate);
      }
    case MarkUsed(k, fate) =>
      if k < |s.handlers| && s.handlers[k].phase == Ended(Registered) {
        MarkUsedKeepsInv(c, s, k, fate);
      }
  }

  lemma NotIssued(c: Setup, s: System, k: nat, body: Body, serial: string, issuedAt: int, checkedAt: int)
    requires k < |s.handlers|
    ensures StepIssue(c, s, k, body, serial, issuedAt, checkedAt, NotDone) == Move(s, k, Ended(IssueFailed))
  {
  }

  lemma {:induction false} RunKeepsInv(c: Setup, s0: System, ops: seq<Op>)
    requires Initial(c, s0) && forall i :: 0 <= i < |ops| ==> Admissible(c, ops[i])
    ensures Inv(c, Run(c, s0, ops)) && TokensOk(c, Run(c, s0, ops))
  {
    hide Inv, Step, Admissible;
    if ops == [] {
      InitialInv(c, s0);
    } else {
      RunKeepsInv(c, s0, ops[..|ops| - 1]);
      StepKeepsTokens(c, Run(c, s0, ops[..|ops| - 1]), ops[|ops| - 1]);
      StepKeepsInv(c, Run(c, s0, ops[..|ops| - 1]), ops[|ops| - 1]);
    }
  }

  lemma InitialInv(c: Setup, s0: System)
    requires Initial(c, s0)
    ensures Inv(c, s0)
  {
    hide HasActive, UserExists;
    forall o ensures AccountedFor(c, s0, o) {
      assert !Held(s0, o);
    }
  }

  // ---- the theorem ----

  ghost predicate Quiet(s: System) {
    forall k :: 0 <= k < |s.handlers| ==> !Holds(s.handlers[k])
  }

  /** Once no handler is between issuing and its end: the owners of active client certificates are the
      registered users without the half-created ones, plus the stranded owners; and the two services agree
      exactly when those two exceptions cancel out, in particular when no call failed halfway. */
  lemma RegistrationsStayInStep(c: Setup, s0: System, ops: seq<Op>)
    requires Initial(c, s0) && forall i :: 0 <= i < |ops| ==> Admissible(c, ops[i])
    requires Quiet(Run(c, s0, ops))
    ensures var s := Run(c, s0, ops);
            && OneActive(s.certs, c.horizon)
            && (forall o :: HasActive(s.certs, o, c.horizon) <==> o in s.stranded || (UserExists(s, o) && o !in s.half))
            && (InStep(c, s) <==> s.stranded == s.half)
  {
    hide HasActive, UserExists, Run;
    var s := Run(c, s0, ops);
    RunKeepsInv(c, s0, ops);
    forall o ensures HasActive(s.certs, o, c.horizon) <==> o in s.stranded || (UserExists(s, o) && o !in s.half) {
      assert AccountedFor(c, s, o) && !Held(s, o);
    }
    if InStep(c, s) {
      forall o ensures o in s.stranded <==> o in s.half {
        assert AccountedFor(c, s, o);
      }
    }
    if s.stranded == s.half {
      forall o ensures HasActive(s.certs, o, c.horizon) <==> UserExists(s, o) {
        assert AccountedFor(c, s, o);
      }
    }
  }

  /** What a run without lost replies and failed compensations leaves behind. */
  predicate NoHalfwayFailure(op: Op) {
    match op
    case Issue(_, _, _, _, _, fate) => fate != Lost
    case CreateBankUser(_, _, _, fate) => fate != Lost
    case Compensate(_, _, fate) => fate != NotDone
    case _ => true
  }

  /** When a call that reports an error had no effect and every compensating revoke is carried out, both
      services agree once the handlers are done. */
  lemma CleanStepLeavesNothing(c: Setup, s: System, op: Op)
    requires NoHalfwayFailure(op)
    ensures Step(c, s, op).stranded == s.stranded && Step(c, s, op).half == s.half
  {
    hide CaService.RegisterUser, CaService.RevokeCertificate, Ledger.CreateUser, EmailKnown;
  }

  lemma {:induction false} CleanRunsLeaveNothing(c: Setup, s0: System, ops: seq<Op>)
    requires s0.stranded == {} && s0.half == {} && forall i :: 0 <= i < |ops| ==> NoHalfwayFailure(ops[i])
    ensures Run(c, s0, ops).stranded == {} && Run(c, s0, ops).half == {}
  {
    hide Step;
    if ops != [] {
      CleanRunsLeaveNothing(c, s0, ops[..|ops| - 1]);
      CleanStepLeavesNothing(c, Run(c, s0, ops[..|ops| - 1]), ops[|ops| - 1]);
    }
  }

  lemma CleanRegistrationsAgree(c: Setup, s0: System, ops: seq<Op>)
    requires Initial(c, s0) && forall i :: 0 <= i < |ops| ==> Admissible(c, ops[i]) && NoHalfwayFailure(ops[i])
    requires Quiet(Run(c, s0, ops))
    ensures InStep(c, Run(c, s0, ops))
  {
    CleanRunsLeaveNothing(c, s0, ops);
    RegistrationsStayInStep(c, s0, ops);
  }

  // ---- one user per email ----

  /** The email under which the bank keeps the user of a token. */
  function Mail(t: Token): string {
    Text.Trim(Email(t))
  }

  lemma MailIsLower(t: Token)
    ensures Text.Lower(Mail(t)) == Mail(t)
  {
    hide Text.Trim;
    TrimIsSlice(Text.Lower(t.sub));
  }

  lemma TrimIsSlice(s: string)
    ensures forall k :: 0 <= k < |Text.Trim(s)| ==> Text.Trim(s)[k] in s
  {
    hide Text.White, Text.Trim;
    var i, j := Text.TrimExactly(s);
  }

  ghost predicate LowerApart(users: seq<Ledger.User>) {
    forall i, j :: 0 <= i < j < |users| ==> Text.Lower(users[i].email) != Text.Lower(users[j].email)
  }

  /** Whoever has the email of the token but for the case of letters has exactly that email. */
  ghost predicate Cleared(users: seq<Ledger.User>, t: Token) {
    forall i :: 0 <= i < |users| && Text.Lower(users[i].email) == Mail(t) ==> users[i].email == Mail(t)
  }

  predicate PastTheCheck(h: Handler) {
    h.phase.Vetted? || h.phase.Issued?
  }

  /** Emails are apart, and handlers past the check have seen every user that a later comparison would miss. */
  ghost predicate EmailsInv(s: System) {
    LowerApart(s.bank.users)
    && forall k :: 0 <= k < |s.handlers| && PastTheCheck(s.handlers[k]) ==> Cleared(s.bank.users, s.handlers[k].token)
  }

  /** A new user has the email of a handler past the check, which no user has. */
  ghost predicate NewUserOf(s: System, users': seq<Ledger.User>, k: nat) {
    && k < |s.handlers| && PastTheCheck(s.handlers[k]) && |users'| == |s.bank.users| + 1
    && users'[..|s.bank.users|] == s.bank.users
    && users'[|s.bank.users|].email == Mail(s.handlers[k].token)
    && forall i :: 0 <= i < |s.bank.users| ==> s.bank.users[i].email != Mail(s.handlers[k].token)
  }

  lemma CreateStepUsers(c: Setup, s: System, k: nat, fullName: string, draw: Random16, fate: Fate)
    requires k < |s.handlers| && s.handlers[k].phase.Issued?
    ensures var users' := StepCreateUser(c, s, k, fullName, draw, fate).bank.users;
            users' == s.bank.users || NewUserOf(s, users', k)
  {
    hide Ledger.CreateUser, Text.Trim, Text.Lower;
    var t := s.handlers[k].token;
    CreatedUsers(c.bank, s.bank, t.ownerId, Email(t), fullName, NewUuid(draw));
  }

  lemma StepUsers(c: Setup, s: System, op: Op)
    ensures var users' := Step(c, s, op).bank.users;
            users' == s.bank.users || (op.CreateBankUser? && NewUserOf(s, users', op.k))
  {
    hide CaService.RegisterUser, CaService.RevokeCertificate, StepCreateUser, EmailKnown, NewUserOf;
    if op.CreateBankUser? && op.k < |s.handlers| && s.handlers[op.k].phase.Issued? {
      CreateStepUsers(c, s, op.k, op.fullName, op.draw, op.fate);
    }
  }

  /** Only the handler at `k` moves, and keeps its token. */
  ghost predicate OnlyMoves(s: System, s': System, k: nat) {
    |s'.handlers| == |s.handlers|
    && forall j :: 0 <= j < |s.handlers| ==>
         s'.handlers[j].token == s.handlers[j].token && (j != k ==> s'.handlers[j] == s.handlers[j])
  }

  lemma IssueMoves(c: Setup, s: System, k: nat, body: Body, serial: string, issuedAt: int, checkedAt: int, fate: Fate)
    requires k < |s.handlers|
    ensures OnlyMoves(s, StepIssue(c, s, k, body, serial, issuedAt, checkedAt, fate), k)
  {
    hide CaService.RegisterUser;
  }

  lemma CreateMoves(c: Setup, s: System, k: nat, fullName: string, draw: Random16, fate: Fate)
    requires k < |s.handlers| && s.handlers[k].phase.Issued?
    ensures OnlyMoves(s, StepCreateUser(c, s, k, fullName, draw, fate), k)
  {
    hide Ledger.CreateUser;
  }

  lemma CompensateMoves(s: System, k: nat, at: int, fate: Fate)
    requires k < |s.handlers| && s.handlers[k].phase.Compensating?
    ensures OnlyMoves(s, StepCompensate(s, k, at, fate), k)
    ensures StepCompensate(s, k, at, fate).handlers[k].phase.Ended?
  {
    hide CaService.RevokeCertificate;
  }

  /** Only the check itself lets a handler past it. */
  lemma StepPhases(c: Setup, s: System, op: Op, k: nat)
    requires k < |Step(c, s, op).handlers| && PastTheCheck(Step(c, s, op).handlers[k])
    ensures k < |s.handlers| && Step(c, s, op).handlers[k].token == s.handlers[k].token
    ensures PastTheCheck(s.handlers[k])
         || (!EmailKnown(s.bank.users, Email(s.handlers[k].token)) && Step(c, s, op).bank == s.bank)
  {
    hide StepIssue, StepCreateUser, StepCompensate, EmailKnown, Email, Text.Trim, Columns.ValidText;
    match op
    case Arrive(t) =>
    case CheckEmail(j, fate) =>
    case Issue(j, body, serialBytes, issuedAt, checkedAt, fate) =>
      if j < |s.handlers| && s.handlers[j].phase.Vetted? {
        IssueMoves(c, s, j, body, Hex(serialBytes), issuedAt, checkedAt, fate);
      }
    case CreateBankUser(j, fullName, draw, fate) =>
      if j < |s.handlers| && s.handlers[j].phase.Issued? {
        CreateMoves(c, s, j, fullName, draw, fate);
      }
    case Compensate(j, at, fate) =>
      if j < |s.handlers| && s.handlers[j].phase.Compensating? {
        CompensateMoves(s, j, at, fate);
      }
    case MarkUsed(j, fate) =>
  }

  lemma NotKnownIsCleared(users: seq<Ledger.User>, t: Token)
    requires !EmailKnown(users, Email(t))
    ensures Cleared(users, t)
  {
    hide Text.Lower, Text.Trim;
    MailIsLower(t);
  }

  lemma ClearedGrows(s: System, users': seq<Ledger.User>, k: nat, t: Token)
    requires NewUserOf(s, users', k) && Cleared(s.bank.users, t)
    ensures Cleared(users', t)
  {
    hide Text.Lower, Mail;
    MailIsLower(s.handlers[k].token);
    forall i | 0 <= i < |users'| && Text.Lower(users'[i].email) == Mail(t) ensures users'[i].email == Mail(t) {
      if i < |s.bank.users| {
        assert users'[i] == users'[..|s.bank.users|][i];
      }
    }
  }

  lemma ApartGrows(s: System, users': seq<Ledger.User>, k: nat)
    requires EmailsInv(s) && NewUserOf(s, users', k)
    ensures LowerApart(users')
  {
    hide Text.Lower, Mail;
    MailIsLower(s.handlers[k].token);
    assert Cleared(s.bank.users, s.handlers[k].token);
    assert forall i :: 0 <= i < |s.bank.users| ==> users'[i] == users'[..|s.bank.users|][i];
  }

  lemma StepKeepsEmails(c: Setup, s: System, op: Op)
    requires EmailsInv(s)
    ensures EmailsInv(Step(c, s, op))
  {
    hide Step, NewUserOf, LowerApart, Cleared;
    var s' := Step(c, s, op);
    StepUsers(c, s, op);
    if s'.bank.users != s.bank.users {
      ApartGrows(s, s'.bank.users, op.k);
    }
    forall k | 0 <= k < |s'.handlers| && PastTheCheck(s'.handlers[k])
      ensures Cleared(s'.bank.users, s'.handlers[k].token)
    {
      StepPhases(c, s, op, k);
      if PastTheCheck(s.handlers[k]) {
        if s'.bank.users != s.bank.users {
          ClearedGrows(s, s'.bank.users, op.k, s.handlers[k].token);
        }
      } else {
        NotKnownIsCleared(s.bank.users, s.handlers[k].token);
      }
    }
  }

  lemma {:induction false} RunKeepsEmails(c: Setup, s0: System, ops: seq<Op>)
    requires EmailsInv(s0)
    ensures EmailsInv(Run(c, s0, ops))
  {
    hide Step, EmailsInv;
    if ops != [] {
      RunKeepsEmails(c, s0, ops[..|ops| - 1]);
      StepKeepsEmails(c, Run(c, s0, ops[..|ops| - 1]), ops[|ops| - 1]);
    }
  }

  /** No two users have emails that are the same but for the case of letters. */
  ghost predicate EmailsApart(users: seq<Ledger.User>) {
    forall i, j :: 0 <= i < j < |users| ==> !Text.SameButCase(users[i].email, users[j].email)
  }

  lemma ApartExactly(users: seq<Ledger.User>)
    ensures EmailsApart(users) <==> LowerApart(users)
  {
    hide Text.Lower, Text.SameButCase;
    forall i, j | 0 <= i < j < |users|
      ensures Text.SameButCase(users[i].email, users[j].email)
         <==> Text.Lower(users[i].email) == Text.Lower(users[j].email)
    {
      Text.LowerEqualExactly(users[i].email, users[j].email);
    }
  }

  /** From services where no two emails are the same but for the case of letters, whatever the case of those on
      file, no interleaving of registrations brings two such users about. */
  lemma EmailsStayUnique(c: Setup, s0: System, ops: seq<Op>)
    requires s0.handlers == [] && EmailsApart(s0.bank.users)
    ensures EmailsApart(Run(c, s0, ops).bank.users)
  {
    hide Run, EmailsApart, LowerApart;
    ApartExactly(s0.bank.users);
    RunKeepsEmails(c, s0, ops);
    ApartExactly(Run(c, s0, ops).bank.users);
  }

  /** An email is known exactly when some user has it but for the case of letters and white space around it. */
  lemma KnownExactly(users: seq<Ledger.User>, email: string)
    ensures EmailKnown(users, email) <==>
      exists i :: 0 <= i < |users| && Text.SameButCase(users[i].email, Text.Trim(email))
  {
    hide Text.Lower, Text.SameButCase, Text.Trim;
    forall i | 0 <= i < |users|
      ensures Text.SameButCase(users[i].email, Text.Trim(email))
         <==> Text.Lower(users[i].email) == Text.Lower(Text.Trim(email))
    {
      Text.LowerEqualExactly(users[i].email, Text.Trim(email));
    }
  }
}
