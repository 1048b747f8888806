/** The CA service on top of the store: issuing to a registrant, revoking, and keeping the issuer chain on
    file. In every run an owner has at most one active client certificate at every instant. */
module CaService {
  import opened Wrappers
  import opened Encoding
  import opened Integers
  import opened Certificates
  import AuditChain
  import CertStore
  import Text

  datatype Issuer = Issuer(serial: string, subjectCN: string, notAfter: int)

  datatype Ca = Ca(root: Option<Issuer>, signer: Issuer, validityDays: nat)

  const AUDIT_ISSUED := "issued"
  const AUDIT_REVOKED := "revoked"

  /** `csrAccepted` and `emailAccepted` are the verdicts of the CSR and mail address parsers. */
  datatype RegisterInput = RegisterInput(
    csrPem: string, ownerId: string, subjectCN: string, subjectEmail: string,
    roleValid: bool, csrAccepted: bool, emailAccepted: bool)

  /** `randomSerial` is positive, so its bytes are not empty. */
  type SerialBytes = b: seq<byte> | b != [] witness [1]

  function IssuerRecord(issuer: Issuer, certType: string, issuerId: string, now: int): Cert {
    Cert(issuer.serial, certType, issuerId, issuer.subjectCN, "", Active, issuer.notAfter, None, "", now, now)
  }

  /** `ensureIssuerChain`: the root first, when there is one, then the signing CA. */
  function EnsureIssuerChain(ca: Ca, certs: Certs, now: int): (Certs, Reply) {
    var (certs1, reply) :=
      if ca.root.None? then (certs, Ok)
      else Upsert(certs, IssuerRecord(ca.root.value, ROOT_CA, ROOT_CA_ID, now), now);
    if reply != Ok then (certs1, reply)
    else Upsert(certs1, IssuerRecord(ca.signer, INTERMEDIATE_CA, CLIENT_CA_ID, now), now)
  }

  predicate InputOk(input: RegisterInput) {
    && input.roleValid && Text.Trim(input.csrPem) != "" && Text.Trim(input.ownerId) != ""
    && Text.Trim(input.subjectCN) != "" && input.emailAccepted && '@' in Text.Trim(Text.Lower(input.subjectEmail))
    && input.csrAccepted
  }

  /** A certificate carries the end of its validity in whole seconds. */
  function Expiry(ca: Ca, issuedAt: int): int {
    (issuedAt + ca.validityDays * 86_400 * SECOND) / SECOND * SECOND
  }

  /** The last whole second within the validity. */
  lemma ExpiryExactly(ca: Ca, issuedAt: int)
    ensures Expiry(ca, issuedAt) % 1_000_000_000 == 0
    ensures Expiry(ca, issuedAt) <= issuedAt + ca.validityDays * (24 * 60 * 60 * 1_000_000_000)
                                 < Expiry(ca, issuedAt) + 1_000_000_000
  {
  }

  function ClientRecord(ca: Ca, input: RegisterInput, serial: string, issuedAt: int): Cert {
    Cert(serial, CLIENT, Text.Trim(input.ownerId), Text.Trim(input.subjectCN),
         Text.Trim(Text.Lower(input.subjectEmail)), Active, Expiry(ca, issuedAt), None, "", issuedAt, issuedAt)
  }

  /** `RegisterUser`: the record is dated when the request is built, the store checks for an active
      certificate at its own, later clock reading. */
  function RegisterUser(ca: Ca, certs: Certs, input: RegisterInput, serial: string, issuedAt: int, checkedAt: int)
    : (Certs, Reply)
  {
    if !InputOk(input) then (certs, Err(InvalidInput))
    else
      var (chained, reply) := EnsureIssuerChain(ca, certs, issuedAt);
      if reply != Ok then (chained, reply)
      else Create(chained, ClientRecord(ca, input, serial, issuedAt), checkedAt)
  }

  function RevokeCertificate(certs: Certs, serial: string, reason: string, at: int): (Certs, Reply) {
    var s, r := Text.Trim(serial), Text.Trim(reason);
    if s == "" || r == "" then (certs, Err(InvalidInput))
    else if s !in certs then (certs, Err(NotFound))
    else if certs[s].certType != CLIENT then (certs, Err(NotRevokable))
    else Revoke(certs, s, r, at)
  }

  // ---- what the operations do, in terms of the input ----

  /** What a registrant must send. */
  predicate Valid(input: RegisterInput) {
    && input.roleValid && input.csrAccepted && input.emailAccepted && '@' in input.subjectEmail
    && !Text.White(input.csrPem) && !Text.White(input.ownerId) && !Text.White(input.subjectCN)
  }

  lemma TrimmedAway(s: string)
    ensures Text.Trim(s) == "" <==> Text.White(s)
  {
    hide Text.White, Text.Trim;
    var i, j := Text.TrimExactly(s);
    assert s == s[..i] + s[i..j] + s[j..];
    WhiteParts(s, i, j);
  }

  lemma WhiteParts(s: string, i: nat, j: nat)
    requires i <= j <= |s| && Text.White(s[..i]) && Text.White(s[j..])
    ensures i == j ==> Text.White(s)
    ensures i < j && !Text.WhiteChar(s[i]) ==> !Text.White(s)
  {
    if i == j {
      forall k | 0 <= k < |s| ensures Text.WhiteChar(s[k]) {
        assert if k < i then s[..i][k] == s[k] else s[j..][k - j] == s[k];
      }
    }
  }

  lemma NoAtSign(s: string)
    requires Text.White(s)
    ensures '@' !in s
  {
  }

  lemma AtSignStays(s: string)
    ensures '@' in Text.Trim(Text.Lower(s)) <==> '@' in s
  {
    hide Text.White, Text.Trim;
    var t := Text.Lower(s);
    var i, j := Text.TrimExactly(t);
    NoAtSign(t[..i]);
    NoAtSign(t[j..]);
    assert t == t[..i] + t[i..j] + t[j..];
    AtSignLowered(s);
  }

  lemma AtSignLowered(s: string)
    ensures '@' in Text.Lower(s) <==> '@' in s
  {
    if '@' in s {
      var k :| 0 <= k < |s| && s[k] == '@';
      assert Text.Lower(s)[k] == '@';
    }
  }

  lemma InputExactly(input: RegisterInput)
    ensures InputOk(input) <==> Valid(input)
  {
    hide Text.White, Text.Trim, Text.Lower;
    TrimmedAway(input.csrPem);
    TrimmedAway(input.ownerId);
    TrimmedAway(input.subjectCN);
    AtSignStays(input.subjectEmail);
  }

  /** A client record of `owner` that still counts at `now`. */
  predicate StandsInTheWay(r: Cert, owner: string, now: int) {
    r.certType == "client" && r.ownerId == owner && InForce(r) && (r.notAfter == 0 || now <= r.notAfter)
  }

  /** A registrant is admitted exactly when the input is valid, the serial new and no certificate of the owner
      stands in the way. The record names the registrant. */
  lemma AdmittedExactly(ca: Ca, certs: Certs, input: RegisterInput, serial: string, issuedAt: int, now: int)
    ensures var owner := Text.Trim(input.ownerId);
            var (certs', reply) := AdmitCert(ca, certs, input, serial, issuedAt, now);
            && (reply == Err(InvalidInput) <==> !Valid(input))
            && (reply == Ok <==> Valid(input) && serial !in certs
                                 && forall s :: s in certs ==> !StandsInTheWay(certs[s], owner, now))
            && (reply == Ok ==>
                  && certs' == certs[serial := certs'[serial]]
                  && var r := certs'[serial];
                     && r.serial == serial && r.certType == "client" && r.ownerId == owner
                     && r.subjectCN == Text.Trim(input.subjectCN)
                     && r.subjectEmail == Text.Trim(Text.Lower(input.subjectEmail))
                     && r.status == Active && r.revokedAt == None && r.reason == ""
                     && r.createdAt == r.updatedAt == issuedAt
                     && r.notAfter == Expiry(ca, issuedAt))
            && (reply != Ok ==> certs' == certs)
  {
    hide Text.Trim, Text.Lower, IsActive, Valid, InputOk, InForce;
    InputExactly(input);
    if InputOk(input) {
      AcceptedExactly(certs, ClientRecord(ca, input, serial, issuedAt), now);
    }
  }

  /** A revocation through the service is refused without a serial or a reason; what it records is trimmed. */
  lemma ServiceRevokesExactly(certs: Certs, serial: string, reason: string, at: int)
    ensures var s := Text.Trim(serial);
            var (certs', reply) := RevokeCertificate(certs, serial, reason, at);
            && (reply == Err(InvalidInput) <==> Text.White(serial) || Text.White(reason))
            && (reply == Ok <==>
                  && !Text.White(serial) && !Text.White(reason) && s in certs && certs[s].certType == "client"
                  && certs[s].revokedAt == None && certs[s].status != Revoked)
            && (reply == Ok ==>
                  && certs' == certs[s := certs'[s]] && certs'[s].status == Revoked
                  && certs'[s].revokedAt == Some(at) && certs'[s].reason == Text.Trim(reason)
                  && certs'[s].ownerId == certs[s].ownerId && certs'[s].notAfter == certs[s].notAfter)
            && (reply != Ok ==> certs' == certs)
  {
    hide Text.Trim, Text.White;
    TrimmedAway(serial);
    TrimmedAway(reason);
  }

  /** The issuers are put on file under their serials and types; nobody else's record changes. */
  lemma IssuersOnFile(ca: Ca, certs: Certs, now: int)
    requires EnsureIssuerChain(ca, certs, now).1 == Ok && (ca.root.Some? ==> ca.root.value.serial != ca.signer.serial)
    ensures var certs' := EnsureIssuerChain(ca, certs, now).0;
            && ca.signer.serial in certs' && certs'[ca.signer.serial].certType == "intermediate_ca"
            && certs'[ca.signer.serial].subjectCN == ca.signer.subjectCN
            && certs'[ca.signer.serial].notAfter == ca.signer.notAfter
            && (ca.root.Some? ==>
                  var root := ca.root.value;
                  && root.serial in certs' && certs'[root.serial].certType == "root_ca"
                  && certs'[root.serial].subjectCN == root.subjectCN && certs'[root.serial].notAfter == root.notAfter)
            && forall s :: s != ca.signer.serial && (ca.root.Some? ==> s != ca.root.value.serial) ==>
                 (s in certs' <==> s in certs) && (s in certs ==> certs'[s] == certs[s])
  {
    hide Text.Trim;
  }

  // ---- the code ----

  lemma StoreReplies(certs: Certs, r: Cert, now: int)
    ensures Upsert(certs, r, now).1 == Ok || Upsert(certs, r, now).1 == Err(InvalidInput)
    ensures Create(certs, r, now).1 == Ok || Create(certs, r, now).1 == Err(ActiveExists)
  {
  }

  /** The service over its store, when the state file can be written. */
  class Service {
    const ca: Ca
    const store: CertStore.Store

    constructor (ca: Ca, store: CertStore.Store)
      ensures this.ca == ca && this.store == store
    {
      this.ca, this.store := ca, store;
    }

    method EnsureIssuers(now: int) returns (reply: Reply)
      modifies store
      ensures (store.certificates, reply) == EnsureIssuerChain(ca, old(store.certificates), now)
      ensures store.auditLog == old(store.auditLog)
    {
      hide Upsert;
      if ca.root.Some? {
        var root := ca.root.value;
        StoreReplies(store.certificates, IssuerRecord(root, ROOT_CA, ROOT_CA_ID, now), now);
        reply := store.UpsertCertificate(
          Cert(root.serial, ROOT_CA, ROOT_CA_ID, root.subjectCN, "", Active, root.notAfter, None, "", now, now),
          now, true);
        if reply != Ok {
          return;
        }
      }
      var signer := ca.signer;
      StoreReplies(store.certificates, IssuerRecord(signer, INTERMEDIATE_CA, CLIENT_CA_ID, now), now);
      reply := store.UpsertCertificate(
        Cert(signer.serial, INTERMEDIATE_CA, CLIENT_CA_ID, signer.subjectCN, "", Active, signer.notAfter, None, "",
             now, now),
        now, true);
    }

    /** The guards in order, the issuers, the new record, and an audit event for what was issued. */
    method IssueTo(input: RegisterInput, serialBytes: SerialBytes, performedBy: string, issuedAt: int, checkedAt: int)
      returns (reply: Reply)
      modifies store
      ensures (store.certificates, reply)
           == RegisterUser(ca, old(store.certificates), input, Hex(serialBytes), issuedAt, checkedAt)
      ensures store.auditLog == if reply != Ok then old(store.auditLog) else
        AuditChain.Append(store.h, old(store.auditLog),
                          AuditChain.CaFields("issued", Hex(serialBytes), performedBy, ""), issuedAt)
    {
      hide Create, EnsureIssuerChain, Text.Trim, Text.Lower, AuditChain.Append;
      var owner, name := Text.Trim(input.ownerId), Text.Trim(input.subjectCN);
      var email := Text.Trim(Text.Lower(input.subjectEmail));
      if !input.roleValid || Text.Trim(input.csrPem) == "" || owner == "" || name == "" {
        return Err(InvalidInput);
      }
      if !input.emailAccepted || '@' !in email || !input.csrAccepted {
        return Err(InvalidInput);
      }
      reply := EnsureIssuers(issuedAt);
      if reply != Ok {
        return;
      }
      var notAfter := (issuedAt + ca.validityDays * 86_400 * SECOND) / SECOND * SECOND;
      var serial := Hex(serialBytes);
      StoreReplies(store.certificates, ClientRecord(ca, input, serial, issuedAt), checkedAt);
      reply := store.CreateCertificate(
        Cert(serial, CLIENT, owner, name, email, Active, notAfter, None, "", issuedAt, issuedAt), checkedAt, true);
      if reply != Ok {
        return;
      }
      var written := store.AppendAudit(AUDIT_ISSUED, serial, performedBy, "", issuedAt, true);
    }

    method RevokeOn(serial: string, reason: string, performedBy: string, at: int) returns (reply: Reply)
      modifies store
      ensures (store.certificates, reply) == RevokeCertificate(old(store.certificates), serial, reason, at)
      ensures store.auditLog == if reply != Ok then old(store.auditLog) else
        AuditChain.Append(store.h, old(store.auditLog),
                          AuditChain.CaFields("revoked", Text.Trim(serial), performedBy, Text.Trim(reason)), at)
    {
      hide Revoke, Text.Trim, AuditChain.Append;
      var s, why := Text.Trim(serial), Text.Trim(reason);
      if s == "" || why == "" {
        return Err(InvalidInput);
      }
      if s !in store.certificates {
        return Err(NotFound);
      }
      if store.certificates[s].certType != CLIENT {
        return Err(NotRevokable);
      }
      reply := store.RevokeCertificate(s, why, at, true);
      if reply != Ok {
        return;
      }
      var written := store.AppendAudit(AUDIT_REVOKED, s, performedBy, why, at, true);
    }
  }

  // ---- runs ----

  /** What happens under one lock of the store. A call of the service is a few of these, and the steps of
      concurrent calls come in any order; `issuedAt` is a reading the call made at any earlier time, `now` the
      store's own. */
  datatype CaOp =
    | PutRoot(issuedAt: int, now: int)
    | PutSigner(issuedAt: int, now: int)
    | Admit(input: RegisterInput, serialBytes: SerialBytes, issuedAt: int, now: int)
    | RevokeOne(serial: string, reason: string, at: int, now: int)

  function PutRootCert(ca: Ca, certs: Certs, issuedAt: int, now: int): (Certs, Reply) {
    if ca.root.None? then (certs, Ok)
    else Upsert(certs, IssuerRecord(ca.root.value, ROOT_CA, ROOT_CA_ID, issuedAt), now)
  }

  function PutSignerCert(ca: Ca, certs: Certs, issuedAt: int, now: int): (Certs, Reply) {
    Upsert(certs, IssuerRecord(ca.signer, INTERMEDIATE_CA, CLIENT_CA_ID, issuedAt), now)
  }

  function AdmitCert(ca: Ca, certs: Certs, input: RegisterInput, serial: string, issuedAt: int, now: int)
    : (Certs, Reply)
  {
    if InputOk(input) then Create(certs, ClientRecord(ca, input, serial, issuedAt), now) else (certs, Err(InvalidInput))
  }

  function CaStep(ca: Ca, certs: Certs, op: CaOp): Certs {
    match op
    case PutRoot(issuedAt, now) => PutRootCert(ca, certs, issuedAt, now).0
    case PutSigner(issuedAt, now) => PutSignerCert(ca, certs, issuedAt, now).0
    case Admit(input, serial, issuedAt, now) => AdmitCert(ca, certs, input, Hex(serial), issuedAt, now).0
    case RevokeOne(serial, reason, at, _) => RevokeCertificate(certs, serial, reason, at).0
  }

  function CaRun(ca: Ca, ops: seq<CaOp>): Certs {
    if ops == [] then map[] else CaStep(ca, CaRun(ca, ops[..|ops| - 1]), ops[|ops| - 1])
  }

  /** The readings under the lock do not go back. Those that calls made before are not ordered at all. */
  ghost predicate ClockOk(ops: seq<CaOp>) {
    forall i :: 0 < i < |ops| ==> ops[i - 1].now <= ops[i].now
  }

  /** `RegisterUser` with nothing in between is its three steps, as far as each succeeds. */
  lemma RegisterUserIsSteps(ca: Ca, certs: Certs, input: RegisterInput, serial: string, issuedAt: int, checkedAt: int)
    ensures RegisterUser(ca, certs, input, serial, issuedAt, checkedAt) ==
      var (certs1, reply1) := PutRootCert(ca, certs, issuedAt, issuedAt);
      var (certs2, reply2) := PutSignerCert(ca, certs1, issuedAt, issuedAt);
      if !InputOk(input) then (certs, Err(InvalidInput))
      else if reply1 != Ok then (certs1, reply1)
      else if reply2 != Ok then (certs2, reply2)
      else AdmitCert(ca, certs2, input, serial, issuedAt, checkedAt)
  {
  }

  predicate IssuersNamed(ca: Ca) {
    ca.signer.subjectCN != "" && (ca.root.Some? ==> ca.root.value.subjectCN != "")
  }

  ghost predicate Sound(certs: Certs, now: int) {
    && (forall s :: s in certs ==> RecordOk(s, certs[s]) && certs[s].certType != "")
    && OneActive(certs, now)
  }

  lemma SoundLater(certs: Certs, now: int, later: int)
    requires Sound(certs, now) && now <= later
    ensures Sound(certs, later)
  {
    OneActiveLater(certs, now, later);
  }

  lemma SoundLoadable(certs: Certs, now: int)
    requires Sound(certs, now)
    ensures Loadable(certs, now)
  {
    assert Defaulted(certs) == certs;
  }

  /** A record of a CA type adds no active client certificate. */
  lemma UpsertIssuerKeepsSound(certs: Certs, r: Cert, clock: int, now: int)
    requires Sound(certs, now) && r.subjectCN != "" && r.certType != CLIENT && r.certType != ""
    ensures Sound(Upsert(certs, r, clock).0, now)
  {
    var certs' := Upsert(certs, r, clock).0;
    forall s ensures ActiveClient(certs', s, now) ==> ActiveClient(certs, s, now) && certs'[s] == certs[s] {
    }
  }

  lemma CreateKeepsSound(certs: Certs, r: Cert, now: int)
    requires Sound(certs, now) && RecordOk(r.serial, r) && r.certType != ""
    ensures Sound(Create(certs, r, now).0, now)
  {
    var (certs', reply) := Create(certs, r, now);
    if reply == Ok {
      forall s | s in certs ensures certs'[s] == certs[s] && !Conflicts(certs[s], r, now) {
      }
      forall s, s' | ActiveClient(certs', s, now) && ActiveClient(certs', s', now)
        ensures certs'[s].ownerId == certs'[s'].ownerId ==> s == s'
      {
        assert s != r.serial ==> ActiveClient(certs, s, now);
        assert s' != r.serial ==> ActiveClient(certs, s', now);
      }
    }
  }

  lemma RevokeKeepsSound(certs: Certs, serial: string, reason: string, at: int, now: int)
    requires Sound(certs, now)
    ensures Sound(RevokeCertificate(certs, serial, reason, at).0, now)
  {
    var certs' := RevokeCertificate(certs, serial, reason, at).0;
    forall s ensures ActiveClient(certs', s, now) ==> ActiveClient(certs, s, now) && certs'[s] == certs[s] {
    }
  }

  lemma StepKeepsSound(ca: Ca, certs: Certs, op: CaOp)
    requires Sound(certs, op.now) && IssuersNamed(ca)
    ensures Sound(CaStep(ca, certs, op), op.now)
  {
    hide Sound, Upsert, Create, RevokeCertificate;
    match op
    case PutRoot(issuedAt, now) =>
      if ca.root.Some? {
        UpsertIssuerKeepsSound(certs, IssuerRecord(ca.root.value, ROOT_CA, ROOT_CA_ID, issuedAt), now, now);
      }
    case PutSigner(issuedAt, now) =>
      UpsertIssuerKeepsSound(certs, IssuerRecord(ca.signer, INTERMEDIATE_CA, CLIENT_CA_ID, issuedAt), now, now);
    case Admit(input, serial, issuedAt, now) =>
      if InputOk(input) {
        CreateKeepsSound(certs, ClientRecord(ca, input, Hex(serial), issuedAt), now);
      }
    case RevokeOne(serial, reason, at, now) => RevokeKeepsSound(certs, serial, reason, at, now);
  }

  /** In every interleaving of any number of calls: at the end and at every later instant no owner has two
      active client certificates, and the state would be accepted on loading. Every prefix of a run is a run,
      so this holds at every instant in between as well. */
  lemma {:induction false} OneActiveClientAlways(ca: Ca, ops: seq<CaOp>, later: int)
    requires IssuersNamed(ca) && ClockOk(ops) && (ops != [] ==> ops[|ops| - 1].now <= later)
    ensures Sound(CaRun(ca, ops), later) && Loadable(CaRun(ca, ops), later)
  {
    hide CaStep, Sound, Loadable;
    if ops == [] {
      NoCertsSound(later);
    } else {
      var front, op := ops[..|ops| - 1], ops[|ops| - 1];
      OneActiveClientAlways(ca, front, op.now);
      StepKeepsSound(ca, CaRun(ca, front), op);
      SoundLater(CaRun(ca, ops), op.now, later);
    }
    SoundLoadable(CaRun(ca, ops), later);
  }

  lemma NoCertsSound(now: int)
    ensures Sound(map[], now)
  {
  }

  // ---- renewing ----

  /** One owner registers twice. */
  function Renewal(input: RegisterInput, first: SerialBytes, second: SerialBytes, issuedAt: int, again: int)
    : seq<CaOp>
  {
    [Admit(input, first, issuedAt, issuedAt), Admit(input, second, again, again)]
  }

  /** The second registration succeeds exactly when the first certificate has run out. */
  lemma RenewalExactly(ca: Ca, input: RegisterInput, first: SerialBytes, second: SerialBytes, issuedAt: int, again: int)
    requires Valid(input) && Hex(first) != Hex(second) && issuedAt <= again && Expiry(ca, issuedAt) > 0
    ensures var ops := Renewal(input, first, second, issuedAt, again);
            && ClockOk(ops) && Hex(first) in CaRun(ca, ops)
            && (Hex(second) in CaRun(ca, ops) <==> again > Expiry(ca, issuedAt))
    ensures again > issuedAt + ca.validityDays * (24 * 60 * 60 * 1_000_000_000) ==>
      Hex(second) in CaRun(ca, Renewal(input, first, second, issuedAt, again))
  {
    hide Text.Trim, Text.Lower, Valid, AdmitCert, Hex, Expiry;
    ExpiryExactly(ca, issuedAt);
    var ops := Renewal(input, first, second, issuedAt, again);
    assert ops[..1][..0] == [];
    AdmittedExactly(ca, map[], input, Hex(first), issuedAt, issuedAt);
    var certs := AdmitCert(ca, map[], input, Hex(first), issuedAt, issuedAt).0;
    assert CaRun(ca, ops[..1]) == certs;
    assert certs.Keys == {Hex(first)};
    AdmittedExactly(ca, certs, input, Hex(second), again, again);
    assert StandsInTheWay(certs[Hex(first)], Text.Trim(input.ownerId), again) <==> again <= Expiry(ca, issuedAt);
  }
}
