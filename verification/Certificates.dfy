/** The CA's certificate records by serial number: their status at a time, the store operations as
    functions on the map, and what every sequence of operations keeps. */
module Certificates {
  import opened Wrappers
  import Text

  const CLIENT := "client"
  const ROOT_CA := "root_ca"
  const INTERMEDIATE_CA := "intermediate_ca"
  const ROOT_CA_ID := "root-ca"
  const CLIENT_CA_ID := "client-ca"

  /** The zero `time.Time`, from which times are counted in nanoseconds. */
  const NO_TIME: int := 0

  /** `Blank` is the empty string. */
  datatype Status = Blank | Unknown | Active | Revoked | Expired

  datatype Cert = Cert(
    serial: string, certType: string, ownerId: string, subjectCN: string, subjectEmail: string,
    status: Status, notAfter: int, revokedAt: Option<int>, reason: string, createdAt: int, updatedAt: int)

  type Certs = map<string, Cert>

  datatype StoreError = InvalidInput | ActiveExists | NotFound | AlreadyRevoked | NotRevokable | NotPersisted

  datatype Reply = Ok | Err(error: StoreError)

  predicate IsRevoked(r: Cert) {
    r.revokedAt.Some? || r.status == Revoked
  }

  /** `resolveRecordStatus`. */
  function Resolve(r: Cert, now: int): Status {
    if IsRevoked(r) then Revoked
    else if r.notAfter != NO_TIME && now > r.notAfter then Expired
    else if r.status == Blank || r.status == Unknown then Unknown
    else Active
  }

  predicate IsActive(r: Cert, now: int) {
    Resolve(r, now) == Active
  }

  predicate Conflicts(existing: Cert, r: Cert, now: int) {
    r.certType == CLIENT && existing.certType == CLIENT && existing.ownerId == r.ownerId && IsActive(existing, now)
  }

  // ---- operations ----

  function Create(certs: Certs, r: Cert, now: int): (Certs, Reply) {
    if r.serial in certs then (certs, Err(ActiveExists))
    else if exists s :: s in certs && Conflicts(certs[s], r, now) then (certs, Err(ActiveExists))
    else (certs[r.serial := r], Ok)
  }

  /** The record `UpsertCertificate` writes: a revoked record stays revoked, blanks are filled in. */
  function Merged(certs: Certs, r: Cert, now: int): Cert {
    var found := r.serial in certs;
    var created := if r.createdAt == NO_TIME && found then certs[r.serial].createdAt else r.createdAt;
    var kept := if found && IsRevoked(certs[r.serial])
                then r.(status := Revoked, revokedAt := certs[r.serial].revokedAt, reason := certs[r.serial].reason)
                else r;
    kept.(createdAt := if created == NO_TIME then now else created,
          updatedAt := if r.updatedAt == NO_TIME then now else r.updatedAt,
          status := if kept.status == Blank then Active else kept.status)
  }

  function Upsert(certs: Certs, r: Cert, now: int): (Certs, Reply) {
    if Text.Trim(r.serial) == "" then (certs, Err(InvalidInput))
    else (certs[r.serial := Merged(certs, r, now)], Ok)
  }

  function Revoke(certs: Certs, serial: string, reason: string, at: int): (Certs, Reply) {
    if serial !in certs then (certs, Err(NotFound))
    else if IsRevoked(certs[serial]) then (certs, Err(AlreadyRevoked))
    else if certs[serial].certType != CLIENT then (certs, Err(NotRevokable))
    else
      (certs[serial := certs[serial].(status := Revoked, revokedAt := Some(at), reason := reason, updatedAt := at)], Ok)
  }

  // ---- what a loaded state must satisfy ----

  function DefaultType(r: Cert): Cert {
    if r.certType == "" then r.(certType := CLIENT) else r
  }

  function Defaulted(certs: Certs): Certs {
    map s | s in certs :: DefaultType(certs[s])
  }

  predicate RecordOk(serial: string, r: Cert) {
    && serial != "" && r.serial == serial && r.subjectCN != ""
    && (r.certType == CLIENT ==> r.ownerId != "" && r.subjectEmail != "")
  }

  predicate ActiveClient(certs: Certs, s: string, now: int) {
    s in certs && certs[s].certType == CLIENT && IsActive(certs[s], now)
  }

  /** No owner has two active client certificates. */
  ghost predicate OneActive(certs: Certs, now: int) {
    forall s, s' | ActiveClient(certs, s, now) && ActiveClient(certs, s', now) ::
      certs[s].ownerId == certs[s'].ownerId ==> s == s'
  }

  ghost predicate Loadable(certs: Certs, now: int) {
    && (forall s :: s in certs ==> RecordOk(s, Defaulted(certs)[s]))
    && OneActive(Defaulted(certs), now)
  }

  // ---- lemmas ----

  lemma ActiveEarlier(r: Cert, now: int, later: int)
    requires now <= later && IsActive(r, later)
    ensures IsActive(r, now)
  {
  }

  lemma OneActiveLater(certs: Certs, now: int, later: int)
    requires OneActive(certs, now) && now <= later
    ensures OneActive(certs, later)
  {
    forall s | ActiveClient(certs, s, later) ensures ActiveClient(certs, s, now) {
      ActiveEarlier(certs[s], now, later);
    }
  }

  /** `CreateCertificate` accepts an active record exactly when the serial is new and the store with the
      record in it still has one active client certificate per owner. */
  lemma CreateExactly(certs: Certs, r: Cert, now: int)
    requires OneActive(certs, now) && IsActive(r, now)
    ensures Create(certs, r, now).1 == Ok <==> r.serial !in certs && OneActive(certs[r.serial := r], now)
  {
    if r.serial !in certs {
      var certs' := certs[r.serial := r];
      forall s | s in certs
        ensures certs'[s] == certs[s] && ActiveClient(certs', s, now) == ActiveClient(certs, s, now)
      {
      }
      if s :| s in certs && Conflicts(certs[s], r, now) {
        assert ActiveClient(certs', s, now) && ActiveClient(certs', r.serial, now);
      }
    }
  }

  // ---- activity ends with time ----

  /** A record that neither a revocation nor its status keeps from being active. */
  predicate InForce(r: Cert) {
    r.revokedAt.None? && (r.status == Active || r.status == Expired)
  }

  /** A record is active exactly while it is in force and its `notAfter`, if it has one, has not passed. */
  lemma ActiveExactly(r: Cert, now: int)
    ensures IsActive(r, now) <==> InForce(r) && (r.notAfter == 0 || now <= r.notAfter)
  {
  }

  /** The statuses, each by what brings it about. */
  lemma ResolveExactly(r: Cert, now: int)
    ensures Resolve(r, now) == Revoked <==> r.revokedAt.Some? || r.status == Revoked
    ensures Resolve(r, now) == Expired <==>
      r.revokedAt.None? && r.status != Revoked && r.notAfter != 0 && r.notAfter < now
    ensures Resolve(r, now) != Blank
    ensures Resolve(r, now) == Unknown ==> r.status == Blank || r.status == Unknown
  {
  }

  /** A record is accepted exactly when its serial is new and, if it is a client's, every client record of its
      owner on file is out of force or past its `notAfter`. */
  lemma AcceptedExactly(certs: Certs, r: Cert, now: int)
    ensures Create(certs, r, now).1 == Ok <==>
      && r.serial !in certs
      && (r.certType == "client" ==>
            forall s :: s in certs && certs[s].certType == "client" && certs[s].ownerId == r.ownerId ==>
              !InForce(certs[s]) || (certs[s].notAfter != 0 && certs[s].notAfter < now))
    ensures Create(certs, r, now).1 == Ok ==> Create(certs, r, now).0 == certs[r.serial := r]
    ensures Create(certs, r, now).1 != Ok ==> Create(certs, r, now) == (certs, Err(ActiveExists))
  {
    hide IsActive;
    forall s | s in certs
      ensures IsActive(certs[s], now)
         <==> InForce(certs[s]) && (certs[s].notAfter == 0 || now <= certs[s].notAfter)
    {
      ActiveExactly(certs[s], now);
    }
  }

  /** When a revocation is carried out, and why it is refused otherwise. */
  lemma RevokedExactly(certs: Certs, serial: string, reason: string, at: int)
    ensures var reply := Revoke(certs, serial, reason, at).1;
            && (reply == Err(NotFound) <==> serial !in certs)
            && (reply == Err(AlreadyRevoked) <==>
                  serial in certs && (certs[serial].revokedAt.Some? || certs[serial].status == Revoked))
            && (reply == Err(NotRevokable) <==>
                  && serial in certs && certs[serial].certType != "client"
                  && certs[serial].revokedAt.None? && certs[serial].status != Revoked)
            && (reply == Ok || Revoke(certs, serial, reason, at).0 == certs)
            && (reply == Ok ==> Revoke(certs, serial, reason, at).0.Keys == certs.Keys)
            && (reply == Ok ==> forall s :: s in certs && s != serial ==>
                  Revoke(certs, serial, reason, at).0[s] == certs[s])
  {
  }

  // ---- revocation is permanent ----

  datatype StoreOp =
    | CreateOp(record: Cert, now: int)
    | UpsertOp(record: Cert, now: int)
    | RevokeOp(serial: string, reason: string, at: int)

  function StoreStep(certs: Certs, op: StoreOp): Certs {
    match op
    case CreateOp(r, now) => Create(certs, r, now).0
    case UpsertOp(r, now) => Upsert(certs, r, now).0
    case RevokeOp(serial, reason, at) => Revoke(certs, serial, reason, at).0
  }

  function StoreRun(certs: Certs, ops: seq<StoreOp>): Certs {
    if ops == [] then certs else StoreStep(StoreRun(certs, ops[..|ops| - 1]), ops[|ops| - 1])
  }

  /** Once revoked, a serial keeps its revocation time and reason through every later store operation with
      any records, and resolves to revoked at every clock value. */
  lemma {:induction false} RevokedForever(certs: Certs, ops: seq<StoreOp>, serial: string)
    requires serial in certs && IsRevoked(certs[serial])
    ensures var certs' := StoreRun(certs, ops);
            && serial in certs'
            && certs'[serial].revokedAt == certs[serial].revokedAt && certs'[serial].reason == certs[serial].reason
            && forall now :: Resolve(certs'[serial], now) == Revoked
  {
    hide StoreStep;
    if ops != [] {
      RevokedForever(certs, ops[..|ops| - 1], serial);
      var mid := StoreRun(certs, ops[..|ops| - 1]);
      assert Resolve(mid[serial], 0) == Revoked;
      StepKeepsRevoked(mid, ops[|ops| - 1], serial);
    }
  }

  lemma StepKeepsRevoked(certs: Certs, op: StoreOp, serial: string)
    requires serial in certs && IsRevoked(certs[serial])
    ensures var certs' := StoreStep(certs, op);
            && serial in certs' && IsRevoked(certs'[serial])
            && certs'[serial].revokedAt == certs[serial].revokedAt && certs'[serial].reason == certs[serial].reason
  {
  }

  /** A revocation that was carried out is dated, explained and final. */
  lemma RevocationStands(certs: Certs, serial: string, reason: string, at: int, ops: seq<StoreOp>, now: int)
    requires Revoke(certs, serial, reason, at).1 == Ok
    ensures var certs' := StoreRun(Revoke(certs, serial, reason, at).0, ops);
            && !ActiveClient(certs', serial, now)
            && serial in certs' && certs'[serial].revokedAt == Some(at) && certs'[serial].reason == reason
  {
    hide StoreRun;
    RevokedForever(Revoke(certs, serial, reason, at).0, ops, serial);
  }
}
