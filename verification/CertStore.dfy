/** The in-memory `Store`: maps and a slice updated under one lock. When the state file cannot be written
    the change stays in memory although the caller gets an error. */
module CertStore {
  import opened Wrappers
  import opened Encoding
  import opened Certificates
  import AuditChain
  import Text

  function Written(persisted: bool): Reply {
    if persisted then Ok else Err(NotPersisted)
  }

  /** Outside `todo` the records have passed their checks and have their type. */
  ghost predicate Checked(loaded: Certs, todo: set<string>, current: Certs) {
    && todo <= loaded.Keys == current.Keys
    && (forall s | s in todo :: current[s] == loaded[s])
    && (forall s | s in loaded && s !in todo :: current[s] == DefaultType(loaded[s]) && RecordOk(s, current[s]))
  }

  lemma CheckedStep(loaded: Certs, todo: set<string>, current: Certs, serial: string)
    requires Checked(loaded, todo, current) && serial in todo
    ensures serial in current && current[serial] == loaded[serial]
    ensures RecordOk(serial, DefaultType(loaded[serial])) ==>
      Checked(loaded, todo - {serial}, current[serial := DefaultType(loaded[serial])])
  {
  }

  lemma CheckedAll(loaded: Certs, current: Certs)
    requires Checked(loaded, {}, current)
    ensures current == Defaulted(loaded) && forall s | s in loaded :: RecordOk(s, Defaulted(loaded)[s])
  {
  }

  /** `active` holds, by owner, the active client certificates outside `todo`. */
  ghost predicate Tracked(d: Certs, todo: set<string>, active: map<string, string>, now: int) {
    && (forall s | ActiveClient(d, s, now) && s !in todo :: d[s].ownerId in active && active[d[s].ownerId] == s)
    && (forall o | o in active :: active[o] !in todo && ActiveClient(d, active[o], now) && d[active[o]].ownerId == o)
  }

  lemma WalkStarts(certs: Certs, now: int)
    ensures Checked(certs, certs.Keys, certs) && Tracked(Defaulted(certs), certs.Keys, map[], now)
    ensures forall s | s in certs :: s in Defaulted(certs) && Defaulted(certs)[s] == DefaultType(certs[s])
  {
  }

  lemma TrackedSkip(d: Certs, todo: set<string>, active: map<string, string>, now: int, serial: string)
    requires Tracked(d, todo, active, now) && !ActiveClient(d, serial, now)
    ensures Tracked(d, todo - {serial}, active, now)
  {
  }

  lemma TrackedAdd(d: Certs, todo: set<string>, active: map<string, string>, now: int, serial: string)
    requires Tracked(d, todo, active, now) && ActiveClient(d, serial, now) && d[serial].ownerId !in active
    ensures Tracked(d, todo - {serial}, active[d[serial].ownerId := serial], now)
  {
  }

  lemma TrackedClash(d: Certs, todo: set<string>, active: map<string, string>, now: int, serial: string)
    requires Tracked(d, todo, active, now) && serial in todo
    requires ActiveClient(d, serial, now) && d[serial].ownerId in active
    ensures !OneActive(d, now)
  {
    assert active[d[serial].ownerId] != serial;
  }

  lemma TrackedAll(d: Certs, active: map<string, string>, now: int)
    requires Tracked(d, {}, active, now)
    ensures OneActive(d, now)
  {
  }

  class Store {
    const h: HashFn
    var certificates: Certs
    var auditLog: seq<AuditChain.Event>

    constructor (h: HashFn)
      ensures this.h == h && certificates == map[] && auditLog == []
    {
      this.h := h;
      certificates, auditLog := map[], [];
    }

    method CreateCertificate(r: Cert, now: int, persisted: bool) returns (reply: Reply)
      modifies this`certificates
      ensures certificates == Create(old(certificates), r, now).0
      ensures reply == if Create(old(certificates), r, now).1 == Ok then Written(persisted) else Err(ActiveExists)
    {
      if r.serial in certificates {
        return Err(ActiveExists);
      }
      var todo := certificates.Keys;
      while todo != {}
        invariant todo <= certificates.Keys
        invariant forall s :: s in certificates && s !in todo ==> !Conflicts(certificates[s], r, now)
        decreases |todo|
      {
        var s :| s in todo;
        if Conflicts(certificates[s], r, now) {
          return Err(ActiveExists);
        }
        todo := todo - {s};
      }
      certificates := certificates[r.serial := r];
      reply := Written(persisted);
    }

    method UpsertCertificate(r: Cert, now: int, persisted: bool) returns (reply: Reply)
      modifies this`certificates
      ensures certificates == Upsert(old(certificates), r, now).0
      ensures reply == if Upsert(old(certificates), r, now).1 == Ok then Written(persisted) else Err(InvalidInput)
    {
      if Text.Trim(r.serial) == "" {
        return Err(InvalidInput);
      }
      var record := r;
      if record.serial in certificates {
        var existing := certificates[record.serial];
        if record.createdAt == NO_TIME {
          record := record.(createdAt := existing.createdAt);
        }
        if existing.revokedAt.Some? || existing.status == Revoked {
          record := record.(status := Revoked, revokedAt := existing.revokedAt, reason := existing.reason);
        }
      }
      if record.createdAt == NO_TIME {
        record := record.(createdAt := now);
      }
      if record.updatedAt == NO_TIME {
        record := record.(updatedAt := now);
      }
      if record.status == Blank {
        record := record.(status := Active);
      }
      certificates := certificates[record.serial := record];
      reply := Written(persisted);
    }

    method RevokeCertificate(serial: string, reason: string, at: int, persisted: bool) returns (reply: Reply)
      modifies this`certificates
      ensures certificates == Revoke(old(certificates), serial, reason, at).0
      ensures reply == if Revoke(old(certificates), serial, reason, at).1 == Ok then Written(persisted)
                       else Revoke(old(certificates), serial, reason, at).1
    {
      if serial !in certificates {
        return Err(NotFound);
      }
      var record := certificates[serial];
      if record.revokedAt.Some? || record.status == Revoked {
        return Err(AlreadyRevoked);
      }
      if record.certType != CLIENT {
        return Err(NotRevokable);
      }
      record := record.(status := Revoked, revokedAt := Some(at), reason := reason, updatedAt := at);
      certificates := certificates[serial := record];
      reply := Written(persisted);
    }

    /** `at` is the event's own time, or the clock's when it has none. */
    method AppendAudit(action: string, serial: string, performedBy: string, reason: string, at: int, persisted: bool)
      returns (reply: Reply)
      modifies this`auditLog
      ensures auditLog
           == AuditChain.Append(h, old(auditLog), AuditChain.CaFields(action, serial, performedBy, reason), at)
      ensures AuditChain.Unbroken(h, auditLog) <==>
        && AuditChain.Unbroken(h, old(auditLog))
        && (AuditChain.HashedCount(old(auditLog)) == 0 || AuditChain.Hashed(old(auditLog)[|old(auditLog)| - 1]))
      ensures reply == Written(persisted)
    {
      hide AuditChain.Unbroken, AuditChain.HashedCount, AuditChain.ChainHash;
      ghost var before := auditLog;
      var prevHash := AuditChain.GENESIS;
      var n := |auditLog|;
      if n > 0 && auditLog[n - 1].hash != "" {
        prevHash := auditLog[n - 1].hash;
      }
      var covered := AuditChain.CaFields(action, serial, performedBy, reason);
      var event := AuditChain.Event(covered, at, prevHash, AuditChain.ChainHash(h, prevHash, covered));
      auditLog := auditLog + [event];
      AuditChain.AppendVerifies(h, before, covered, at);
      reply := Written(persisted);
    }

    /** The checks on one record of a loaded state, which also fill in its type. */
    method CheckRecord(serial: string) returns (ok: bool)
      requires serial in certificates
      modifies this`certificates
      ensures ok <==> RecordOk(serial, DefaultType(old(certificates)[serial]))
      ensures ok ==> certificates == old(certificates)[serial := DefaultType(old(certificates)[serial])]
    {
      var record := certificates[serial];
      if serial == "" || record.serial == "" || serial != record.serial {
        return false;
      }
      if record.certType == "" {
        record := record.(certType := CLIENT);
      }
      certificates := certificates[serial := record];
      ok := record.subjectCN != ""
            && !(record.certType == CLIENT && (record.ownerId == "" || record.subjectEmail == ""));
    }

    /** Accepts a loaded state exactly when it is `Loadable`, whatever order the map is walked in; records
        without a type become client records on the way. A store that is not accepted is discarded. */
    method ValidateLoadedState(now: int) returns (ok: bool)
      modifies this`certificates
      ensures ok <==> Loadable(old(certificates), now)
      ensures ok ==> certificates == Defaulted(old(certificates))
    {
      hide Checked, Tracked, OneActive, IsActive, Defaulted, RecordOk;
      ghost var loaded, d := certificates, Defaulted(certificates);
      WalkStarts(loaded, now);
      var activeByOwner: map<string, string> := map[];
      var todo := certificates.Keys;
      while todo != {}
        invariant todo <= loaded.Keys && Checked(loaded, todo, certificates)
        invariant Tracked(d, todo, activeByOwner, now)
        decreases |todo|
      {
        var serial :| serial in todo;
        CheckedStep(loaded, todo, certificates, serial);
        var recordOk := CheckRecord(serial);
        if !recordOk {
          return false;
        }
        var record := certificates[serial];
        if record.certType == CLIENT && IsActive(record, now) {
          if record.ownerId in activeByOwner {
            TrackedClash(d, todo, activeByOwner, now, serial);
            return false;
          }
          TrackedAdd(d, todo, activeByOwner, now, serial);
          activeByOwner := activeByOwner[record.ownerId := serial];
        } else {
          TrackedSkip(d, todo, activeByOwner, now, serial);
        }
        todo := todo - {serial};
      }
      CheckedAll(loaded, certificates);
      TrackedAll(d, activeByOwner, now);
      ok := true;
    }
  }
}
