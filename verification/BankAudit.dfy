/** The bank's audit log as its table keeps it: the hash covers the texts that the caller gave, the replay reads
    the columns back. */
module BankAudit {
  import opened Wrappers
  import opened Encoding
  import opened AuditChain
  import opened Columns

  const REQUEST_CHARS := 64
  const SERIAL_CHARS := 128

  /** The actions that the table takes. */
  const ACTIONS: set<string> := {
    "transfer_completed", "transfer_rejected", "replay_detected", "invalid_signature", "certificate_rejected",
    "forbidden_ownership", "insufficient_funds"}

  datatype Entry = Entry(
    action: string, userId: string, accountId: string, transactionId: string,
    certSerial: string, requestId: string, reason: string)

  /** What the database reads a text as when it takes it for a UUID, in canonical form. */
  type Uuids = string -> Option<string>

  /** A UUID column, in which NULL stands for the empty text. */
  function IdHeld(uuid: Uuids, id: string): Option<string> {
    if id == "" then Some("") else uuid(id)
  }

  predicate Takes(uuid: Uuids, e: Entry) {
    && e.action in ACTIONS
    && IdHeld(uuid, e.userId).Some? && IdHeld(uuid, e.accountId).Some? && IdHeld(uuid, e.transactionId).Some?
    && Fits(e.certSerial, SERIAL_CHARS) && Fits(e.requestId, REQUEST_CHARS) && ValidText(e.reason)
  }

  /** The table takes an entry with one of its seven actions, with identifiers that are UUIDs or missing, and with
      texts that fit. */
  lemma TakesExactly(uuid: Uuids, e: Entry)
    ensures Takes(uuid, e) <==>
      && (|| e.action == "transfer_completed" || e.action == "transfer_rejected" || e.action == "replay_detected"
          || e.action == "invalid_signature" || e.action == "certificate_rejected"
          || e.action == "forbidden_ownership" || e.action == "insufficient_funds")
      && (|e.userId| == 0 || uuid(e.userId).Some?) && (|e.accountId| == 0 || uuid(e.accountId).Some?)
      && (|e.transactionId| == 0 || uuid(e.transactionId).Some?)
      && Fits(e.certSerial, 128) && Fits(e.requestId, 64) && ValidText(e.reason)
  {
    hide Fits, ValidText, ACTIONS;
    ActionsExactly(e.action);
  }

  lemma ActionsExactly(a: string)
    ensures a in ACTIONS <==>
      || a == "transfer_completed" || a == "transfer_rejected" || a == "replay_detected"
      || a == "invalid_signature" || a == "certificate_rejected"
      || a == "forbidden_ownership" || a == "insufficient_funds"
  {
  }

  function Given(e: Entry): seq<string> {
    BankFields(e.action, e.userId, e.accountId, e.transactionId, e.certSerial, e.requestId, e.reason)
  }

  /** The fields that `VerifyAuditChain` selects. */
  function ReadBack(uuid: Uuids, e: Entry): seq<string>
    requires Takes(uuid, e)
  {
    BankFields(e.action, IdHeld(uuid, e.userId).value, IdHeld(uuid, e.accountId).value,
               IdHeld(uuid, e.transactionId).value, Cut(e.certSerial, SERIAL_CHARS),
               Cut(e.requestId, REQUEST_CHARS), e.reason)
  }

  /** `InsertAudit`; an entry that the table does not take is dropped. */
  function InsertAudit(h: HashFn, uuid: Uuids, log: seq<Event>, e: Entry, at: int): seq<Event> {
    if Takes(uuid, e)
    then log + [Event(ReadBack(uuid, e), at, NextPrev(log), ChainHash(h, NextPrev(log), Given(e)))]
    else log
  }

  /** An insert keeps the log verifying exactly when the log verified, no unhashed row stands after the hashed
      ones, and the columns read back as given or the hash does not tell the difference. */
  lemma InsertVerifies(h: HashFn, uuid: Uuids, log: seq<Event>, e: Entry, at: int)
    requires Takes(uuid, e)
    ensures Unbroken(h, InsertAudit(h, uuid, log, e, at)) <==>
      && Unbroken(h, log) && (HashedCount(log) == 0 || Hashed(log[|log| - 1]))
      && h(NextPrev(log) + Joined(ReadBack(uuid, e))) == h(NextPrev(log) + Joined(Given(e)))
    ensures HashedCount(InsertAudit(h, uuid, log, e, at)) == HashedCount(log) + 1
  {
    hide Unbroken, LastHash, Linked, Joined, Takes, HashedCount, NextPrev;
    var prev := NextPrev(log);
    var event := Event(ReadBack(uuid, e), at, prev, ChainHash(h, prev, Given(e)));
    HashedCountAppend(log, event);
    UnbrokenLast(h, log, event);
    SealedAs(h, prev, ReadBack(uuid, e), Given(e));
    if Unbroken(h, log) {
      if LastHash(log).Some? {
        LastHashSealed(h, log);
      }
      NewEventLinked(log, event);
    }
  }

  lemma SealedAs(h: HashFn, prev: string, xs: seq<string>, ys: seq<string>)
    ensures ChainHash(h, prev, xs) == ChainHash(h, prev, ys) <==> h(prev + Joined(xs)) == h(prev + Joined(ys))
  {
    HexInjectiveOrNot(h(prev + Joined(xs)), h(prev + Joined(ys)));
  }

  lemma HexInjectiveOrNot(a: Digest, b: Digest)
    ensures Hex(a) == Hex(b) <==> a == b
  {
    if Hex(a) == Hex(b) {
      HexInjective(a, b);
    }
  }

  /** Identifiers in canonical text, and no blanks for a column to cut. */
  predicate Verbatim(uuid: Uuids, e: Entry) {
    Takes(uuid, e) ==> ReadBack(uuid, e) == Given(e)
  }

  function InsertAll(h: HashFn, uuid: Uuids, log: seq<Event>, entries: seq<(Entry, int)>): seq<Event>
    decreases |entries|
  {
    if entries == [] then log
    else InsertAll(h, uuid, InsertAudit(h, uuid, log, entries[0].0, entries[0].1), entries[1..])
  }

  function TakenCount(uuid: Uuids, entries: seq<(Entry, int)>): nat {
    if entries == [] then 0
    else (if Takes(uuid, entries[0].0) then 1 else 0) + TakenCount(uuid, entries[1..])
  }

  /** Any sequence of inserts of entries that read back as given keeps the log verifying, and `Checked` grows
      by one with each entry that the table takes. */
  lemma {:induction false} RunOfInsertsVerifies(h: HashFn, uuid: Uuids, log: seq<Event>, entries: seq<(Entry, int)>)
    requires Unbroken(h, log) && (HashedCount(log) == 0 || Hashed(log[|log| - 1]))
    requires forall k :: 0 <= k < |entries| ==> Verbatim(uuid, entries[k].0)
    ensures Unbroken(h, InsertAll(h, uuid, log, entries))
    ensures HashedCount(InsertAll(h, uuid, log, entries)) == HashedCount(log) + TakenCount(uuid, entries)
    decreases |entries|
  {
    hide Unbroken, Takes, ReadBack, HashedCount, NextPrev, ChainHash;
    if entries != [] {
      var (e, at) := entries[0];
      assert Verbatim(uuid, e);
      if Takes(uuid, e) {
        InsertVerifies(h, uuid, log, e, at);
        NewRowHashed(h, uuid, log, e, at);
      }
      RunOfInsertsVerifies(h, uuid, InsertAudit(h, uuid, log, e, at), entries[1..]);
    }
  }

  lemma NewRowHashed(h: HashFn, uuid: Uuids, log: seq<Event>, e: Entry, at: int)
    requires Takes(uuid, e)
    ensures var log' := InsertAudit(h, uuid, log, e, at); log' != [] && Hashed(log'[|log'| - 1])
  {
  }

  lemma {:induction false} BrokenStays(h: HashFn, uuid: Uuids, log: seq<Event>, entries: seq<(Entry, int)>)
    requires !Unbroken(h, log)
    ensures !Unbroken(h, InsertAll(h, uuid, log, entries))
    decreases |entries|
  {
    hide Unbroken, Takes, InsertAudit;
    if entries != [] {
      var (e, at) := entries[0];
      if Takes(uuid, e) {
        InsertVerifies(h, uuid, log, e, at);
      } else {
        assert InsertAudit(h, uuid, log, e, at) == log by { DroppedEntry(h, uuid, log, e, at); }
      }
      BrokenStays(h, uuid, InsertAudit(h, uuid, log, e, at), entries[1..]);
    }
  }

  lemma DroppedEntry(h: HashFn, uuid: Uuids, log: seq<Event>, e: Entry, at: int)
    requires !Takes(uuid, e)
    ensures InsertAudit(h, uuid, log, e, at) == log
  {
  }

  /** A text that the columns change breaks the verification for good, or two inputs collide. */
  lemma ChangedTextBreaks(h: HashFn, uuid: Uuids, log: seq<Event>, e: Entry, at: int, more: seq<(Entry, int)>)
    requires Takes(uuid, e) && !Verbatim(uuid, e) && Plain(Given(e)) && Plain(ReadBack(uuid, e))
    ensures var a, b := NextPrev(log) + Joined(ReadBack(uuid, e)), NextPrev(log) + Joined(Given(e));
            a != b && (h(a) == h(b) || !Unbroken(h, InsertAll(h, uuid, InsertAudit(h, uuid, log, e, at), more)))
  {
    hide Takes, Plain, Unbroken, Joined, NextPrev, InsertAudit, InsertAll, Given, ReadBack;
    var prev := NextPrev(log);
    if prev + Joined(ReadBack(uuid, e)) == prev + Joined(Given(e)) {
      SplitAt(prev, Joined(ReadBack(uuid, e)), prev, Joined(Given(e)));
      JoinedInjective(ReadBack(uuid, e), Given(e));
    }
    InsertVerifies(h, uuid, log, e, at);
    if !Unbroken(h, InsertAudit(h, uuid, log, e, at)) {
      BrokenStays(h, uuid, InsertAudit(h, uuid, log, e, at), more);
    }
  }

  // ---- a request id that its column cuts ----

  /** Sixty-four letters and a blank. */
  function LongRequestId(): string {
    seq(64, _ => 'r') + " "
  }

  /** A stale request of `client`, as `authorize` reports it. */
  function StaleEntry(client: string): Entry {
    Entry("transfer_rejected", client, "", "", "serial", LongRequestId(), "stale_request")
  }

  lemma LongIdIsCut()
    ensures Fits(LongRequestId(), REQUEST_CHARS) && Cut(LongRequestId(), REQUEST_CHARS) != LongRequestId()
  {
    LettersAndBlank('r', REQUEST_CHARS);
  }

  lemma RejectionIsAction()
    ensures "transfer_rejected" in ACTIONS
  {
  }

  lemma StaleEntryTaken(uuid: Uuids, client: string)
    requires IdHeld(uuid, client) == Some(client)
    ensures Takes(uuid, StaleEntry(client)) && !Verbatim(uuid, StaleEntry(client))
    ensures ReadBack(uuid, StaleEntry(client)) == Given(StaleEntry(client))[5 := Cut(LongRequestId(), REQUEST_CHARS)]
  {
    hide Fits, Cut, ValidText, LongRequestId, ACTIONS;
    RejectionIsAction();
    LongIdIsCut();
    AsciiFits("serial", SERIAL_CHARS);
    AsciiFits("stale_request", REQUEST_CHARS);
    var e := StaleEntry(client);
    assert Given(e)[5] != ReadBack(uuid, e)[5];
  }

  lemma StaleEntryPlain(client: string)
    requires Free(client, SEPARATOR)
    ensures Plain(Given(StaleEntry(client)))
    ensures Plain(Given(StaleEntry(client))[5 := Cut(LongRequestId(), REQUEST_CHARS)])
  {
    hide Cut;
    assert Free(LongRequestId(), SEPARATOR);
  }

  /** A client with a canonical identifier, or none, chooses that request id: the table takes the entry, and from
      then on the log does not verify, or two inputs collide. */
  lemma LongRequestIdBreaks(h: HashFn, uuid: Uuids, log: seq<Event>, client: string, at: int, more: seq<(Entry, int)>)
    requires IdHeld(uuid, client) == Some(client) && Free(client, SEPARATOR)
    ensures var e := StaleEntry(client);
            && Takes(uuid, e) && !Verbatim(uuid, e)
            && var a, b := NextPrev(log) + Joined(ReadBack(uuid, e)), NextPrev(log) + Joined(Given(e));
               a != b && (h(a) == h(b) || !Unbroken(h, InsertAll(h, uuid, InsertAudit(h, uuid, log, e, at), more)))
  {
    hide Takes, Verbatim, ReadBack, Given, StaleEntry, Plain, Joined, NextPrev, Unbroken, InsertAudit, InsertAll;
    StaleEntryTaken(uuid, client);
    StaleEntryPlain(client);
    ChangedTextBreaks(h, uuid, log, StaleEntry(client), at, more);
  }
}
