/** What a reader of the ledger can rely on: the head fixes the history, balances replay the rows, an
    idempotency key has one final answer, and a rollback has only the table constraints as its cause. */
module LedgerHistory {
  import opened Wrappers
  import opened Encoding
  import opened Integers
  import opened LedgerChain
  import opened Ledger
  import opened LedgerRuns
  import opened LedgerLimits
  import opened Columns

  // ---- the head fixes the history ----

  lemma {:induction false} RowsOnlyGrow(c: Config, s: State, ops: seq<Op>)
    ensures s.rows <= Run(c, s, ops).rows
  {
    if ops != [] {
      RowsOnlyGrow(c, s, ops[..|ops| - 1]);
      StepOnlyAppends(c, Run(c, s, ops[..|ops| - 1]), ops[|ops| - 1]);
    }
  }

  lemma ExecuteOnlyAppends(c: Config, s: State, who: Caller, req: Request, id: string, t: Readings)
    ensures s.rows <= Execute(c, s, who, req, id, t).0.rows
  {
    hide Decide, InsertOk, BalancesFit, NewRow, Held;
  }

  lemma CreateUserKeepsRows(c: Config, s: State, userId: string, email: string, fullName: string, accountId: string)
    ensures CreateUser(c, s, userId, email, fullName, accountId).0.rows == s.rows
  {
    hide AccountNumber, UserRowRefused;
  }

  lemma StepOnlyAppends(c: Config, s: State, op: Op)
    ensures s.rows <= Step(c, s, op).rows
  {
    hide Execute, CreateUser;
    match op
    case CreateUserOp(userId, email, fullName, draw, t) =>
      CreateUserKeepsRows(c, s, userId, email, fullName, NewUuid(draw));
    case ExecuteOp(who, req, draw, t) => ExecuteOnlyAppends(c, s, who, req, NewUuid(draw), t);
  }

  /** Two banks, two runs, one head: the same payload hashes, signatures, identifiers and time stamps in
      the same order, or two recorded hash inputs that collide. */
  lemma HistoryFixedByHead(c: Config, s: State, ops: seq<Op>, s': State, ops': seq<Op>)
    requires Initial(s) && Initial(s')
    requires Run(c, s, ops).lastHash == Run(c, s', ops').lastHash
    ensures var xs, ys := Run(c, s, ops).rows, Run(c, s', ops').rows;
            || Colliding(c, xs, ys)
            || (|xs| == |ys| && forall i :: 0 <= i < |xs| ==> SameCovered(c, xs[i], ys[i]))
  {
    RunKeepsInv(c, s, ops);
    RunKeepsInv(c, s', ops');
    HeadFixesRows(c, Run(c, s, ops).rows, Run(c, s', ops').rows, Run(c, s, ops).lastHash);
  }

  /** What equal covered fields say about two requests: one signature, and canonical payloads that are equal
      or collide. */
  lemma SameCoveredSameRequest(c: Config, req: Request, req': Request, a: Row, b: Row)
    requires a.payloadHash == PayloadHash(c, req.canonical) && a.signature == Base64(req.signature)
    requires b.payloadHash == PayloadHash(c, req'.canonical) && b.signature == Base64(req'.signature)
    requires SameCovered(c, a, b)
    ensures req.signature == req'.signature
    ensures c.hash(req.canonical) == c.hash(req'.canonical)
  {
    Base64Injective(req.signature, req'.signature);
    HexInjective(c.hash(req.canonical), c.hash(req'.canonical));
  }

  // ---- money ----

  /** After any run: no balance is negative, every balance is its opening balance plus completed credits
      minus completed debits, and the total has grown by the opening balance of each new account only. */
  lemma BalancesAreReplay(c: Config, s0: State, ops: seq<Op>)
    requires Initial(s0)
    ensures var s := Run(c, s0, ops);
            && (forall i :: 0 <= i < |s.accounts| ==>
                  s.accounts[i].balance >= 0 && s.accounts[i].balance == Opening(s0, i) + Net(s.rows, s.accounts[i].id))
            && Total(s.accounts) == Total(s0.accounts) + 50_000_000 * (|s.accounts| - |s0.accounts|)
            && forall i :: |s0.accounts| <= i < |s.accounts| ==> Opening(s0, i) == 50_000_000
  {
    RunKeepsInv(c, s0, ops);
  }

  // ---- idempotency ----

  lemma {:induction false} FindByKeyKept(rows: seq<Row>, more: seq<Row>, key: string)
    requires rows <= more && FindByKey(rows, key).Some?
    ensures FindByKey(more, key) == FindByKey(rows, key)
  {
    if rows[0].key != key {
      FindByKeyKept(rows[1..], more[1..], key);
    }
  }

  lemma {:induction false} FindByKeyLast(rows: seq<Row>, r: Row)
    requires FindByKey(rows, r.key).None?
    ensures FindByKey(rows + [r], r.key) == Some(r)
  {
    if rows != [] {
      assert (rows + [r])[1..] == rows[1..] + [r];
      FindByKeyLast(rows[1..], r);
    }
  }

  /** A key or nonce in the table, as its column holds it, stops any further row with it, whichever branch
      the transfer takes. */
  lemma UsedTextRollsBack(c: Config, s: State, who: Caller, req: Request, id: string, t: Readings, i: nat)
    requires i < |s.rows|
    requires s.rows[i].key == Cut(req.key, KEY_CHARS) || s.rows[i].nonce == Cut(who.nonce, NONCE_CHARS)
    ensures Execute(c, s, who, req, id, t) == (s, DbError)
  {
    hide Decide, ColumnsFit, Cut;
  }

  /** A row that documents a request: the digests, the caller and the contents, each as its column holds it. */
  ghost predicate Documents(c: Config, row: Row, who: Caller, req: Request, id: string, at: int) {
    && row.id == id && row.createdAt == at
    && row.payloadHash == Hex(c.hash(req.canonical)) && row.signature == Base64(req.signature)
    && row.fromNumber == Cut(req.fromNumber, 30) && row.toNumber == Cut(req.toNumber, 30)
    && row.amount == req.amount && row.currency == Cut(req.currency, 3) && row.description == req.description
    && row.certSerial == Cut(who.certSerial, 128) && row.scope == Cut(who.scope, 50)
    && row.nonce == Cut(who.nonce, 255) && row.key == Cut(req.key, 255)
    && row.currentHash
       == Hex(c.hash(row.previousHash + row.payloadHash + row.signature + row.id + c.timeText(row.createdAt)))
  }

  lemma NewRowDocuments(c: Config, s: State, who: Caller, req: Request, id: string, at: int,
                        status: RowStatus, fromId: string, toId: string)
    ensures NewRow(c, s, who, req, id, at, status, fromId, toId).key == req.key
    ensures var row := Held(NewRow(c, s, who, req, id, at, status, fromId, toId));
            && Documents(c, row, who, req, id, at)
            && row.previousHash == (if s.lastHash == "" then "genesis" else s.lastHash)
            && row.status == status && row.fromId == fromId && row.toId == toId
  {
    hide Cut;
  }

  /** What the transaction leaves behind when it answers: one more row, which documents the request. */
  lemma ExecuteRecords(c: Config, s: State, who: Caller, req: Request, id: string, t: Readings)
    requires Execute(c, s, who, req, id, t).1 != DbError
    ensures var (s', o) := Execute(c, s, who, req, id, t);
            && |s'.rows| == |s.rows| + 1 && ValidText(req.key)
            && var last := s'.rows[|s.rows|];
               && s'.rows == s.rows + [last] && s'.lastHash == last.currentHash
               && Documents(c, last, who, req, id, t.stamp)
               && last.previousHash == (if s.lastHash == "" then "genesis" else s.lastHash)
               && last.status == (if o.Done? then Completed else Failed) && (o.Done? ==> o.id == id)
  {
    hide Decide, Cut, ValidText, Blank, BalancesFit, Distinct, Documents, NewRow, Held;
    match Decide(s, who, req, t)
    case Refuse(error, fromId, toId) =>
      NewRowDocuments(c, s, who, req, id, t.stamp, Failed, fromId, toId);
      KeyIsText(s.rows, NewRow(c, s, who, req, id, t.stamp, Failed, fromId, toId));
    case Abort =>
    case Proceed(from, to) =>
      NewRowDocuments(c, s, who, req, id, t.stamp, Completed, from.id, to.id);
      KeyIsText(s.rows, NewRow(c, s, who, req, id, t.stamp, Completed, from.id, to.id));
  }

  lemma KeyIsText(rows: seq<Row>, r: Row)
    ensures InsertOk(rows, r) ==> ValidText(r.key)
  {
  }

  lemma RowOfKeyRollsBack(c: Config, s: State, who: Caller, req: Request, id: string, t: Readings)
    requires FindByKey(s.rows, Cut(req.key, KEY_CHARS)).Some?
    ensures Execute(c, s, who, req, id, t) == (s, DbError)
  {
    hide Execute, Cut;
    var r := FindByKey(s.rows, Cut(req.key, KEY_CHARS)).value;
    var i :| 0 <= i < |s.rows| && s.rows[i] == r;
    UsedTextRollsBack(c, s, who, req, id, t, i);
  }

  /** In a ledger of held rows nothing is found under a key that its column would cut. */
  lemma CutKeyNotFound(s: State, key: string)
    requires Records(s) && Characters(key) > KEY_CHARS
    ensures FindByKey(s.rows, key).None?
  {
    hide Characters;
  }

  /** A transfer that answered has its key on record as the column holds it, with the matching status,
      unless the key is no text for the database: then the answer is the idempotency error. */
  lemma AnswerIsRecorded(c: Config, s: State, who: Caller, req: Request, id: string, t: Readings)
    requires Records(s) && Transfer(c, s, who, req, id, t).1 != DbError && (req.key == "" || ValidText(req.key))
    ensures var (s', o) := Transfer(c, s, who, req, id, t);
            var found := FindByKey(s'.rows, Cut(req.key, KEY_CHARS));
            && found.Some?
            && (o.Done? ==> found.value.status == Completed && found.value.id == o.id)
            && (o.Refused? ==> found.value.status == Failed)
  {
    hide Execute, Cut, ValidText, Characters, Records;
    var (s', o) := Transfer(c, s, who, req, id, t);
    var key := Cut(req.key, KEY_CHARS);
    if Recorded(s.rows, req.key).None? {
      ExecuteRecords(c, s, who, req, id, t);
      if FindByKey(s.rows, key).Some? {
        RowOfKeyRollsBack(c, s, who, req, id, t);
      }
      FindByKeyLast(s.rows, s'.rows[|s.rows|]);
    } else {
      if Characters(req.key) > KEY_CHARS {
        CutKeyNotFound(s, req.key);
      }
      HeldVerbatim(req.key, KEY_CHARS);
    }
  }

  /** What repeating a key brings once a transfer with it has answered `o`. */
  function Repeated(key: string, o: Outcome): Outcome {
    if key == "" || (ValidText(key) && Characters(key) > KEY_CHARS) then DbError
    else if o.Done? then o
    else Refused(IdempotencyFailed)
  }

  lemma RepeatAfter(c: Config, s: State, who: Caller, req: Request, id: string, t: Readings, s2: State,
                    who': Caller, req': Request, id': string, t': Readings)
    requires Records(s) && Records(s2) && Transfer(c, s, who, req, id, t).1 != DbError && req'.key == req.key
    requires Transfer(c, s, who, req, id, t).0.rows <= s2.rows
    ensures Transfer(c, s2, who', req', id', t') == (s2, Repeated(req.key, Transfer(c, s, who, req, id, t).1))
  {
    hide Execute, Cut, ValidText, Characters, Records;
    if req.key == "" || ValidText(req.key) {
      var s1 := Transfer(c, s, who, req, id, t).0;
      AnswerIsRecorded(c, s, who, req, id, t);
      FindByKeyKept(s1.rows, s2.rows, Cut(req.key, KEY_CHARS));
      RowOfKeyRollsBack(c, s2, who', req', id', t');
      if Characters(req.key) > KEY_CHARS {
        CutKeyNotFound(s2, req.key);
      } else if ValidText(req.key) {
        HeldVerbatim(req.key, KEY_CHARS);
      }
    }
  }

  /** The outcome of a key is final: after a transfer in any reachable ledger has answered, and after any
      further run, a transfer with the same key changes nothing. It repeats the id, or reports the idempotency
      error if the first was refused; only an empty key and one that its column cuts cannot be found again,
      and then the database refuses the repetition. */
  lemma KeyOutcomeIsFinal(c: Config, s0: State, before: seq<Op>, who: Caller, req: Request, id: string, t: Readings,
                          after: seq<Op>, who': Caller, req': Request, id': string, t': Readings)
    requires Initial(s0) && req'.key == req.key
    requires Transfer(c, Run(c, s0, before), who, req, id, t).1 != DbError && IsUuid(id)
    ensures var (s1, o1) := Transfer(c, Run(c, s0, before), who, req, id, t);
            var s2 := Run(c, s1, after);
            Transfer(c, s2, who', req', id', t') == (s2, Repeated(req.key, o1))
  {
    hide Run, Transfer, Initial, Tables, Records, Money, ChainTo, Step, Repeated;
    var s := Run(c, s0, before);
    var s1 := Transfer(c, s, who, req, id, t).0;
    RunKeepsInv(c, s0, before);
    TransferKeepsInv(c, s0, s, who, req, id, t);
    RunKeepsInvFrom(c, s0, s1, after);
    RowsOnlyGrow(c, s1, after);
    RepeatAfter(c, s, who, req, id, t, Run(c, s1, after), who', req', id', t');
  }

  lemma TransferKeepsInv(c: Config, s0: State, s: State, who: Caller, req: Request, id: string, t: Readings)
    requires Inv(c, s0, s) && IsUuid(id)
    ensures Inv(c, s0, Transfer(c, s, who, req, id, t).0)
  {
    hide Execute, Recorded, Inv;
    ExecuteKeepsInv(c, s0, s, who, req, id, t);
  }

  lemma {:induction false} RunKeepsInvFrom(c: Config, s0: State, s: State, ops: seq<Op>)
    requires Inv(c, s0, s)
    ensures Inv(c, s0, Run(c, s, ops))
  {
    hide Inv, Step;
    if ops != [] {
      RunKeepsInvFrom(c, s0, s, ops[..|ops| - 1]);
      StepKeepsInv(c, s0, Run(c, s, ops[..|ops| - 1]), ops[|ops| - 1]);
    }
  }

  /** Two calls race with one key or one nonce: whatever happens between them, once the first transaction has
      answered, the second rolls back. */
  lemma RacingCallsApplyOnce(c: Config, s: State, who: Caller, req: Request, id: string, t: Readings, ops: seq<Op>,
                             who': Caller, req': Request, id': string, t': Readings)
    requires Execute(c, s, who, req, id, t).1 != DbError
    requires req'.key == req.key || who'.nonce == who.nonce
    ensures var s2 := Run(c, Execute(c, s, who, req, id, t).0, ops);
            Execute(c, s2, who', req', id', t') == (s2, DbError)
  {
    hide Execute, Cut, Run, ValidText;
    var s1 := Execute(c, s, who, req, id, t).0;
    ExecuteRecords(c, s, who, req, id, t);
    RowsOnlyGrow(c, s1, ops);
    assert Run(c, s1, ops).rows[|s.rows|] == s1.rows[|s.rows|];
    UsedTextRollsBack(c, Run(c, s1, ops), who', req', id', t', |s.rows|);
  }

  /** A nonce moves money once: after a transfer that changed the bank and any further run, no transfer with
      its nonce changes the bank, whatever its key and contents. */
  lemma NonceMovesMoneyOnce(c: Config, s: State, who: Caller, req: Request, id: string, t: Readings, ops: seq<Op>,
                            who': Caller, req': Request, id': string, t': Readings)
    requires Transfer(c, s, who, req, id, t).0 != s && who'.nonce == who.nonce
    ensures var s2 := Run(c, Transfer(c, s, who, req, id, t).0, ops);
            Transfer(c, s2, who', req', id', t').0 == s2
  {
    hide Execute, Recorded, Run;
    if Execute(c, s, who, req, id, t).1 == DbError {
      DbErrorChangesNothing(c, s, who, req, id, t);
    } else {
      RacingCallsApplyOnce(c, s, who, req, id, t, ops, who', req', id', t');
    }
  }

  lemma DbErrorChangesNothing(c: Config, s: State, who: Caller, req: Request, id: string, t: Readings)
    requires Execute(c, s, who, req, id, t).1 == DbError
    ensures Execute(c, s, who, req, id, t).0 == s
  {
    hide Decide, InsertOk;
  }

  // ---- rollbacks ----

  predicate RowClash(rows: seq<Row>, who: Caller, req: Request, id: string) {
    exists i :: 0 <= i < |rows| &&
      (rows[i].id == id || rows[i].key == Cut(req.key, KEY_CHARS) || rows[i].nonce == Cut(who.nonce, NONCE_CHARS))
  }

  /** A text of the request or of its ticket that a column of `transactions` does not take. */
  predicate Unfit(who: Caller, req: Request) {
    || !Fits(req.fromNumber, 30) || !Fits(req.toNumber, 30) || !Fits(req.currency, 3) || !ValidText(req.description)
    || !Fits(who.certSerial, 128) || !Fits(who.scope, 50) || !Fits(who.nonce, 255) || !Fits(req.key, 255)
  }

  /** A transfer from an account to itself that an earlier check already refuses: `failTransfer` then
      records both ids, which the `diff_accounts` constraint forbids. */
  predicate SelfRefusedEarly(s: State, who: Caller, req: Request) {
    var from, to := LoadByNumber(s, req.fromNumber), LoadByNumber(s, req.toNumber);
    && from.Some? && to.Some?
    && from.value.account.id == to.value.account.id != ""
    && (|| from.value.account.userId != who.clientId || from.value.userStatus != "active"
        || from.value.account.status != "active" || to.value.account.status != "active")
  }

  /** The ids that a refusal records, and that the daily query never overflows: only a number that is no text
      for the database stops the checks. */
  lemma DecisionShape(s: State, who: Caller, req: Request, t: Readings)
    requires Records(s) && CapInv(s, t.day) && t.day <= t.bound
    ensures var d := Decide(s, who, req, t);
            && (d.Abort? ==> Unfit(who, req))
            && (d.Refuse? ==> (SelfRefusedEarly(s, who, req) <==> d.fromId == d.toId != "" && d.fromId != ""))
            && (d.Proceed? ==> !SelfRefusedEarly(s, who, req))
  {
    hide ValidText, Blank, Cut, CapInv, Records, LoadByNumber, Spent;
    NumbersAreText(who, req);
    var from := LoadByNumber(s, req.fromNumber);
    if from.Some? {
      var i :| 0 <= i < |s.accounts| && s.accounts[i] == from.value.account;
      DailyQuery(s, i, t);
    }
  }

  lemma NumbersAreText(who: Caller, req: Request)
    ensures !ValidText(req.fromNumber) || !ValidText(req.toNumber) ==> Unfit(who, req)
  {
  }

  lemma RowFits(c: Config, s: State, who: Caller, req: Request, id: string, at: int,
                status: RowStatus, fromId: string, toId: string)
    ensures InsertOk(s.rows, NewRow(c, s, who, req, id, at, status, fromId, toId))
       <==> && req.amount > 0 && !RowClash(s.rows, who, req, id) && !Unfit(who, req)
            && (fromId == "" || toId == "" || fromId != toId)
  {
    hide Fits, ValidText, Cut;
  }

  lemma MoveFits(s: State, f: nat, g: nat, amount: int)
    requires UniqueIds(s.accounts) && BalancesFit(s.accounts) && Room(s)
    requires f < |s.accounts| && g < |s.accounts| && f != g && 0 < amount <= s.accounts[f].balance
    ensures var debited := Debit(s.accounts, s.accounts[f].id, amount);
            BalancesFit(debited) && BalancesFit(Credit(debited, s.accounts[g].id, amount))
  {
    UniqueIsOnly(s.accounts, f);
    UniqueIsOnly(s.accounts, g);
    BalancesBound(s, f, g);
  }

  /** In a sound state, so in every reachable one, the database rolls a transfer back exactly when its amount
      is not positive, its id, key or nonce is taken, a text does not fit its column, or it is a self-transfer
      refused early: never for a balance or an overflow. */
  lemma RollbackCauses(c: Config, s: State, who: Caller, req: Request, id: string, t: Readings)
    requires Sound(s, t.day) && t.day <= t.bound
    ensures Execute(c, s, who, req, id, t).1 == DbError
       <==> || req.amount <= 0 || RowClash(s.rows, who, req, id) || Unfit(who, req)
            || SelfRefusedEarly(s, who, req)
  {
    hide Decide, SelfRefusedEarly, InsertOk, RowClash, Unfit;
    DecisionShape(s, who, req, t);
    match Decide(s, who, req, t)
    case Abort =>
    case Refuse(error, fromId, toId) => RowFits(c, s, who, req, id, t.stamp, Failed, fromId, toId);
    case Proceed(from, to) =>
      RowFits(c, s, who, req, id, t.stamp, Completed, from.id, to.id);
      if req.amount > 0 {
        var f :| 0 <= f < |s.accounts| && s.accounts[f] == from;
        var g :| 0 <= g < |s.accounts| && s.accounts[g] == to;
        MoveFits(s, f, g, req.amount);
      }
  }

  /** When a transfer goes through, in terms of true sums and calendar days. */
  predicate Acceptable(s: State, who: Caller, req: Request, id: string, day: int) {
    var from, to := LoadByNumber(s, req.fromNumber), LoadByNumber(s, req.toNumber);
    && from.Some? && to.Some?
    && var f, g := from.value.account, to.value.account;
       && f.userId == who.clientId && f.id != g.id
       && from.value.userStatus == f.status == g.status == "active"
       && f.currency == g.currency == req.currency
       && 0 < req.amount <= f.balance
       && PaidOn(s.rows, f.id, day) + req.amount <= f.dailyLimit
       && !RowClash(s.rows, who, req, id) && !Unfit(who, req)
  }

  /** The accepting decision, free of wrap-around, of aborts and of the order of the checks. */
  lemma ProceedExactly(s: State, who: Caller, req: Request, id: string, t: Readings)
    requires Sound(s, t.day) && t.day <= t.bound
    requires 0 < req.amount && !RowClash(s.rows, who, req, id) && !Unfit(who, req)
    ensures Decide(s, who, req, t).Proceed? <==> Acceptable(s, who, req, id, t.day / (24 * 60 * 60 * 1_000_000))
  {
    hide RowClash, Spent, CapInv, Room, Records, ValidText, Blank, Cut, LoadByNumber;
    var from, to := LoadByNumber(s, req.fromNumber), LoadByNumber(s, req.toNumber);
    if from.Some? && to.Some? && from.value.account.id != to.value.account.id {
      var f :| 0 <= f < |s.accounts| && s.accounts[f] == from.value.account;
      var g :| 0 <= g < |s.accounts| && s.accounts[g] == to.value.account;
      DailyQuery(s, f, t);
      if req.amount <= s.accounts[f].balance {
        NoOverflow(s, t, f, g, req.amount);
      }
    }
  }

  /** In a sound state a transfer completes exactly when it is acceptable on the day of its first
      clock reading. */
  lemma CompletesExactly(c: Config, s: State, who: Caller, req: Request, id: string, t: Readings)
    requires Sound(s, t.day) && t.day <= t.bound
    ensures Execute(c, s, who, req, id, t).1.Done? <==> Acceptable(s, who, req, id, t.day / (24 * 60 * 60 * 1_000_000))
  {
    hide Decide, Acceptable, SelfRefusedEarly, RowClash, Unfit;
    RollbackCauses(c, s, who, req, id, t);
    if 0 < req.amount && !RowClash(s.rows, who, req, id) && !Unfit(who, req) {
      ProceedExactly(s, who, req, id, t);
      DecisionShape(s, who, req, t);
    } else {
      NotAcceptable(s, who, req, id, t.day / (24 * 60 * 60 * 1_000_000));
    }
  }

  /** What a refusal says about the request, in whatever order the checks are made. */
  predicate Cause(s: State, who: Caller, req: Request, day: int, error: BankError) {
    var from, to := LoadByNumber(s, req.fromNumber), LoadByNumber(s, req.toNumber);
    if from.None? || to.None? then error == AccountNotFound
    else
      var f, g := from.value.account, to.value.account;
      match error
      case Forbidden => f.userId != who.clientId
      case AccountNotActive => !(from.value.userStatus == f.status == g.status == "active")
      case BadRequest => f.id == g.id || !(f.currency == g.currency == req.currency)
      case InsufficientFunds => f.balance < req.amount
      case DailyLimitExceeded => PaidOn(s.rows, f.id, day) + req.amount > f.dailyLimit
      case _ => false
  }

  /** The place of an error in the order of the checks. */
  function Rank(error: BankError): nat {
    match error
    case AccountNotFound => 0
    case Forbidden => 1
    case AccountNotActive => 2
    case BadRequest => 3
    case InsufficientFunds => 4
    case DailyLimitExceeded => 5
    case _ => 6
  }

  /** The error that a refusal names is the first in that order for which there is cause. */
  lemma RefusalIsFirst(c: Config, s: State, who: Caller, req: Request, id: string, t: Readings, error: BankError)
    requires Sound(s, t.day) && t.day <= t.bound && Execute(c, s, who, req, id, t).1.Refused?
    requires Rank(error) < Rank(Execute(c, s, who, req, id, t).1.error)
    ensures !Cause(s, who, req, t.day / (24 * 60 * 60 * 1_000_000), error)
  {
    hide RowClash, Spent, CapInv, Room, Records, InsertOk, NewRow, ValidText, Held, LoadByNumber, PaidOn;
    var from, to := LoadByNumber(s, req.fromNumber), LoadByNumber(s, req.toNumber);
  }

  /** Which accounts a failed row names: the first when it was found, and the second too unless it was not found
      or is the first again. */
  lemma RefusalNames(c: Config, s: State, who: Caller, req: Request, id: string, t: Readings)
    requires Execute(c, s, who, req, id, t).1.Refused?
    ensures var row := Execute(c, s, who, req, id, t).0.rows[|s.rows|];
            var from, to := LoadByNumber(s, req.fromNumber), LoadByNumber(s, req.toNumber);
            && row.fromId == (if from.None? then "" else from.value.account.id)
            && row.toId == (if from.None? || to.None? || to.value.account.id == row.fromId then ""
                            else to.value.account.id)
  {
    hide ValidText, LoadByNumber, Spent, Held, ColumnsFit, Distinct;
    var row := Execute(c, s, who, req, id, t).0.rows[|s.rows|];
  }

  /** A refusal is truthful, moves no money and leaves one failed row. */
  lemma RefusalIsTruthful(c: Config, s: State, who: Caller, req: Request, id: string, t: Readings)
    requires Sound(s, t.day) && t.day <= t.bound && Execute(c, s, who, req, id, t).1.Refused?
    ensures Cause(s, who, req, t.day / (24 * 60 * 60 * 1_000_000), Execute(c, s, who, req, id, t).1.error)
    ensures var s' := Execute(c, s, who, req, id, t).0;
            && s'.accounts == s.accounts && |s'.rows| == |s.rows| + 1 && s'.rows[..|s.rows|] == s.rows
            && s'.rows[|s.rows|].status == Failed
  {
    hide RowClash, Spent, CapInv, Room, Records, InsertOk, NewRow, ValidText, Held, LoadByNumber;
    NotCompletedShape(c, s, who, req, id, t);
    var from, to := LoadByNumber(s, req.fromNumber), LoadByNumber(s, req.toNumber);
    if from.Some? && to.Some? && from.value.account.id != to.value.account.id {
      var f :| 0 <= f < |s.accounts| && s.accounts[f] == from.value.account;
      var g :| 0 <= g < |s.accounts| && s.accounts[g] == to.value.account;
      DailyQuery(s, f, t);
      if req.amount <= s.accounts[f].balance {
        NoOverflow(s, t, f, g, req.amount);
      }
    }
  }

  lemma NotAcceptable(s: State, who: Caller, req: Request, id: string, day: int)
    requires req.amount <= 0 || RowClash(s.rows, who, req, id) || Unfit(who, req)
    ensures !Acceptable(s, who, req, id, day)
  {
  }
}
