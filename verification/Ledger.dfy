/** The bank's tables and the two transactions that change them, `CreateUser` and the transfer, as
    functions from state to state. A committed SQL transaction is one step; a transaction that the
    database refuses (a constraint, a BIGINT overflow) rolls back and changes nothing. */
module Ledger {
  import opened Wrappers
  import opened Encoding
  import opened Integers
  import opened LedgerChain
  import opened Columns
  import Text

  /** Clock readings are whole microseconds, the resolution of TIMESTAMPTZ. */
  const DAY: int := 86_400_000_000

  const OPENING: int := 50_000_000
  const ACCOUNT_NUMBERS: int := 10_000_000_000

  /** `t.UTC().Truncate(24h)`. */
  function StartOfDay(t: int): int {
    t - t % DAY
  }

  datatype User = User(id: string, email: string, fullName: string, status: string)

  datatype Account = Account(
    id: string, userId: string, number: string, balance: int, dailyLimit: int64,
    currency: string, status: string)

  datatype State = State(users: seq<User>, accounts: seq<Account>, rows: seq<Row>, lastHash: string)

  datatype Caller = Caller(clientId: string, certSerial: string, scope: string, nonce: string)

  datatype Request = Request(
    fromNumber: string, toNumber: string, amount: int64, currency: string, description: string,
    key: string, canonical: string, signature: seq<byte>)

  /** The three clock readings of one transfer, in the order in which they are taken. */
  datatype Readings = Readings(day: int, bound: int, stamp: int)

  datatype BankError =
    | InvalidInput | UserExists | AccountNotFound | Forbidden | AccountNotActive | BadRequest
    | InsufficientFunds | DailyLimitExceeded | IdempotencyFailed

  /** `DbError` stands for an error of the database: the transaction was rolled back. */
  datatype Outcome = Done(id: string) | Refused(error: BankError) | DbError

  // ---- queries ----

  function FindUser(users: seq<User>, id: string): (r: Option<User>)
    ensures r.Some? ==> r.value in users && r.value.id == id
    ensures r.None? ==> forall u :: u in users ==> u.id != id
  {
    if users == [] then None
    else if users[0].id == id then Some(users[0])
    else FindUser(users[1..], id)
  }

  function FindAccount(accounts: seq<Account>, number: string): (r: Option<Account>)
    ensures r.Some? ==> r.value in accounts && r.value.number == number
    ensures r.None? ==> forall a :: a in accounts ==> a.number != number
  {
    if accounts == [] then None
    else if accounts[0].number == number then Some(accounts[0])
    else FindAccount(accounts[1..], number)
  }

  datatype Loaded = Loaded(account: Account, userStatus: string)

  /** The account row joined with its owner's status. */
  function LoadByNumber(s: State, number: string): (r: Option<Loaded>)
    ensures r.Some? ==> r.value.account in s.accounts && r.value.account.number == number
  {
    match FindAccount(s.accounts, number)
    case None => None
    case Some(a) =>
      match FindUser(s.users, a.userId)
      case None => None
      case Some(u) => Some(Loaded(a, u.status))
  }

  function FindByKey(rows: seq<Row>, key: string): (r: Option<Row>)
    ensures r.Some? ==> r.value in rows && r.value.key == key
    ensures r.None? ==> forall x :: x in rows ==> x.key != key
  {
    if rows == [] then None
    else if rows[0].key == key then Some(rows[0])
    else FindByKey(rows[1..], key)
  }

  predicate Spends(r: Row, id: string, since: int, until: int) {
    r.fromId == id && r.status == Completed && since <= r.createdAt <= until
  }

  /** `SumCompletedTransfersSince`. */
  function Spent(rows: seq<Row>, id: string, since: int, until: int): int {
    if rows == [] then 0
    else
      var last := rows[|rows| - 1];
      Spent(rows[..|rows| - 1], id, since, until) + if Spends(last, id, since, until) then last.amount else 0
  }

  // ---- updates ----

  /** `UPDATE accounts SET balance = balance + delta WHERE id = id`. */
  function AddTo(accounts: seq<Account>, id: string, delta: int): (r: seq<Account>)
    ensures |r| == |accounts|
    ensures forall i :: 0 <= i < |r| ==>
      r[i] == accounts[i].(balance := accounts[i].balance + if accounts[i].id == id then delta else 0)
  {
    seq(|accounts|, i requires 0 <= i < |accounts| =>
      if accounts[i].id == id then accounts[i].(balance := accounts[i].balance + delta) else accounts[i])
  }

  function Debit(accounts: seq<Account>, id: string, amount: int): seq<Account> {
    AddTo(accounts, id, -amount)
  }

  function Credit(accounts: seq<Account>, id: string, amount: int): seq<Account> {
    AddTo(accounts, id, amount)
  }

  /** CHECK (balance >= 0) on a BIGINT column. */
  predicate BalancesFit(accounts: seq<Account>) {
    forall i :: 0 <= i < |accounts| ==> 0 <= accounts[i].balance <= INT64_MAX
  }

  const NAME_CHARS := 255
  const NUMBER_CHARS := 30
  const CURRENCY_CHARS := 3
  const SERIAL_CHARS := 128
  const SCOPE_CHARS := 50
  const NONCE_CHARS := 255
  const KEY_CHARS := 255

  /** The declared types of the text columns of `transactions` that a request fills. */
  predicate ColumnsFit(r: Row) {
    && Fits(r.fromNumber, NUMBER_CHARS) && Fits(r.toNumber, NUMBER_CHARS) && Fits(r.currency, CURRENCY_CHARS)
    && ValidText(r.description)
    && Fits(r.certSerial, SERIAL_CHARS) && Fits(r.scope, SCOPE_CHARS)
    && Fits(r.nonce, NONCE_CHARS) && Fits(r.key, KEY_CHARS)
  }

  /** The row as its columns hold it. */
  function Held(r: Row): (h: Row)
    ensures h.id == r.id && h.fromId == r.fromId && h.toId == r.toId && h.amount == r.amount && h.status == r.status
    ensures h.payloadHash == r.payloadHash && h.signature == r.signature && h.createdAt == r.createdAt
    ensures h.previousHash == r.previousHash && h.currentHash == r.currentHash
  {
    r.(fromNumber := Cut(r.fromNumber, NUMBER_CHARS), toNumber := Cut(r.toNumber, NUMBER_CHARS),
       currency := Cut(r.currency, CURRENCY_CHARS), certSerial := Cut(r.certSerial, SERIAL_CHARS),
       scope := Cut(r.scope, SCOPE_CHARS), nonce := Cut(r.nonce, NONCE_CHARS), key := Cut(r.key, KEY_CHARS))
  }

  /** The unique columns, compared as held. */
  predicate Distinct(rows: seq<Row>, h: Row) {
    forall i :: 0 <= i < |rows| ==> rows[i].id != h.id && rows[i].key != h.key && rows[i].nonce != h.nonce
  }

  /** The constraints of the `transactions` table. */
  predicate InsertOk(rows: seq<Row>, r: Row) {
    && r.amount > 0
    && (r.fromId == "" || r.toId == "" || r.fromId != r.toId)
    && ColumnsFit(r)
    && Distinct(rows, Held(r))
  }

  function NewRow(c: Config, s: State, who: Caller, req: Request, id: string, at: int,
                  status: RowStatus, fromId: string, toId: string): Row
  {
    var previous := if s.lastHash == "" then GENESIS else s.lastHash;
    var payload := PayloadHash(c, req.canonical);
    var signature := Base64(req.signature);
    Row(id, fromId, toId, req.fromNumber, req.toNumber, req.amount, req.currency, status,
        req.description, payload, signature, who.certSerial, who.scope, who.nonce, req.key,
        previous, ChainHash(c, previous, payload, signature, id, at), at)
  }

  /** `InsertTransaction` or `InsertFailedTransaction`, then `UpdateLedger`. */
  function Append(s: State, r: Row): State {
    s.(rows := s.rows + [Held(r)], lastHash := r.currentHash)
  }

  // ---- the transfer ----

  datatype Decision =
    | Refuse(error: BankError, fromId: string, toId: string)
    | Abort
    | Proceed(from: Account, to: Account)

  /** The checks of `executeTransfer`, in order. */
  function Decide(s: State, who: Caller, req: Request, t: Readings): (d: Decision)
    ensures d.Proceed? ==> d.from in s.accounts && d.to in s.accounts && d.from.id != d.to.id
    ensures d.Proceed? ==> req.amount <= d.from.balance
    ensures d.Proceed? ==>
      Wrap64(Spent(s.rows, d.from.id, StartOfDay(t.day), t.bound) + req.amount) <= d.from.dailyLimit
  {
    if !ValidText(req.fromNumber) then Abort
    else match LoadByNumber(s, req.fromNumber)
    case None => Refuse(AccountNotFound, "", "")
    case Some(from) =>
      if !ValidText(req.toNumber) then Abort
      else match LoadByNumber(s, req.toNumber)
      case None => Refuse(AccountNotFound, from.account.id, "")
      case Some(to) =>
        var f, g := from.account, to.account;
        if f.userId != who.clientId then Refuse(Forbidden, f.id, g.id)
        else if from.userStatus != "active" || f.status != "active" || g.status != "active" then
          Refuse(AccountNotActive, f.id, g.id)
        else if f.id == g.id then Refuse(BadRequest, f.id, "")
        else if f.currency != req.currency || g.currency != req.currency then Refuse(BadRequest, f.id, g.id)
        else if f.balance < req.amount then Refuse(InsufficientFunds, f.id, g.id)
        else
          var spent := Spent(s.rows, f.id, StartOfDay(t.day), t.bound);
          if !(INT64_MIN <= spent <= INT64_MAX) then Abort
          else if Wrap64(spent + req.amount) > f.dailyLimit then Refuse(DailyLimitExceeded, f.id, g.id)
          else Proceed(f, g)
  }

  function FailTransfer(c: Config, s: State, who: Caller, req: Request, id: string, at: int,
                        error: BankError, fromId: string, toId: string): (State, Outcome)
  {
    var r := NewRow(c, s, who, req, id, at, Failed, fromId, toId);
    if InsertOk(s.rows, r) then (Append(s, r), Refused(error)) else (s, DbError)
  }

  /** Debit, credit, insert and `UpdateLedger`, or a rollback. */
  function Complete(c: Config, s: State, who: Caller, req: Request, id: string, at: int,
                    from: Account, to: Account): (State, Outcome)
  {
    var r := NewRow(c, s, who, req, id, at, Completed, from.id, to.id);
    var debited := Debit(s.accounts, from.id, req.amount);
    var moved := Credit(debited, to.id, req.amount);
    if BalancesFit(debited) && BalancesFit(moved) && InsertOk(s.rows, r)
    then (Append(s.(accounts := moved), r), Done(id))
    else (s, DbError)
  }

  /** The serializable transaction of a transfer, from first lock to commit or rollback. */
  function Execute(c: Config, s: State, who: Caller, req: Request, id: string, t: Readings): (State, Outcome) {
    match Decide(s, who, req, t)
    case Refuse(error, fromId, toId) => FailTransfer(c, s, who, req, id, t.stamp, error, fromId, toId)
    case Abort => (s, DbError)
    case Proceed(from, to) => Complete(c, s, who, req, id, t.stamp, from, to)
  }

  /** `findIdempotentTransaction`: the answer already on record for a key, if any. The empty key is
      never looked up, and a lookup that the database refuses counts as an idempotency failure. */
  function Recorded(rows: seq<Row>, key: string): Option<Outcome> {
    if key == "" then None
    else if !ValidText(key) then Some(Refused(IdempotencyFailed))
    else
      match FindByKey(rows, key)
      case None => None
      case Some(r) => Some(if r.status == Completed then Done(r.id) else Refused(IdempotencyFailed))
  }

  function Transfer(c: Config, s: State, who: Caller, req: Request, id: string, t: Readings): (State, Outcome) {
    match Recorded(s.rows, req.key)
    case Some(answer) => (s, answer)
    case None => Execute(c, s, who, req, id, t)
  }

  // ---- users ----

  /** The ten-digit part of an account number: 48 bits of the hash of the user id, modulo 10^10. */
  function NumberIndex(c: Config, userId: string): (n: int)
    ensures 0 <= n < ACCOUNT_NUMBERS
  {
    var d := c.hash(userId);
    (d[0] * 0x100_0000_0000 + d[1] * 0x1_0000_0000 + d[2] * 0x100_0000 + d[3] * 0x1_0000 + d[4] * 0x100 + d[5])
    % ACCOUNT_NUMBERS
  }

  function Numbered(n: nat): string {
    "10" + Padded(n, 10)
  }

  function AccountNumber(c: Config, userId: string): string {
    Numbered(NumberIndex(c, userId))
  }

  /** What `InsertUser` fails on; trimmed texts have no blanks to cut. */
  predicate UserRowRefused(c: Config, users: seq<User>, uid: string, mail: string, name: string) {
    || c.uuid(uid).None? || !Fits(mail, NAME_CHARS) || !Fits(name, NAME_CHARS)
    || exists i :: 0 <= i < |users| && (users[i].id == c.uuid(uid).value || users[i].email == mail)
  }

  function CreateUser(c: Config, s: State, userId: string, email: string, fullName: string, accountId: string)
    : (State, Outcome)
  {
    var uid, mail, name := Text.Trim(userId), Text.Trim(email), Text.Trim(fullName);
    if uid == "" || mail == "" || name == "" then (s, Refused(InvalidInput))
    else if UserRowRefused(c, s.users, uid, mail, name) then (s, Refused(UserExists))
    else
      var id, number := c.uuid(uid).value, AccountNumber(c, uid);
      if exists i :: 0 <= i < |s.accounts| && (s.accounts[i].id == accountId || s.accounts[i].number == number) then
        (s, DbError)
      else
        (s.(users := s.users + [User(id, mail, name, "active")],
            accounts := s.accounts + [Account(accountId, id, number, OPENING, OPENING, "VND", "active")]),
         Done(uid))
  }

  // ---- runs ----

  /** One committed transaction. The idempotency lookup of `Transfer` reads outside the transaction, so
      `ExecuteOp` may follow it at any later state: runs cover every interleaving of concurrent calls. */
  datatype Op =
    | CreateUserOp(userId: string, email: string, fullName: string, draw: Random16, t: Readings)
    | ExecuteOp(who: Caller, req: Request, draw: Random16, t: Readings)

  function Step(c: Config, s: State, op: Op): State {
    match op
    case CreateUserOp(userId, email, fullName, draw, t) => CreateUser(c, s, userId, email, fullName, NewUuid(draw)).0
    case ExecuteOp(who, req, draw, t) => Execute(c, s, who, req, NewUuid(draw), t).0
  }

  function Run(c: Config, s: State, ops: seq<Op>): State {
    if ops == [] then s else Step(c, Run(c, s, ops[..|ops| - 1]), ops[|ops| - 1])
  }

  /** The clock never goes back, within a transaction or from one to the next: every transfer locks and
      updates the one row of `ledger_state`, so of two that overlap the database commits at most one, and the
      readings of a committed transfer come after the commit of the one before it. The readings of
      `CreateUserOp` only place it between the others. */
  ghost predicate ClockOk(ops: seq<Op>) {
    && (forall i :: 0 <= i < |ops| ==> ops[i].t.day <= ops[i].t.bound <= ops[i].t.stamp)
    && forall i :: 0 < i < |ops| ==> ops[i - 1].t.stamp <= ops[i].t.day
  }

  ghost predicate UniqueIds(accounts: seq<Account>) {
    forall i, j :: 0 <= i < j < |accounts| ==> accounts[i].id != accounts[j].id
  }

  ghost predicate UniqueNumbers(accounts: seq<Account>) {
    forall i, j :: 0 <= i < j < |accounts| ==> accounts[i].number != accounts[j].number
  }

  ghost predicate UniqueUsers(users: seq<User>) {
    forall i, j :: 0 <= i < j < |users| ==> users[i].id != users[j].id && users[i].email != users[j].email
  }

  /** A freshly migrated database, possibly with seeded users and accounts. */
  ghost predicate Initial(s: State) {
    && s.rows == [] && s.lastHash == GENESIS
    && UniqueUsers(s.users) && UniqueIds(s.accounts) && UniqueNumbers(s.accounts) && BalancesFit(s.accounts)
  }
}
