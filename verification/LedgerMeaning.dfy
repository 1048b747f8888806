/** What the words of the ledger's theorems mean in terms of the tables and of the requests: the history of rows is
    a history of requests, accounts are found by their number, users are created as asked. */
module LedgerMeaning {
  import opened Wrappers
  import opened Encoding
  import opened Integers
  import opened LedgerChain
  import opened Ledger
  import opened LedgerRuns
  import opened LedgerLimits
  import opened LedgerHistory
  import opened Columns
  import Text

  // ---- rows are requests ----

  /** A transfer that the bank answered, with the identifier and the time it was given. */
  datatype Answered = Answered(who: Caller, req: Request, id: string, at: int, outcome: Outcome)

  /** The answered transfers of a run, in order. */
  function AnsweredIn(c: Config, s: State, ops: seq<Op>): seq<Answered> {
    if ops == [] then []
    else
      var front, op := ops[..|ops| - 1], ops[|ops| - 1];
      if op.CreateUserOp? then AnsweredIn(c, s, front)
      else
        var o := Execute(c, Run(c, s, front), op.who, op.req, NewUuid(op.draw), op.t).1;
        AnsweredIn(c, s, front)
        + if o == DbError then [] else [Answered(op.who, op.req, NewUuid(op.draw), op.t.stamp, o)]
  }

  ghost predicate RowOf(c: Config, row: Row, a: Answered) {
    Documents(c, row, a.who, a.req, a.id, a.at) && row.status == if a.outcome.Done? then Completed else Failed
  }

  /** The ledger after a run holds one row for each answered transfer, which documents it, and no other. */
  lemma {:induction false} RowsAreRequests(c: Config, s: State, ops: seq<Op>)
    requires s.rows == []
    ensures var rows, asked := Run(c, s, ops).rows, AnsweredIn(c, s, ops);
            |rows| == |asked| && forall i :: 0 <= i < |rows| ==> RowOf(c, rows[i], asked[i])
  {
    hide Execute, Documents, CreateUser, NewUuid;
    if ops != [] {
      var front, op := ops[..|ops| - 1], ops[|ops| - 1];
      RowsAreRequests(c, s, front);
      var mid := Run(c, s, front);
      match op
      case CreateUserOp(userId, email, fullName, draw, t) =>
        CreateUserKeepsRows(c, mid, userId, email, fullName, NewUuid(draw));
      case ExecuteOp(who, req, draw, t) =>
        if Execute(c, mid, who, req, NewUuid(draw), t).1 == DbError {
          DbErrorChangesNothing(c, mid, who, req, NewUuid(draw), t);
        } else {
          ExecuteRecords(c, mid, who, req, NewUuid(draw), t);
        }
    }
  }

  /** The same signature, identifier and time, and canonical payloads with one digest. */
  ghost predicate SameAsked(c: Config, a: Answered, b: Answered) {
    && a.req.signature == b.req.signature && a.id == b.id && c.timeText(a.at) == c.timeText(b.at)
    && c.hash(a.req.canonical) == c.hash(b.req.canonical)
  }

  lemma SameRowsSameAsked(c: Config, x: Row, y: Row, a: Answered, b: Answered)
    requires RowOf(c, x, a) && RowOf(c, y, b) && SameCovered(c, x, y)
    ensures SameAsked(c, a, b)
  {
    hide Cut;
    SameCoveredSameRequest(c, a.req, b.req, x, y);
  }

  /** The head fixes what was asked: two banks whose runs end in one head have answered transfers with the same
      signatures, identifiers and times in the same order, over canonical payloads with the same digests, or two
      recorded hash inputs collide. */
  lemma HeadFixesRequests(c: Config, s: State, ops: seq<Op>, s': State, ops': seq<Op>)
    requires Initial(s) && Initial(s')
    requires Run(c, s, ops).lastHash == Run(c, s', ops').lastHash
    ensures var asked, asked' := AnsweredIn(c, s, ops), AnsweredIn(c, s', ops');
            || Colliding(c, Run(c, s, ops).rows, Run(c, s', ops').rows)
            || (|asked| == |asked'| && forall i :: 0 <= i < |asked| ==> SameAsked(c, asked[i], asked'[i]))
  {
    hide Run, AnsweredIn, Colliding, SameCovered, SameAsked, RowOf;
    HistoryFixedByHead(c, s, ops, s', ops');
    RowsAreRequests(c, s, ops);
    RowsAreRequests(c, s', ops');
    var xs, ys := Run(c, s, ops).rows, Run(c, s', ops').rows;
    var asked, asked' := AnsweredIn(c, s, ops), AnsweredIn(c, s', ops');
    if !Colliding(c, xs, ys) {
      forall i | 0 <= i < |asked| ensures SameAsked(c, asked[i], asked'[i]) {
        SameRowsSameAsked(c, xs[i], ys[i], asked[i], asked'[i]);
      }
    }
  }

  // ---- money ----

  /** A row changes what an account has by its amount when it is completed and names the account, and not
      otherwise. */
  lemma NetCounts(rows: seq<Row>, r: Row, id: string)
    requires r.fromId != r.toId
    ensures Net([], id) == 0
    ensures r.status == Completed && r.toId == id ==> Net(rows + [r], id) == Net(rows, id) + r.amount
    ensures r.status == Completed && r.fromId == id ==> Net(rows + [r], id) == Net(rows, id) - r.amount
    ensures r.status == Failed || (r.fromId != id && r.toId != id) ==> Net(rows + [r], id) == Net(rows, id)
  {
    NetAppend(rows, r, id);
  }

  lemma TotalCounts(accounts: seq<Account>, a: Account)
    ensures Total([]) == 0 && Total(accounts + [a]) == Total(accounts) + a.balance
  {
    TotalAppend(accounts, a);
  }

  /** A completed transfer takes the amount from the account of the one number and adds it to that of the other. No
      other balance changes, and the row names both. */
  lemma CompletedMoves(c: Config, s: State, who: Caller, req: Request, id: string, t: Readings) returns (f: nat, g: nat)
    requires UniqueIds(s.accounts) && Execute(c, s, who, req, id, t).1.Done?
    ensures f < |s.accounts| && g < |s.accounts| && f != g && req.amount <= s.accounts[f].balance
    ensures s.accounts[f].number == req.fromNumber && s.accounts[g].number == req.toNumber
    ensures var (s', o) := Execute(c, s, who, req, id, t);
            && |s'.accounts| == |s.accounts| && s'.users == s.users
            && (forall i :: 0 <= i < |s.accounts| ==>
                  s'.accounts[i] == s.accounts[i].(balance := s.accounts[i].balance
                    - (if i == f then req.amount else 0) + (if i == g then req.amount else 0)))
            && |s'.rows| == |s.rows| + 1
            && s'.rows[|s.rows|].fromId == s.accounts[f].id && s'.rows[|s.rows|].toId == s.accounts[g].id
  {
    hide Decide, Spent, NewRow, Held, InsertOk, BalancesFit, Documents, Execute;
    DoneProceeds(c, s, who, req, id, t);
    DecidedByNumber(s, who, req, t);
    var d := Decide(s, who, req, t);
    NewRowDocuments(c, s, who, req, id, t.stamp, Completed, d.from.id, d.to.id);
    f :| 0 <= f < |s.accounts| && s.accounts[f] == d.from;
    g :| 0 <= g < |s.accounts| && s.accounts[g] == d.to;
    UniqueIsOnly(s.accounts, f);
    UniqueIsOnly(s.accounts, g);
  }

  lemma DecidedByNumber(s: State, who: Caller, req: Request, t: Readings)
    requires Decide(s, who, req, t).Proceed?
    ensures Decide(s, who, req, t).from.number == req.fromNumber && Decide(s, who, req, t).to.number == req.toNumber
  {
    hide ValidText, Spent;
  }

  /** A transfer that would take the day's payments over the limit does not complete, and moves no money. */
  lemma OverLimitRefused(c: Config, s: State, who: Caller, req: Request, id: string, t: Readings, i: nat)
    requires Sound(s, t.day) && t.day <= t.bound && i < |s.accounts|
    requires UniqueNumbers(s.accounts) && s.accounts[i].number == req.fromNumber
    requires var a := s.accounts[i];
             PaidOn(s.rows, a.id, t.day / (24 * 60 * 60 * 1_000_000)) + req.amount > a.dailyLimit
    ensures !Execute(c, s, who, req, id, t).1.Done? && Execute(c, s, who, req, id, t).0.accounts == s.accounts
  {
    hide Execute, Sound, PaidOn, Unfit, RowClash;
    CompletesExactly(c, s, who, req, id, t);
    var from := LoadByNumber(s, req.fromNumber);
    if from.Some? {
      var k :| 0 <= k < |s.accounts| && s.accounts[k] == from.value.account;
      assert k == i by { OneNumber(s.accounts, i, k); }
    }
    NotCompletedShape(c, s, who, req, id, t);
  }

  lemma OneNumber(accounts: seq<Account>, i: nat, k: nat)
    requires UniqueNumbers(accounts) && i < |accounts| && k < |accounts| && accounts[i].number == accounts[k].number
    ensures i == k
  {
  }

  // ---- finding accounts ----

  /** The rows of an account and of its owner. */
  predicate Joins(s: State, number: string, i: nat, u: nat) {
    && i < |s.accounts| && u < |s.users|
    && s.accounts[i].number == number && s.users[u].id == s.accounts[i].userId
  }

  /** With unique numbers and user ids an account is found exactly when account and owner are there, with the
      columns of the one and the status of the other. */
  lemma LoadExactly(s: State, number: string, i: nat, u: nat)
    requires UniqueNumbers(s.accounts) && UniqueUsers(s.users) && Joins(s, number, i, u)
    ensures LoadByNumber(s, number) == Some(Loaded(s.accounts[i], s.users[u].status))
  {
    var a := FindAccount(s.accounts, number).value;
    var k :| 0 <= k < |s.accounts| && s.accounts[k] == a;
    OneNumber(s.accounts, i, k);
    var b := FindUser(s.users, a.userId).value;
    var v :| 0 <= v < |s.users| && s.users[v] == b;
    assert v == u by { OneUser(s.users, u, v); }
  }

  lemma OneUser(users: seq<User>, u: nat, v: nat)
    requires UniqueUsers(users) && u < |users| && v < |users| && users[u].id == users[v].id
    ensures u == v
  {
  }

  lemma LoadNone(s: State, number: string)
    requires forall i, u :: !Joins(s, number, i, u)
    ensures LoadByNumber(s, number).None?
  {
    var l := LoadByNumber(s, number);
    if l.Some? {
      var i :| 0 <= i < |s.accounts| && s.accounts[i] == l.value.account;
      var b := FindUser(s.users, l.value.account.userId).value;
      var u :| 0 <= u < |s.users| && s.users[u] == b;
      assert Joins(s, number, i, u);
    }
  }

  // ---- creating users ----

  /** The number that the first six bytes of a digest write in base 256. */
  function FortyEightBits(d: Digest): int {
    ((((d[0] as int * 256 + d[1]) * 256 + d[2]) * 256 + d[3]) * 256 + d[4]) * 256 + d[5]
  }

  /** An account number is "10" and ten digits: the first 48 bits of the hash of the user id, modulo 10^10. */
  lemma AccountNumberExactly(c: Config, userId: string)
    ensures var s := AccountNumber(c, userId);
            && |s| == 12 && s[..2] == "10"
            && DecimalValue(s[2..]) == FortyEightBits(c.hash(userId)) % 10_000_000_000
  {
    PaddedExactly(NumberIndex(c, userId), 10);
    assert Pow10(10) == 10 * (10 * (10 * (10 * Pow10(6))));
    assert Pow10(6) == 10 * (10 * (10 * (10 * (10 * (10 * Pow10(0))))));
    assert AccountNumber(c, userId)[2..] == Padded(NumberIndex(c, userId), 10);
  }

  /** What a creation is refused for: an identifier that is no UUID, a text longer than 255 characters or no text
      at all, or a user with that id or email. */
  predicate CannotAdd(c: Config, users: seq<User>, uid: string, mail: string, name: string) {
    || c.uuid(uid).None?
    || !ValidText(mail) || Characters(mail) > 255 || !ValidText(name) || Characters(name) > 255
    || exists i :: 0 <= i < |users| && (users[i].id == c.uuid(uid).value || users[i].email == mail)
  }

  predicate Taken(accounts: seq<Account>, id: string, number: string) {
    exists i :: 0 <= i < |accounts| && (accounts[i].id == id || accounts[i].number == number)
  }

  lemma TrimmedFits(s: string, n: nat)
    requires Text.Trimmed(s)
    ensures Fits(s, n) <==> ValidText(s) && Characters(s) <= n
  {
    if ValidText(s) {
      HeldVerbatim(s, n);
      var rest := s[|Cut(s, n)|..];
      assert s == Cut(s, n) + rest;
      if rest != "" {
        assert rest[|rest| - 1] == s[|s| - 1];
      }
    }
  }

  /** The answers of `CreateUser`, and the two rows it writes. */
  lemma CreateUserExactly(c: Config, s: State, userId: string, email: string, fullName: string, accountId: string)
    ensures var uid, mail, name := Text.Trim(userId), Text.Trim(email), Text.Trim(fullName);
            var number := AccountNumber(c, uid);
            var taken := Taken(s.accounts, accountId, number);
            var (s', o) := CreateUser(c, s, userId, email, fullName, accountId);
            && (o == Refused(InvalidInput) <==> uid == "" || mail == "" || name == "")
            && (o == Refused(UserExists) <==>
                  uid != "" && mail != "" && name != "" && CannotAdd(c, s.users, uid, mail, name))
            && (o == DbError <==>
                  uid != "" && mail != "" && name != "" && !CannotAdd(c, s.users, uid, mail, name) && taken)
            && (o == Done(uid) || s' == s)
            && (o.Done? ==>
                  && s'.users == s.users + [User(c.uuid(uid).value, mail, name, "active")]
                  && s'.accounts == s.accounts
                     + [Account(accountId, c.uuid(uid).value, number, 50_000_000, 50_000_000, "VND", "active")]
                  && s'.rows == s.rows && s'.lastHash == s.lastHash)
  {
    hide Text.Trim, AccountNumber, ValidText, Characters, Fits;
    TrimmedFits(Text.Trim(email), 255);
    TrimmedFits(Text.Trim(fullName), 255);
  }

  /** No run makes two users of one id or email, two accounts of one id or number, or two rows of one id, key or
      nonce. */
  lemma NothingTwice(c: Config, s0: State, ops: seq<Op>, i: nat, j: nat)
    requires Initial(s0) && i < j
    ensures var s := Run(c, s0, ops);
            && (j < |s.users| ==> s.users[i].id != s.users[j].id && s.users[i].email != s.users[j].email)
            && (j < |s.accounts| ==>
                  s.accounts[i].id != s.accounts[j].id && s.accounts[i].number != s.accounts[j].number)
            && (j < |s.rows| ==> s.rows[i].id != s.rows[j].id && s.rows[i].key != s.rows[j].key
                                 && s.rows[i].nonce != s.rows[j].nonce)
  {
    hide Run, Money, ChainTo, Initial;
    RunKeepsInv(c, s0, ops);
  }
}
