/** The banking service as the code runs it: statements against mutable tables inside a transaction,
    with a rollback on any database error. Every method is proved against its step in `Ledger`. */
module BankService {
  import opened Wrappers
  import opened Encoding
  import opened Integers
  import opened LedgerChain
  import opened Ledger
  import opened Columns
  import Text

  class Bank {
    const c: Config
    var users: seq<User>
    var accounts: seq<Account>
    var rows: seq<Row>
    var lastHash: string

    function Tables(): State
      reads this
    {
      State(users, accounts, rows, lastHash)
    }

    /** The migrated schema: empty tables and a ledger head at genesis. */
    constructor (c: Config)
      ensures this.c == c && Tables() == State([], [], [], GENESIS) && Initial(Tables())
    {
      this.c := c;
      users, accounts, rows, lastHash := [], [], [], GENESIS;
    }

    method Rollback(saved: State)
      modifies this`users, this`accounts, this`rows, this`lastHash
      ensures Tables() == saved
    {
      users, accounts, rows, lastHash := saved.users, saved.accounts, saved.rows, saved.lastHash;
    }

    // ---- repository ----

    method SetBalances(updated: seq<Account>) returns (ok: bool)
      modifies this`accounts
      ensures ok == BalancesFit(updated)
      ensures accounts == if ok then updated else old(accounts)
    {
      ok := BalancesFit(updated);
      if ok {
        accounts := updated;
      }
    }

    /** The account with that id, and no other, gives the amount up, unless a balance would leave its column. */
    method DebitAccount(amount: int, id: string) returns (ok: bool)
      modifies this`accounts
      ensures ok <==> forall i :: 0 <= i < |old(accounts)| ==>
        0 <= old(accounts)[i].balance - (if old(accounts)[i].id == id then amount else 0) <= INT64_MAX
      ensures |accounts| == |old(accounts)|
      ensures forall i :: 0 <= i < |accounts| ==> accounts[i] == old(accounts)[i].(
        balance := old(accounts)[i].balance - if ok && old(accounts)[i].id == id then amount else 0)
    {
      ok := SetBalances(Debit(accounts, id, amount));
    }

    /** The account with that id, and no other, receives the amount, unless a balance would leave its column. */
    method CreditAccount(amount: int, id: string) returns (ok: bool)
      modifies this`accounts
      ensures ok <==> forall i :: 0 <= i < |old(accounts)| ==>
        0 <= old(accounts)[i].balance + (if old(accounts)[i].id == id then amount else 0) <= INT64_MAX
      ensures |accounts| == |old(accounts)|
      ensures forall i :: 0 <= i < |accounts| ==> accounts[i] == old(accounts)[i].(
        balance := old(accounts)[i].balance + if ok && old(accounts)[i].id == id then amount else 0)
    {
      ok := SetBalances(Credit(accounts, id, amount));
    }

    method InsertUser(uid: string, mail: string, name: string) returns (ok: bool)
      modifies this`users
      ensures ok == !UserRowRefused(c, old(users), uid, mail, name)
      ensures ok ==> c.uuid(uid).Some? && users == old(users) + [User(c.uuid(uid).value, mail, name, "active")]
      ensures !ok ==> users == old(users)
    {
      ok := !UserRowRefused(c, users, uid, mail, name);
      if ok {
        users := users + [User(c.uuid(uid).value, mail, name, "active")];
      }
    }

    method InsertTransaction(r: Row) returns (ok: bool)
      modifies this`rows
      ensures ok == InsertOk(old(rows), r)
      ensures rows == if ok then old(rows) + [Held(r)] else old(rows)
    {
      ok := InsertOk(rows, r);
      if ok {
        rows := rows + [Held(r)];
      }
    }

    method UpdateLedger(currentHash: string)
      modifies this`lastHash
      ensures lastHash == currentHash
    {
      lastHash := currentHash;
    }

    /** The sum of the completed transfers out of one account in a closed time range, row by row. */
    method SumCompletedTransfersSince(id: string, since: int, until: int) returns (spent: int)
      ensures spent == Spent(rows, id, since, until)
    {
      spent := 0;
      var i := 0;
      while i < |rows|
        invariant 0 <= i <= |rows|
        invariant spent == Spent(rows[..i], id, since, until)
      {
        if Spends(rows[i], id, since, until) {
          spent := spent + rows[i].amount;
        }
        assert rows[..i + 1][..i] == rows[..i];
        i := i + 1;
      }
      assert rows[..i] == rows;
    }

    // ---- service ----

    method FailTransfer(saved: State, who: Caller, req: Request, id: string, at: int,
                        fromId: string, toId: string, error: BankError) returns (o: Outcome)
      requires saved == Tables()
      modifies this`users, this`accounts, this`rows, this`lastHash
      ensures (Tables(), o) == Ledger.FailTransfer(c, saved, who, req, id, at, error, fromId, toId)
    {
      hide NewRow, InsertOk, Held;
      var r := NewRow(c, Tables(), who, req, id, at, Failed, fromId, toId);
      var ok := InsertTransaction(r);
      if !ok {
        Rollback(saved);
        return DbError;
      }
      UpdateLedger(r.currentHash);
      o := Refused(error);
    }

    method CompleteTransfer(saved: State, who: Caller, req: Request, id: string, at: int,
                            from: Account, to: Account) returns (o: Outcome)
      requires saved == Tables()
      modifies this`users, this`accounts, this`rows, this`lastHash
      ensures (Tables(), o) == Complete(c, saved, who, req, id, at, from, to)
    {
      hide NewRow, InsertOk, Held;
      var r := NewRow(c, Tables(), who, req, id, at, Completed, from.id, to.id);
      ghost var debited := Debit(accounts, from.id, req.amount);
      var ok := DebitAccount(req.amount, from.id);
      assert ok == BalancesFit(debited) && (ok ==> accounts == debited);
      if ok {
        ok := CreditAccount(req.amount, to.id);
        ghost var moved := Credit(debited, to.id, req.amount);
        assert ok == BalancesFit(moved) && (ok ==> accounts == moved);
      }
      if ok {
        ok := InsertTransaction(r);
      }
      if !ok {
        Rollback(saved);
        return DbError;
      }
      UpdateLedger(r.currentHash);
      o := Done(id);
    }

    method ExecuteTransfer(who: Caller, req: Request, id: string, t: Readings) returns (o: Outcome)
      modifies this`users, this`accounts, this`rows, this`lastHash
      ensures (Tables(), o) == Execute(c, old(Tables()), who, req, id, t)
    {
      hide Ledger.FailTransfer, Complete, LoadByNumber, Spent, ValidText;
      var saved := Tables();
      if !ValidText(req.fromNumber) {
        return DbError;
      }
      var loadedFrom := LoadByNumber(saved, req.fromNumber);
      if loadedFrom.None? {
        o := FailTransfer(saved, who, req, id, t.stamp, "", "", AccountNotFound);
        return;
      }
      var from := loadedFrom.value.account;
      if !ValidText(req.toNumber) {
        return DbError;
      }
      var loadedTo := LoadByNumber(saved, req.toNumber);
      if loadedTo.None? {
        o := FailTransfer(saved, who, req, id, t.stamp, from.id, "", AccountNotFound);
        return;
      }
      var to := loadedTo.value.account;
      if from.userId != who.clientId {
        o := FailTransfer(saved, who, req, id, t.stamp, from.id, to.id, Forbidden);
        return;
      }
      if loadedFrom.value.userStatus != "active" || from.status != "active" || to.status != "active" {
        o := FailTransfer(saved, who, req, id, t.stamp, from.id, to.id, AccountNotActive);
        return;
      }
      if from.id == to.id {
        o := FailTransfer(saved, who, req, id, t.stamp, from.id, "", BadRequest);
        return;
      }
      if from.currency != req.currency || to.currency != req.currency {
        o := FailTransfer(saved, who, req, id, t.stamp, from.id, to.id, BadRequest);
        return;
      }
      if from.balance < req.amount {
        o := FailTransfer(saved, who, req, id, t.stamp, from.id, to.id, InsufficientFunds);
        return;
      }
      var spentToday := SumCompletedTransfersSince(from.id, StartOfDay(t.day), t.bound);
      if !(INT64_MIN <= spentToday <= INT64_MAX) {
        return DbError;
      }
      if Wrap64(spentToday + req.amount) > from.dailyLimit {
        o := FailTransfer(saved, who, req, id, t.stamp, from.id, to.id, DailyLimitExceeded);
        return;
      }
      o := CompleteTransfer(saved, who, req, id, t.stamp, from, to);
    }

    /** Nothing is found for a key without a row; otherwise the row with the key decides. */
    method FindIdempotentTransaction(key: string) returns (answer: Option<Outcome>)
      ensures answer.None? <==> key == "" || (ValidText(key) && forall i :: 0 <= i < |rows| ==> rows[i].key != key)
      ensures answer.Some? && answer.value.Done? ==>
        exists i :: 0 <= i < |rows| &&
          rows[i].key == key && rows[i].status == Completed && rows[i].id == answer.value.id
      ensures answer.Some? && !answer.value.Done? ==> answer.value == Refused(IdempotencyFailed)
      ensures answer.Some? && !answer.value.Done? && ValidText(key) ==>
        exists i :: 0 <= i < |rows| && rows[i].key == key && rows[i].status == Failed
      ensures answer == Recorded(rows, key)
    {
      hide ValidText;
      if key == "" {
        return None;
      }
      if !ValidText(key) {
        return Some(Refused(IdempotencyFailed));
      }
      var found := FindByKey(rows, key);
      if found.None? {
        return None;
      }
      answer := Some(if found.value.status == Completed then Done(found.value.id) else Refused(IdempotencyFailed));
    }

    method Transfer(who: Caller, req: Request, draw: Random16, t: Readings) returns (o: Outcome)
      modifies this`users, this`accounts, this`rows, this`lastHash
      ensures (Tables(), o) == Ledger.Transfer(c, old(Tables()), who, req, NewUuid(draw), t)
    {
      var answer := FindIdempotentTransaction(req.key);
      if answer.Some? {
        return answer.value;
      }
      o := ExecuteTransfer(who, req, NewUuid(draw), t);
    }

    method InsertDefaultAccount(accountId: string, userId: string, number: string) returns (ok: bool)
      modifies this`accounts
      ensures ok <==> forall i :: 0 <= i < |old(accounts)| ==>
        old(accounts)[i].id != accountId && old(accounts)[i].number != number
      ensures accounts == if ok
        then old(accounts) + [Account(accountId, userId, number, OPENING, OPENING, "VND", "active")]
        else old(accounts)
    {
      ok := forall i :: 0 <= i < |accounts| ==> accounts[i].id != accountId && accounts[i].number != number;
      if ok {
        accounts := accounts + [Account(accountId, userId, number, OPENING, OPENING, "VND", "active")];
      }
    }

    method CreateUser(userId: string, email: string, fullName: string, draw: Random16) returns (o: Outcome)
      modifies this`users, this`accounts, this`rows, this`lastHash
      ensures (Tables(), o) == Ledger.CreateUser(c, old(Tables()), userId, email, fullName, NewUuid(draw))
    {
      hide UserRowRefused, AccountNumber, Text.Trim;
      var uid, mail, name := Text.Trim(userId), Text.Trim(email), Text.Trim(fullName);
      if uid == "" || mail == "" || name == "" {
        return Refused(InvalidInput);
      }
      var saved := Tables();
      var ok := InsertUser(uid, mail, name);
      if !ok {
        return Refused(UserExists);
      }
      ok := InsertDefaultAccount(NewUuid(draw), c.uuid(uid).value, AccountNumber(c, uid));
      if !ok {
        Rollback(saved);
        return DbError;
      }
      o := Done(uid);
    }
  }
}
