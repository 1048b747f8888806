/** What every run of the bank keeps: money, the daily cap, the hash chain and the answers on record. */
module LedgerRuns {
  import opened Wrappers
  import opened Encoding
  import opened Integers
  import opened LedgerChain
  import opened Ledger
  import opened Columns
  import Text

  // ---- specification vocabulary ----

  function Opening(s0: State, i: nat): int {
    if i < |s0.accounts| then s0.accounts[i].balance else OPENING
  }

  /** Completed credits minus completed debits of one account. */
  function Net(rows: seq<Row>, id: string): int {
    if rows == [] then 0 else Net(rows[..|rows| - 1], id) + Effect(rows[|rows| - 1], id)
  }

  function Effect(r: Row, id: string): int {
    if r.status == Failed then 0
    else (if r.toId == id then r.amount else 0) - (if r.fromId == id then r.amount else 0)
  }

  function Sum(xs: seq<int>): int {
    if xs == [] then 0 else Sum(xs[..|xs| - 1]) + xs[|xs| - 1]
  }

  function Balances(accounts: seq<Account>): (r: seq<int>)
    ensures |r| == |accounts|
    ensures forall i :: 0 <= i < |r| ==> r[i] == accounts[i].balance
  {
    seq(|accounts|, i requires 0 <= i < |accounts| => accounts[i].balance)
  }

  function Total(accounts: seq<Account>): int {
    Sum(Balances(accounts))
  }

  /** Completed outgoing amounts stamped in one UTC day. */
  function SpentOn(rows: seq<Row>, id: string, day: int): int {
    Spent(rows, id, day * DAY, day * DAY + DAY - 1)
  }

  function Cap(a: Account): int {
    if a.dailyLimit < 0 then 0 else a.dailyLimit
  }

  ghost predicate HasAccount(s: State, id: string) {
    exists i :: 0 <= i < |s.accounts| && s.accounts[i].id == id
  }

  /** One of the ten-digit account numbers. */
  ghost predicate IsNumber(number: string) {
    exists n :: 0 <= n < ACCOUNT_NUMBERS && number == Numbered(n)
  }

  // ---- the invariant ----

  /** Users and accounts are only added, and of an account only the balance changes. */
  ghost predicate Tables(c: Config, s0: State, s: State) {
    && UniqueUsers(s.users) && UniqueIds(s.accounts) && UniqueNumbers(s.accounts)
    && |s0.accounts| <= |s.accounts|
    && (forall i :: 0 <= i < |s0.accounts| ==> s.accounts[i] == s0.accounts[i].(balance := s.accounts[i].balance))
    && (forall i :: |s0.accounts| <= i < |s.accounts| ==>
          s.accounts[i].dailyLimit == OPENING && IsNumber(s.accounts[i].number))
  }

  ghost predicate Records(s: State) {
    && (forall i, j :: 0 <= i < j < |s.rows| ==>
          s.rows[i].id != s.rows[j].id && s.rows[i].key != s.rows[j].key && s.rows[i].nonce != s.rows[j].nonce)
    && (forall i :: 0 <= i < |s.rows| ==> s.rows[i].amount > 0 && Characters(s.rows[i].key) <= KEY_CHARS)
    && (forall i :: 0 <= i < |s.rows| && s.rows[i].status == Completed ==>
          s.rows[i].fromId != s.rows[i].toId && HasAccount(s, s.rows[i].fromId) && HasAccount(s, s.rows[i].toId))
  }

  ghost predicate Replayed(s0: State, s: State) {
    forall i :: 0 <= i < |s.accounts| ==>
      s.accounts[i].balance == Opening(s0, i) + Net(s.rows, s.accounts[i].id)
  }

  ghost predicate Money(s0: State, s: State) {
    && BalancesFit(s.accounts) && Replayed(s0, s)
    && Total(s.accounts) == Total(s0.accounts) + OPENING * (|s.accounts| - |s0.accounts|)
  }

  ghost predicate Inv(c: Config, s0: State, s: State) {
    Tables(c, s0, s) && Records(s) && Money(s0, s) && ChainTo(c, s.rows, s.lastHash)
  }

  // ---- sums over tables ----

  lemma {:induction false} NetOfStranger(rows: seq<Row>, id: string)
    requires forall i :: 0 <= i < |rows| && rows[i].status == Completed ==> rows[i].fromId != id && rows[i].toId != id
    ensures Net(rows, id) == 0
  {
    if rows != [] {
      NetOfStranger(rows[..|rows| - 1], id);
    }
  }

  lemma NetAppend(rows: seq<Row>, r: Row, id: string)
    ensures Net(rows + [r], id) == Net(rows, id) + Effect(r, id)
  {
    assert (rows + [r])[..|rows|] == rows;
  }

  lemma TotalAppend(accounts: seq<Account>, a: Account)
    ensures Total(accounts + [a]) == Total(accounts) + a.balance
  {
    var xs := Balances(accounts + [a]);
    assert xs[..|accounts|] == Balances(accounts);
  }

  lemma {:induction false} SumUpdate(xs: seq<int>, f: nat, x: int)
    requires f < |xs|
    ensures Sum(xs[f := x]) == Sum(xs) - xs[f] + x
  {
    var n := |xs| - 1;
    if f < n {
      SumUpdate(xs[..n], f, x);
      assert xs[f := x][..n] == xs[..n][f := x];
    } else {
      assert xs[f := x][..n] == xs[..n];
    }
  }

  lemma SumMove(xs: seq<int>, f: nat, g: nat, amount: int)
    requires f < |xs| && g < |xs| && f != g
    ensures Sum(xs[f := xs[f] - amount][g := xs[g] + amount]) == Sum(xs)
  {
    SumUpdate(xs, f, xs[f] - amount);
    SumUpdate(xs[f := xs[f] - amount], g, xs[g] + amount);
  }

  // ---- moving money between two accounts ----

  ghost predicate SameColumns(before: seq<Account>, after: seq<Account>) {
    && |before| == |after|
    && forall i :: 0 <= i < |before| ==> after[i] == before[i].(balance := after[i].balance)
  }

  /** The account at `f` is the only one with its id. */
  ghost predicate OnlyAt(accounts: seq<Account>, f: nat)
    requires f < |accounts|
  {
    forall i :: 0 <= i < |accounts| && i != f ==> accounts[i].id != accounts[f].id
  }

  lemma UniqueIsOnly(accounts: seq<Account>, f: nat)
    requires f < |accounts| && UniqueIds(accounts)
    ensures OnlyAt(accounts, f)
  {
    forall i | 0 <= i < |accounts| && i != f ensures accounts[i].id != accounts[f].id {
      if i < f { assert accounts[i].id != accounts[f].id; }
    }
  }

  lemma AddToBalances(accounts: seq<Account>, f: nat, delta: int)
    requires f < |accounts| && OnlyAt(accounts, f)
    ensures Balances(AddTo(accounts, accounts[f].id, delta)) == Balances(accounts)[f := accounts[f].balance + delta]
  {
  }

  lemma MoveBalances(accounts: seq<Account>, f: nat, g: nat, amount: int)
    requires f < |accounts| && g < |accounts| && f != g && OnlyAt(accounts, f) && OnlyAt(accounts, g)
    ensures Balances(Credit(Debit(accounts, accounts[f].id, amount), accounts[g].id, amount))
         == Balances(accounts)[f := accounts[f].balance - amount][g := accounts[g].balance + amount]
  {
    AddToBalances(accounts, f, -amount);
    AddToBalances(AddTo(accounts, accounts[f].id, -amount), g, amount);
  }

  /** Debit and credit of one amount leave the total alone. */
  lemma MoveTotal(accounts: seq<Account>, f: nat, g: nat, amount: int)
    requires f < |accounts| && g < |accounts| && f != g && OnlyAt(accounts, f) && OnlyAt(accounts, g)
    ensures Total(Credit(Debit(accounts, accounts[f].id, amount), accounts[g].id, amount)) == Total(accounts)
  {
    MoveBalances(accounts, f, g, amount);
    SumMove(Balances(accounts), f, g, amount);
  }

  lemma MoveKeepsReplay(s0: State, s: State, s': State, r: Row)
    requires Replayed(s0, s) && s'.rows == s.rows + [Held(r)] && r.status == Completed
    requires s'.accounts == Credit(Debit(s.accounts, r.fromId, r.amount), r.toId, r.amount)
    ensures Replayed(s0, s')
  {
    hide Held;
    forall i | 0 <= i < |s'.accounts|
      ensures s'.accounts[i].balance == Opening(s0, i) + Net(s'.rows, s'.accounts[i].id)
    {
      NetAppend(s.rows, Held(r), s.accounts[i].id);
    }
  }

  // ---- one step ----

  lemma ChainAppend(c: Config, s: State, who: Caller, req: Request, id: string, at: int,
                    status: RowStatus, fromId: string, toId: string)
    requires ChainTo(c, s.rows, s.lastHash) && IsUuid(id)
    ensures var s' := Append(s, NewRow(c, s, who, req, id, at, status, fromId, toId));
            ChainTo(c, s'.rows, s'.lastHash)
  {
    hide Held;
    ChainHeadForm(c, s.rows, s.lastHash);
    var h := Held(NewRow(c, s, who, req, id, at, status, fromId, toId));
    assert (s.rows + [h])[..|s.rows|] == s.rows;
    assert RowOk(c, h);
  }

  lemma HasAccountKept(s: State, s': State, id: string)
    requires HasAccount(s, id) && |s.accounts| <= |s'.accounts|
    requires forall i :: 0 <= i < |s.accounts| ==> s'.accounts[i].id == s.accounts[i].id
    ensures HasAccount(s', id)
  {
    var j :| 0 <= j < |s.accounts| && s.accounts[j].id == id;
    assert s'.accounts[j].id == id;
  }

  /** Opening an account for a new user: nothing on record mentions it yet. */
  lemma OpenAccountKeepsInv(c: Config, s0: State, s: State, u: User, a: Account)
    requires Inv(c, s0, s)
    requires UniqueUsers(s.users + [u]) && UniqueIds(s.accounts + [a]) && UniqueNumbers(s.accounts + [a])
    requires a.balance == OPENING && a.dailyLimit == OPENING && IsNumber(a.number)
    ensures Inv(c, s0, s.(users := s.users + [u], accounts := s.accounts + [a]))
  {
    hide Records, ChainTo, NumberIndex;
    var s' := s.(users := s.users + [u], accounts := s.accounts + [a]);
    assert Tables(c, s0, s');
    OpenAccountKeepsRecords(s, s', a);
    TotalAppend(s.accounts, a);
  }

  lemma OpenAccountKeepsRecords(s: State, s': State, a: Account)
    requires Records(s) && s'.rows == s.rows && s'.accounts == s.accounts + [a] && UniqueIds(s'.accounts)
    ensures Records(s') && Net(s.rows, a.id) == 0
  {
    forall i | 0 <= i < |s.rows| && s.rows[i].status == Completed
      ensures s.rows[i].fromId != a.id && s.rows[i].toId != a.id
      ensures HasAccount(s', s.rows[i].fromId) && HasAccount(s', s.rows[i].toId)
    {
      HasAccountKept(s, s', s.rows[i].fromId);
      HasAccountKept(s, s', s.rows[i].toId);
      assert s'.accounts[|s.accounts|] == a;
    }
    NetOfStranger(s.rows, a.id);
  }

  lemma NumberIsNumber(c: Config, userId: string)
    ensures IsNumber(AccountNumber(c, userId))
  {
  }

  lemma CreateUserKeepsInv(c: Config, s0: State, s: State, userId: string, email: string, fullName: string,
                           accountId: string)
    requires Inv(c, s0, s)
    ensures Inv(c, s0, CreateUser(c, s, userId, email, fullName, accountId).0)
  {
    hide Records, Money, ChainTo, AccountNumber, IsNumber, Fits;
    var (s', o) := CreateUser(c, s, userId, email, fullName, accountId);
    NumberIsNumber(c, Text.Trim(userId));
    if o.Done? {
      OpenAccountKeepsInv(c, s0, s, s'.users[|s.users|], s'.accounts[|s.accounts|]);
    }
  }

  /** An insert that the table takes keeps ids, keys and nonces distinct, also where blanks were cut. */
  lemma AppendKeepsRecords(s: State, s': State, r: Row)
    requires Records(s) && s'.rows == s.rows + [Held(r)] && InsertOk(s.rows, r) && SameColumns(s.accounts, s'.accounts)
    requires r.status == Completed ==> r.fromId != r.toId && HasAccount(s, r.fromId) && HasAccount(s, r.toId)
    ensures Records(s')
  {
    hide ColumnsFit, Characters, Cut;
    CutLength(r.key, KEY_CHARS);
    HeldRowKeepsRecords(s, s', Held(r));
  }

  lemma HeldRowKeepsRecords(s: State, s': State, h: Row)
    requires Records(s) && s'.rows == s.rows + [h] && Distinct(s.rows, h) && SameColumns(s.accounts, s'.accounts)
    requires h.amount > 0 && Characters(h.key) <= KEY_CHARS
    requires h.status == Completed ==> h.fromId != h.toId && HasAccount(s, h.fromId) && HasAccount(s, h.toId)
    ensures Records(s')
  {
    hide Characters;
    forall i | 0 <= i < |s'.rows| && s'.rows[i].status == Completed
      ensures HasAccount(s', s'.rows[i].fromId) && HasAccount(s', s'.rows[i].toId)
    {
      HasAccountKept(s, s', s'.rows[i].fromId);
      HasAccountKept(s, s', s'.rows[i].toId);
    }
  }

  lemma FailedRowKeepsMoney(s0: State, s: State, s': State, h: Row)
    requires Money(s0, s) && h.status == Failed && s'.rows == s.rows + [h] && s'.accounts == s.accounts
    ensures Money(s0, s')
  {
    forall i | 0 <= i < |s.accounts| ensures Net(s.rows + [h], s.accounts[i].id) == Net(s.rows, s.accounts[i].id) {
      NetAppend(s.rows, h, s.accounts[i].id);
    }
  }

  lemma FailKeepsInv(c: Config, s0: State, s: State, who: Caller, req: Request, id: string, at: int,
                     error: BankError, fromId: string, toId: string)
    requires Inv(c, s0, s) && IsUuid(id)
    ensures Inv(c, s0, FailTransfer(c, s, who, req, id, at, error, fromId, toId).0)
  {
    hide InsertOk, Held, Records, Money, ChainTo;
    var r := NewRow(c, s, who, req, id, at, Failed, fromId, toId);
    if InsertOk(s.rows, r) {
      ChainAppend(c, s, who, req, id, at, Failed, fromId, toId);
      AppendKeepsRecords(s, Append(s, r), r);
      FailedRowKeepsMoney(s0, s, Append(s, r), Held(r));
    }
  }

  lemma SameColumnsKeepTables(c: Config, s0: State, s: State, s': State)
    requires Tables(c, s0, s) && s'.users == s.users && SameColumns(s.accounts, s'.accounts)
    ensures Tables(c, s0, s')
  {
  }

  lemma CompleteKeepsInv(c: Config, s0: State, s: State, s': State, f: nat, g: nat, r: Row)
    requires Inv(c, s0, s)
    requires f < |s.accounts| && g < |s.accounts|
    requires r.status == Completed && r.fromId == s.accounts[f].id && r.toId == s.accounts[g].id && r.fromId != r.toId
    requires s'.users == s.users && s'.rows == s.rows + [Held(r)] && InsertOk(s.rows, r)
    requires s'.accounts == Credit(Debit(s.accounts, r.fromId, r.amount), r.toId, r.amount)
    requires BalancesFit(s'.accounts) && ChainTo(c, s'.rows, s'.lastHash)
    ensures Inv(c, s0, s')
  {
    hide ChainTo, Records, InsertOk, Held;
    UniqueIsOnly(s.accounts, f);
    UniqueIsOnly(s.accounts, g);
    MoveTotal(s.accounts, f, g, r.amount);
    MoveKeepsReplay(s0, s, s', r);
    SameColumnsKeepTables(c, s0, s, s');
    AppendKeepsRecords(s, s', r);
  }

  lemma ExecuteKeepsInv(c: Config, s0: State, s: State, who: Caller, req: Request, id: string, t: Readings)
    requires Inv(c, s0, s) && IsUuid(id)
    ensures Inv(c, s0, Execute(c, s, who, req, id, t).0)
  {
    hide Decide, Tables, Records, Money, InsertOk;
    match Decide(s, who, req, t)
    case Refuse(error, fromId, toId) => FailKeepsInv(c, s0, s, who, req, id, t.stamp, error, fromId, toId);
    case Abort =>
    case Proceed(from, to) =>
      var (s', o) := Execute(c, s, who, req, id, t);
      if o.Done? {
        ChainAppend(c, s, who, req, id, t.stamp, Completed, from.id, to.id);
        var f :| 0 <= f < |s.accounts| && s.accounts[f] == from;
        var g :| 0 <= g < |s.accounts| && s.accounts[g] == to;
        CompleteKeepsInv(c, s0, s, s', f, g, NewRow(c, s, who, req, id, t.stamp, Completed, from.id, to.id));
      }
  }

  lemma StepKeepsInv(c: Config, s0: State, s: State, op: Op)
    requires Inv(c, s0, s)
    ensures Inv(c, s0, Step(c, s, op))
  {
    match op
    case CreateUserOp(userId, email, fullName, draw, t) =>
      CreateUserKeepsInv(c, s0, s, userId, email, fullName, NewUuid(draw));
    case ExecuteOp(who, req, draw, t) => ExecuteKeepsInv(c, s0, s, who, req, NewUuid(draw), t);
  }

  lemma {:induction false} RunKeepsInv(c: Config, s0: State, ops: seq<Op>)
    requires Initial(s0)
    ensures Inv(c, s0, Run(c, s0, ops))
  {
    if ops != [] {
      RunKeepsInv(c, s0, ops[..|ops| - 1]);
      StepKeepsInv(c, s0, Run(c, s0, ops[..|ops| - 1]), ops[|ops| - 1]);
    }
  }
}
