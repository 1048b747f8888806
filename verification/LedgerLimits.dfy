/** The daily cap over whole runs, and why no 64-bit sum on the way to it can overflow. */
module LedgerLimits {
  import opened Wrappers
  import opened Encoding
  import opened Integers
  import opened LedgerChain
  import opened Ledger
  import opened LedgerRuns

  // ---- sums over the transactions table ----

  ghost predicate StampsBy(rows: seq<Row>, now: int) {
    forall i :: 0 <= i < |rows| ==> rows[i].createdAt <= now
  }

  ghost predicate Positive(rows: seq<Row>) {
    forall i :: 0 <= i < |rows| ==> rows[i].amount > 0
  }

  lemma SpentAppend(rows: seq<Row>, r: Row, id: string, since: int, until: int)
    ensures Spent(rows + [r], id, since, until)
         == Spent(rows, id, since, until) + if Spends(r, id, since, until) then r.amount else 0
  {
    assert (rows + [r])[..|rows|] == rows;
  }

  lemma {:induction false} SpentNonNegative(rows: seq<Row>, id: string, since: int, until: int)
    requires Positive(rows)
    ensures Spent(rows, id, since, until) >= 0
  {
    if rows != [] {
      SpentNonNegative(rows[..|rows| - 1], id, since, until);
    }
  }

  /** Two upper bounds at or after every stamp select the same rows. */
  lemma {:induction false} SpentUpTo(rows: seq<Row>, id: string, since: int, now: int, until: int, until': int)
    requires StampsBy(rows, now) && now <= until && now <= until'
    ensures Spent(rows, id, since, until) == Spent(rows, id, since, until')
  {
    if rows != [] {
      SpentUpTo(rows[..|rows| - 1], id, since, now, until, until');
    }
  }

  lemma {:induction false} SpentNothing(rows: seq<Row>, id: string, since: int, until: int)
    requires forall i :: 0 <= i < |rows| ==> !Spends(rows[i], id, since, until)
    ensures Spent(rows, id, since, until) == 0
  {
    if rows != [] {
      SpentNothing(rows[..|rows| - 1], id, since, until);
    }
  }

  /** An appended row adds its amount exactly when it is a completed transfer out of the account, stamped within
      the closed range, and nothing otherwise. */
  lemma SumCounts(rows: seq<Row>, r: Row, id: string, since: int, until: int)
    ensures Spent([], id, since, until) == 0
    ensures r.fromId == id && r.status == Completed && since <= r.createdAt && r.createdAt <= until ==>
      Spent(rows + [r], id, since, until) == Spent(rows, id, since, until) + r.amount
    ensures r.fromId != id || r.status == Failed || r.createdAt < since || until < r.createdAt ==>
      Spent(rows + [r], id, since, until) == Spent(rows, id, since, until)
  {
    SpentAppend(rows, r, id, since, until);
  }

  /** What an account paid out on a day, counted in whole days of 24 hours from 1970. */
  function PaidOn(rows: seq<Row>, id: string, day: int): int {
    if rows == [] then 0
    else
      var r := rows[0];
      (if r.fromId == id && r.status == Completed && r.createdAt / (24 * 60 * 60 * 1_000_000) == day
       then r.amount else 0)
      + PaidOn(rows[1..], id, day)
  }

  lemma {:induction false} PaidAppend(rows: seq<Row>, r: Row, id: string, day: int)
    ensures PaidOn(rows + [r], id, day) == PaidOn(rows, id, day)
      + if r.fromId == id && r.status == Completed && r.createdAt / (24 * 60 * 60 * 1_000_000) == day
        then r.amount else 0
  {
    if rows == [] {
      assert (rows + [r])[1..] == [];
    } else {
      assert (rows + [r])[1..] == rows[1..] + [r];
      PaidAppend(rows[1..], r, id, day);
    }
  }

  lemma OfDay(at: int, day: int)
    ensures at / (24 * 60 * 60 * 1_000_000) == day <==> day * DAY <= at <= day * DAY + DAY - 1
  {
  }

  /** The range query over a day counts what was paid on that day. */
  lemma {:induction false} SpentOnIsPaidOn(rows: seq<Row>, id: string, day: int)
    ensures SpentOn(rows, id, day) == PaidOn(rows, id, day)
  {
    hide DAY, Spends;
    if rows == [] {
      NothingSpent(id, day);
    } else {
      var front, r := rows[..|rows| - 1], rows[|rows| - 1];
      assert rows == front + [r];
      SpentOnIsPaidOn(front, id, day);
      SumCounts(front, r, id, day * DAY, day * DAY + DAY - 1);
      PaidAppend(front, r, id, day);
      OfDay(r.createdAt, day);
    }
  }

  lemma NothingSpent(id: string, day: int)
    ensures SpentOn([], id, day) == PaidOn([], id, day) == 0
  {
  }

  // ---- how many accounts there can be ----

  lemma {:induction false} Pigeonhole(xs: seq<int>, n: nat)
    requires forall i :: 0 <= i < |xs| ==> 0 <= xs[i] < n
    requires forall i, j :: 0 <= i < j < |xs| ==> xs[i] != xs[j]
    ensures |xs| <= n
    decreases n
  {
    if xs != [] {
      assert 0 <= xs[0] < n;
      if i :| 0 <= i < |xs| && xs[i] == n - 1 {
        forall k | 0 <= k < |xs| && k != i ensures xs[k] < n - 1 {
          assert if k < i then xs[k] != xs[i] else xs[i] != xs[k];
        }
        Pigeonhole(xs[..i] + xs[i + 1..], n - 1);
      } else {
        Pigeonhole(xs, n - 1);
      }
    }
  }

  ghost function IndexOf(number: string): (n: int)
    requires IsNumber(number)
    ensures 0 <= n < ACCOUNT_NUMBERS && number == Numbered(n)
  {
    var n :| 0 <= n < ACCOUNT_NUMBERS && number == Numbered(n); n
  }

  /** Account numbers are unique and have ten free digits, so at most 10^10 accounts can be opened. */
  lemma OpenedAccountsBound(c: Config, s0: State, s: State)
    requires Tables(c, s0, s)
    ensures |s.accounts| - |s0.accounts| <= ACCOUNT_NUMBERS
  {
    hide IsNumber, Numbered;
    var added := s.accounts[|s0.accounts|..];
    var xs := seq(|added|, i requires 0 <= i < |added| => IndexOf(added[i].number));
    forall i, j | 0 <= i < j < |xs| ensures xs[i] != xs[j] {
      assert added[i].number == Numbered(xs[i]) && added[j].number == Numbered(xs[j]);
      assert s.accounts[|s0.accounts| + i].number != s.accounts[|s0.accounts| + j].number;
    }
    Pigeonhole(xs, ACCOUNT_NUMBERS);
  }

  // ---- headroom ----

  /** Seeded money, plus the opening balance of every account that can ever be opened, plus any one
      daily limit, fits in an `int64`. A database without seeded accounts always has this. */
  ghost predicate Headroom(s0: State) {
    && Total(s0.accounts) + OPENING * ACCOUNT_NUMBERS + OPENING <= INT64_MAX
    && forall i :: 0 <= i < |s0.accounts| ==>
         Total(s0.accounts) + OPENING * ACCOUNT_NUMBERS + s0.accounts[i].dailyLimit <= INT64_MAX
  }

  /** The money in the bank, plus any one daily limit, fits in an `int64`. */
  ghost predicate Room(s: State) {
    forall i :: 0 <= i < |s.accounts| ==> Total(s.accounts) + Cap(s.accounts[i]) <= INT64_MAX
  }

  lemma EmptyBankHasHeadroom(s0: State)
    requires s0.accounts == []
    ensures Headroom(s0)
  {
  }

  lemma {:induction false} SumBounds(xs: seq<int>, f: nat, g: nat)
    requires f < |xs| && g < |xs| && f != g
    requires forall i :: 0 <= i < |xs| ==> xs[i] >= 0
    ensures xs[f] + xs[g] <= Sum(xs)
  {
    SumNonNegative(xs[f := 0][g := 0]);
    SumUpdate(xs, f, 0);
    SumUpdate(xs[f := 0], g, 0);
  }

  lemma {:induction false} SumNonNegative(xs: seq<int>)
    requires forall i :: 0 <= i < |xs| ==> xs[i] >= 0
    ensures Sum(xs) >= 0
  {
    if xs != [] {
      SumNonNegative(xs[..|xs| - 1]);
    }
  }

  /** Headroom at the start leaves room in every state that is reached. */
  lemma HeadroomLeavesRoom(c: Config, s0: State, s: State)
    requires Tables(c, s0, s) && Money(s0, s) && Headroom(s0)
    ensures Room(s)
  {
    OpenedAccountsBound(c, s0, s);
    forall i | 0 <= i < |s0.accounts| ensures s.accounts[i].dailyLimit == s0.accounts[i].dailyLimit {
    }
  }

  /** With room, any two balances and a daily limit together fit in an `int64`. */
  lemma BalancesBound(s: State, f: nat, g: nat)
    requires BalancesFit(s.accounts) && Room(s)
    requires f < |s.accounts| && g < |s.accounts| && f != g
    ensures s.accounts[f].balance >= 0 && s.accounts[g].balance >= 0
    ensures s.accounts[f].balance + s.accounts[g].balance + Cap(s.accounts[f]) <= INT64_MAX
  {
    SumBounds(Balances(s.accounts), f, g);
  }

  // ---- the daily check ----

  /** The wrapped sum of the daily check decides as the true sum does exactly when the true sum fits. */
  lemma DailyCheckExact(spent: int64, amount: int64, limit: int64)
    requires spent >= 0 && limit >= 0
    ensures (Wrap64(spent + amount) > limit <==> spent + amount > limit) <==> spent + amount <= INT64_MAX
  {
  }

  ghost predicate CapKept(s: State) {
    forall i, d :: 0 <= i < |s.accounts| ==> SpentOn(s.rows, s.accounts[i].id, d) <= Cap(s.accounts[i])
  }

  ghost predicate CapInv(s: State, now: int) {
    CapKept(s) && StampsBy(s.rows, now)
  }

  /** What the limits and the rollbacks rest on. `now` is a clock reading at or after every stamp. */
  ghost predicate Sound(s: State, now: int) {
    UniqueIds(s.accounts) && BalancesFit(s.accounts) && Records(s) && Room(s) && CapInv(s, now)
  }

  /** What the daily query returns: the amounts stamped so far on the day of the first reading. */
  lemma DailyQuery(s: State, i: nat, t: Readings)
    requires Records(s) && CapInv(s, t.day) && t.day <= t.bound && i < |s.accounts|
    ensures var spent := Spent(s.rows, s.accounts[i].id, StartOfDay(t.day), t.bound);
            && 0 <= spent <= Cap(s.accounts[i]) && spent == SpentOn(s.rows, s.accounts[i].id, t.day / DAY)
            && spent == PaidOn(s.rows, s.accounts[i].id, t.day / (24 * 60 * 60 * 1_000_000))
  {
    var d := t.day / DAY;
    assert StartOfDay(t.day) == d * DAY;
    SpentOnIsPaidOn(s.rows, s.accounts[i].id, d);
    SpentUpTo(s.rows, s.accounts[i].id, d * DAY, t.day, t.bound, d * DAY + DAY - 1);
    SpentNonNegative(s.rows, s.accounts[i].id, d * DAY, t.bound);
    assert SpentOn(s.rows, s.accounts[i].id, d) <= Cap(s.accounts[i]);
  }

  /** No 64-bit overflow on the way through a transfer: the wrapped sum of the daily check is the true
      sum, and the credited balance fits its column. */
  lemma NoOverflow(s: State, t: Readings, f: nat, g: nat, amount: int64)
    requires Sound(s, t.day) && t.day <= t.bound
    requires f < |s.accounts| && g < |s.accounts| && f != g && amount <= s.accounts[f].balance
    ensures var spent := Spent(s.rows, s.accounts[f].id, StartOfDay(t.day), t.bound);
            0 <= spent <= INT64_MAX && Wrap64(spent + amount) == spent + amount
    ensures s.accounts[g].balance + amount <= INT64_MAX
  {
    hide Records, CapInv, Room, Spent;
    DailyQuery(s, f, t);
    BalancesBound(s, f, g);
  }

  /** Amounts that passed the daily check fit under the limit next to what the day of the stamp already
      holds, also when midnight passes between the first reading and the stamp. */
  lemma AcceptedFits(s: State, t: Readings, f: nat, amount: int)
    requires Records(s) && CapInv(s, t.day) && t.day <= t.bound <= t.stamp && f < |s.accounts|
    requires Spent(s.rows, s.accounts[f].id, StartOfDay(t.day), t.bound) + amount <= s.accounts[f].dailyLimit
    ensures SpentOn(s.rows, s.accounts[f].id, t.stamp / DAY) + amount <= s.accounts[f].dailyLimit
  {
    DailyQuery(s, f, t);
    if t.stamp / DAY != t.day / DAY {
      var d := t.stamp / DAY;
      assert t.day < d * DAY;
      SpentNothing(s.rows, s.accounts[f].id, d * DAY, d * DAY + DAY - 1);
    }
  }

  lemma AppendKeepsCap(s: State, s': State, r: Row, now: int)
    requires CapInv(s, now) && now <= r.createdAt && s'.rows == s.rows + [r]
    requires SameColumns(s.accounts, s'.accounts)
    requires r.status == Completed ==> forall i :: 0 <= i < |s.accounts| && s.accounts[i].id == r.fromId ==>
      SpentOn(s.rows, r.fromId, r.createdAt / DAY) + r.amount <= s.accounts[i].dailyLimit
    ensures CapInv(s', r.createdAt)
  {
    forall i, d | 0 <= i < |s'.accounts| ensures SpentOn(s'.rows, s'.accounts[i].id, d) <= Cap(s'.accounts[i]) {
      var id := s.accounts[i].id;
      SpentAppend(s.rows, r, id, d * DAY, d * DAY + DAY - 1);
      assert SpentOn(s.rows, id, d) <= Cap(s.accounts[i]);
      if Spends(r, id, d * DAY, d * DAY + DAY - 1) {
        assert d == r.createdAt / DAY;
      }
    }
  }

  lemma CompleteKeepsCap(s: State, s': State, t: Readings, f: nat, g: nat, r: Row)
    requires Sound(s, t.day) && t.day <= t.bound <= t.stamp
    requires f < |s.accounts| && g < |s.accounts| && f != g
    requires r.fromId == s.accounts[f].id && r.createdAt == t.stamp && r.amount <= s.accounts[f].balance
    requires INT64_MIN <= r.amount <= INT64_MAX
    requires Wrap64(Spent(s.rows, r.fromId, StartOfDay(t.day), t.bound) + r.amount) <= s.accounts[f].dailyLimit
    requires s'.rows == s.rows + [r] && SameColumns(s.accounts, s'.accounts)
    ensures CapInv(s', t.stamp)
  {
    hide CapInv, Room, Spent, Wrap64;
    NoOverflow(s, t, f, g, r.amount);
    AcceptedFits(s, t, f, r.amount);
    UniqueIsOnly(s.accounts, f);
    AppendKeepsCap(s, s', r, t.day);
  }

  lemma DoneProceeds(c: Config, s: State, who: Caller, req: Request, id: string, t: Readings)
    requires Execute(c, s, who, req, id, t).1.Done?
    ensures var d := Decide(s, who, req, t);
            d.Proceed? && Execute(c, s, who, req, id, t) == Complete(c, s, who, req, id, t.stamp, d.from, d.to)
  {
    hide Decide, Complete;
  }

  lemma CompleteShape(c: Config, s: State, who: Caller, req: Request, id: string, at: int, from: Account, to: Account)
    requires Complete(c, s, who, req, id, at, from, to).1.Done?
    ensures var s' := Complete(c, s, who, req, id, at, from, to).0;
            && s'.rows == s.rows + [Held(NewRow(c, s, who, req, id, at, Completed, from.id, to.id))]
            && SameColumns(s.accounts, s'.accounts)
  {
    hide InsertOk, BalancesFit, NewRow, Held;
  }

  /** The accounts `f` and `g` that a completed transfer moved money between, and the check it passed. */
  lemma CompletedShape(c: Config, s: State, who: Caller, req: Request, id: string, t: Readings) returns (f: nat, g: nat)
    requires Execute(c, s, who, req, id, t).1.Done?
    ensures f < |s.accounts| && g < |s.accounts| && f != g && req.amount <= s.accounts[f].balance
    ensures Execute(c, s, who, req, id, t).0.rows
         == s.rows + [Held(NewRow(c, s, who, req, id, t.stamp, Completed, s.accounts[f].id, s.accounts[g].id))]
    ensures SameColumns(s.accounts, Execute(c, s, who, req, id, t).0.accounts)
    ensures Wrap64(Spent(s.rows, s.accounts[f].id, StartOfDay(t.day), t.bound) + req.amount) <= s.accounts[f].dailyLimit
  {
    hide Decide, Execute, Complete, Spent, Wrap64, NewRow, SameColumns, Held;
    DoneProceeds(c, s, who, req, id, t);
    var d := Decide(s, who, req, t);
    CompleteShape(c, s, who, req, id, t.stamp, d.from, d.to);
    f :| 0 <= f < |s.accounts| && s.accounts[f] == d.from;
    g :| 0 <= g < |s.accounts| && s.accounts[g] == d.to;
  }

  lemma NotCompletedShape(c: Config, s: State, who: Caller, req: Request, id: string, t: Readings)
    requires !Execute(c, s, who, req, id, t).1.Done?
    ensures var (s', o) := Execute(c, s, who, req, id, t);
            && s'.accounts == s.accounts && s'.users == s.users
            && (o.DbError? ==> s' == s)
            && (o.Refused? ==>
                  && |s'.rows| == |s.rows| + 1 && s'.rows[..|s.rows|] == s.rows
                  && s'.rows[|s.rows|].status == Failed && s'.rows[|s.rows|].createdAt == t.stamp)
  {
    hide Decide, InsertOk, Held;
  }

  lemma ExecuteKeepsCap(c: Config, s: State, who: Caller, req: Request, id: string, t: Readings)
    requires Sound(s, t.day) && t.day <= t.bound <= t.stamp
    ensures CapInv(Execute(c, s, who, req, id, t).0, t.stamp)
  {
    hide Execute, CapKept, Room, Spent, InsertOk, Held;
    var (s', o) := Execute(c, s, who, req, id, t);
    if o.Done? {
      var f, g := CompletedShape(c, s, who, req, id, t);
      CompleteKeepsCap(s, s', t, f, g, s'.rows[|s.rows|]);
    } else {
      NotCompletedShape(c, s, who, req, id, t);
      if o.Refused? {
        AppendKeepsCap(s, s', s'.rows[|s.rows|], t.day);
      }
    }
  }

  lemma CreateUserKeepsCap(c: Config, s: State, userId: string, email: string, fullName: string, accountId: string,
                           now: int)
    requires Records(s) && CapInv(s, now)
    ensures CapInv(CreateUser(c, s, userId, email, fullName, accountId).0, now)
  {
    hide AccountNumber, UserRowRefused;
    var (s', o) := CreateUser(c, s, userId, email, fullName, accountId);
    if o.Done? {
      forall d ensures SpentOn(s.rows, accountId, d) == 0 {
        forall i | 0 <= i < |s.rows| ensures !Spends(s.rows[i], accountId, d * DAY, d * DAY + DAY - 1) {
          if s.rows[i].status == Completed {
            var j :| 0 <= j < |s.accounts| && s.accounts[j].id == s.rows[i].fromId;
          }
        }
        SpentNothing(s.rows, accountId, d * DAY, d * DAY + DAY - 1);
      }
    }
  }

  lemma {:induction false} RunKeepsCap(c: Config, s0: State, ops: seq<Op>)
    requires Initial(s0) && Headroom(s0) && ClockOk(ops)
    ensures CapKept(Run(c, s0, ops))
    ensures ops != [] ==> StampsBy(Run(c, s0, ops).rows, ops[|ops| - 1].t.stamp)
    ensures ops == [] ==> Run(c, s0, ops).rows == []
  {
    hide Step, Records, Money, Tables;
    if ops == [] {
      forall i, d | 0 <= i < |s0.accounts| ensures SpentOn(s0.rows, s0.accounts[i].id, d) <= Cap(s0.accounts[i]) {
      }
    } else {
      var front, op := ops[..|ops| - 1], ops[|ops| - 1];
      var s := Run(c, s0, front);
      RunKeepsCap(c, s0, front);
      RunKeepsInv(c, s0, front);
      InvIsSound(c, s0, s, op.t.day);
      StepKeepsCap(c, s, op);
    }
  }

  lemma InvIsSound(c: Config, s0: State, s: State, now: int)
    requires Inv(c, s0, s) && Headroom(s0) && CapInv(s, now)
    ensures Sound(s, now)
  {
    hide CapInv, Room, Records;
    HeadroomLeavesRoom(c, s0, s);
  }

  lemma StepKeepsCap(c: Config, s: State, op: Op)
    requires Sound(s, op.t.day) && op.t.day <= op.t.bound <= op.t.stamp
    ensures CapInv(Step(c, s, op), op.t.stamp)
  {
    hide Execute, CreateUser, CapKept;
    match op
    case CreateUserOp(userId, email, fullName, draw, t) =>
      CreateUserKeepsCap(c, s, userId, email, fullName, NewUuid(draw), t.day);
      SameRowsSameStamps(Step(c, s, op), t.day, t.stamp);
    case ExecuteOp(who, req, draw, t) => ExecuteKeepsCap(c, s, who, req, NewUuid(draw), t);
  }

  lemma SameRowsSameStamps(s: State, now: int, later: int)
    requires CapInv(s, now) && now <= later
    ensures CapInv(s, later)
  {
  }

  /** Every state of a run is sound at its own clock: the transfer that comes next never overflows. */
  lemma ReachableIsSound(c: Config, s0: State, ops: seq<Op>, now: int)
    requires Initial(s0) && Headroom(s0) && ClockOk(ops) && (ops != [] ==> ops[|ops| - 1].t.stamp <= now)
    ensures Sound(Run(c, s0, ops), now)
  {
    hide Run, CapKept, Headroom;
    RunKeepsCap(c, s0, ops);
    RunKeepsInv(c, s0, ops);
    InvIsSound(c, s0, Run(c, s0, ops), now);
  }

  /** In every run with a clock that does not go back, for every account and on every UTC day, the completed
      outgoing amounts stamped on that day never exceed the account's limit. */
  lemma DailyCapHolds(c: Config, s0: State, ops: seq<Op>, i: nat, day: int)
    requires Initial(s0) && Headroom(s0) && ClockOk(ops) && i < |Run(c, s0, ops).accounts|
    ensures var s := Run(c, s0, ops);
            var limit := s.accounts[i].dailyLimit;
            PaidOn(s.rows, s.accounts[i].id, day) <= if limit < 0 then 0 else limit
  {
    hide Run, Headroom, ClockOk, Spent, PaidOn;
    RunKeepsCap(c, s0, ops);
    var s := Run(c, s0, ops);
    SpentOnIsPaidOn(s.rows, s.accounts[i].id, day);
    assert SpentOn(s.rows, s.accounts[i].id, day) <= Cap(s.accounts[i]);
  }
}
