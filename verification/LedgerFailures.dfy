/** Runs that show where the ledger's promises stop: refused transfers that leave no row, a key that cannot be found
    again, and a bank with so much seeded money that the daily check overflows. */
module LedgerFailures {
  import opened Wrappers
  import opened Encoding
  import opened Integers
  import opened LedgerChain
  import opened Ledger
  import opened LedgerRuns
  import opened LedgerLimits
  import opened LedgerHistory
  import opened Columns
  import Text

  // ---- plain texts fit their columns ----

  lemma {:induction false} PaddedDigits(n: nat, width: nat)
    ensures |Padded(n, width)| == width && forall k :: 0 <= k < width ==> '0' <= Padded(n, width)[k] <= '9'
    decreases width
  {
    if width > 0 {
      PaddedDigits(n / 10, width - 1);
    }
  }

  /** The short texts of the requests below. */
  lemma PlainTexts()
    ensures Fits("1", NUMBER_CHARS) && Fits("2", NUMBER_CHARS) && Fits("VND", CURRENCY_CHARS)
    ensures ValidText("") && ValidText("1") && ValidText("2") && ValidText("key")
    ensures Fits("serial", SERIAL_CHARS) && Fits("transfer:create", SCOPE_CHARS)
    ensures Fits("nonce", NONCE_CHARS) && Fits("key", KEY_CHARS)
  {
    hide Fits, ValidText, Cut;
    AsciiFits("1", NUMBER_CHARS);
    AsciiFits("2", NUMBER_CHARS);
    AsciiFits("VND", CURRENCY_CHARS);
    AsciiFits("", NAME_CHARS);
    AsciiFits("serial", SERIAL_CHARS);
    AsciiFits("transfer:create", SCOPE_CHARS);
    AsciiFits("nonce", NONCE_CHARS);
    AsciiFits("key", KEY_CHARS);
  }

  lemma NumberFits(c: Config, userId: string)
    ensures Ascii(AccountNumber(c, userId)) && |AccountNumber(c, userId)| == 12
  {
    PaddedDigits(NumberIndex(c, userId), 10);
  }

  // ---- a self-transfer that leaves no row ----

  const EMPTY := State([], [], [], GENESIS)

  function Opened(c: Config, owner: string, draw: Random16): State
    requires c.uuid(owner).Some?
  {
    var id := c.uuid(owner).value;
    EMPTY.(users := [User(id, "a@b", "A", "active")],
           accounts := [Account(NewUuid(draw), id, AccountNumber(c, owner), OPENING, OPENING, "VND", "active")])
  }

  lemma FirstUser(c: Config, owner: string, draw: Random16)
    requires Text.Trim(owner) == owner != "" && c.uuid(owner).Some?
    ensures CreateUser(c, EMPTY, owner, "a@b", "A", NewUuid(draw)).0 == Opened(c, owner, draw)
  {
    hide AccountNumber, Fits, ValidText, Cut, NewUuid, Text.Trim;
    ShortTexts();
    AsciiFits("a@b", NAME_CHARS);
    AsciiFits("A", NAME_CHARS);
  }

  lemma ShortTexts()
    ensures Text.Trim("a@b") == "a@b" && Text.Trim("A") == "A"
  {
    assert "a@b"[0] == 'a' && "a@b"[2] == 'b' && "A"[0] == 'A';
  }

  lemma OpeningOne(c: Config, owner: string, draw: Random16, t: Readings)
    requires Text.Trim(owner) == owner != "" && c.uuid(owner).Some?
    ensures Run(c, EMPTY, [CreateUserOp(owner, "a@b", "A", draw, t)]) == Opened(c, owner, draw)
  {
    hide CreateUser, Text.Trim, Opened, NewUuid;
    var ops := [CreateUserOp(owner, "a@b", "A", draw, t)];
    assert ops[..0] == [];
    FirstUser(c, owner, draw);
  }

  /** Somebody else asks for a transfer of one unit from the account to itself. */
  function Stranger(c: Config, owner: string): Caller
    requires c.uuid(owner).Some?
  {
    Caller(c.uuid(owner).value + "x", "serial", "transfer:create", "nonce")
  }

  function ToItself(number: string): Request {
    Request(number, number, 1, "VND", "", "key", "", [1])
  }

  lemma AttemptFits(c: Config, owner: string)
    requires c.uuid(owner).Some?
    ensures !Unfit(Stranger(c, owner), ToItself(AccountNumber(c, owner)))
    ensures ValidText("key") && ValidText(AccountNumber(c, owner))
  {
    hide AccountNumber, Fits, ValidText, Cut;
    PlainTexts();
    NumberFits(c, owner);
    AsciiFits(AccountNumber(c, owner), NUMBER_CHARS);
  }

  lemma AttemptRefused(c: Config, owner: string, draw: Random16, id: string, t: Readings)
    requires c.uuid(owner).Some?
    ensures var s, who, req := Opened(c, owner, draw), Stranger(c, owner), ToItself(AccountNumber(c, owner));
            SelfRefusedEarly(s, who, req) && Execute(c, s, who, req, id, t) == (s, DbError)
  {
    hide AccountNumber, Unfit, ColumnsFit, Distinct, Fits, ValidText, Cut, Characters;
    var s, who, req := Opened(c, owner, draw), Stranger(c, owner), ToItself(AccountNumber(c, owner));
    AttemptFits(c, owner);
    assert LoadByNumber(s, AccountNumber(c, owner)) == Some(Loaded(s.accounts[0], "active"));
    assert s.accounts[0].userId != who.clientId;
    assert Decide(s, who, req, t) == Refuse(Forbidden, s.accounts[0].id, s.accounts[0].id);
  }

  /** The attempt is refused for its owner, every text of it fits, its key and nonce are new, and yet no failed
      row is written and the caller gets a database error. */
  lemma SelfTransferLeavesNoRow(c: Config, owner: string, draw: Random16, id: string, at: int)
    requires Text.Trim(owner) == owner != "" && c.uuid(owner).Some?
    ensures var t := Readings(at, at, at);
            var ops := [CreateUserOp(owner, "a@b", "A", draw, t)];
            var s := Run(c, EMPTY, ops);
            var who, req := Stranger(c, owner), ToItself(AccountNumber(c, owner));
            && Initial(EMPTY) && ClockOk(ops)
            && SelfRefusedEarly(s, who, req) && !RowClash(s.rows, who, req, id) && !Unfit(who, req) && req.amount > 0
            && Transfer(c, s, who, req, id, t) == (s, DbError)
  {
    hide AccountNumber, Fits, ValidText, Unfit, Execute, SelfRefusedEarly, Run, Text.Trim;
    var t := Readings(at, at, at);
    OpeningOne(c, owner, draw, t);
    AttemptFits(c, owner);
    AttemptRefused(c, owner, draw, id, t);
    assert Opened(c, owner, draw).rows == [];
  }

  // ---- a text that fits no column ----

  /** A currency of four characters. */
  function LongCurrency(): Request {
    Request("1", "2", 1, "VNDX", "", "key", "", [1])
  }

  /** In an empty bank the account is not found, which should leave a failed row. The currency of the request does
      not fit its column, so no row is written and the caller gets a database error. */
  lemma LongTextLeavesNoRow(c: Config, client: string, id: string, t: Readings)
    ensures var who, req := Caller(client, "serial", "transfer:create", "nonce"), LongCurrency();
            && Decide(EMPTY, who, req, t) == Refuse(AccountNotFound, "", "")
            && Unfit(who, req) && !SelfRefusedEarly(EMPTY, who, req)
            && Transfer(c, EMPTY, who, req, id, t) == (EMPTY, DbError)
  {
    hide ValidText, Fits, Distinct;
    PlainTexts();
    FourCharacters();
  }

  lemma FourCharacters()
    ensures !Fits("VNDX", CURRENCY_CHARS)
  {
    AsciiCut("VNDX", CURRENCY_CHARS);
    assert "VNDX"[3..][0] == 'X';
  }

  // ---- a bank with two seeded accounts ----

  /** Identifiers as `newUUID` draws them: two users and their accounts. */
  function UserId(first: bool): string {
    NewUuid(Draw(if first then 4 else 5))
  }

  function AccountId(first: bool): string {
    NewUuid(Draw(if first then 6 else 7))
  }

  /** Two seeded accounts without an effective limit. */
  function Seeded(x: int, y: int, rows: seq<Row>, head: string): State {
    State([User(UserId(true), "a@b", "A", "active"), User(UserId(false), "b@b", "B", "active")],
          [Account(AccountId(true), UserId(true), "1", x, INT64_MAX, "VND", "active"),
           Account(AccountId(false), UserId(false), "2", y, INT64_MAX, "VND", "active")],
          rows, head)
  }

  lemma SeedIdsDiffer()
    ensures UserId(true) != UserId(false) && AccountId(true) != AccountId(false)
  {
    hide NewUuid;
    DrawsDiffer(4, 5);
    DrawsDiffer(6, 7);
  }

  const MIDNIGHT := Readings(0, 0, 0)

  /** A transfer from the first account, or back to it. */
  function MoveRequest(forth: bool, amount: int64, tag: string): Request {
    Request(if forth then "1" else "2", if forth then "2" else "1", amount, "VND", "", tag, "", [1])
  }

  function MoveCaller(forth: bool, tag: string): Caller {
    Caller(UserId(forth), "serial", "transfer:create", tag)
  }

  function Draw(k: byte): Random16 {
    seq(16, _ => k)
  }

  lemma DrawsDiffer(j: byte, k: byte)
    requires j != k
    ensures NewUuid(Draw(j)) != NewUuid(Draw(k))
  {
    hide Hex;
    assert Draw(j)[0..4][0] == j && Draw(k)[0..4][0] == k;
    if NewUuid(Draw(j)) == NewUuid(Draw(k)) {
      assert NewUuid(Draw(j))[..8] == Hex(Draw(j)[0..4]) && NewUuid(Draw(k))[..8] == Hex(Draw(k)[0..4]);
      HexInjective(Draw(j)[0..4], Draw(k)[0..4]);
    }
  }

  predicate Unused(rows: seq<Row>, id: string, tag: string) {
    forall i :: 0 <= i < |rows| ==>
      rows[i].id != id && rows[i].key != Cut(tag, KEY_CHARS) && rows[i].nonce != Cut(tag, KEY_CHARS)
  }

  lemma TagFits(c: Config, s: State, forth: bool, amount: int64, tag: string, id: string, fromId: string, toId: string)
    requires Fits(tag, KEY_CHARS) && amount > 0 && fromId != toId && Unused(s.rows, id, tag)
    ensures var who, req := MoveCaller(forth, tag), MoveRequest(forth, amount, tag);
            var r := NewRow(c, s, who, req, id, 0, Completed, fromId, toId);
            InsertOk(s.rows, r) && Held(r).key == Held(r).nonce == Cut(tag, KEY_CHARS)
    ensures ValidText("1") && ValidText("2")
  {
    hide Fits, ValidText, Cut, Characters, UserId, AccountId, ChainHash, PayloadHash, Base64;
    PlainTexts();
  }

  /** Its completed row, as later steps see it. */
  ghost predicate RowIs(r: Row, forth: bool, amount: int, tag: string, id: string) {
    && r.status == Completed && r.createdAt == 0 && r.amount == amount && r.id == id
    && r.key == r.nonce == Cut(tag, KEY_CHARS) && r.fromId == AccountId(forth)
  }

  lemma SeededLoads(x: int, y: int, rows: seq<Row>, head: string)
    ensures var s := Seeded(x, y, rows, head);
            && LoadByNumber(s, "1") == Some(Loaded(s.accounts[0], "active"))
            && LoadByNumber(s, "2") == Some(Loaded(s.accounts[1], "active"))
  {
    hide UserId, AccountId;
    SeedIdsDiffer();
    var s := Seeded(x, y, rows, head);
    assert s.accounts[1..][0] == s.accounts[1] && s.users[1..][0] == s.users[1];
  }

  lemma SeededMove(x: int, y: int, rows: seq<Row>, head: string, forth: bool, amount: int)
    ensures var s, m := Seeded(x, y, rows, head), if forth then amount else -amount;
            var debited := Debit(s.accounts, AccountId(forth), amount);
            && debited == Seeded(if forth then x - m else x, if forth then y else y + m, rows, head).accounts
            && Credit(debited, AccountId(!forth), amount) == Seeded(x - m, y + m, rows, head).accounts
  {
    hide UserId, AccountId;
    SeedIdsDiffer();
  }

  lemma MidnightStartsTheDay()
    ensures StartOfDay(0) == 0
  {
  }

  lemma SeededDecides(s: State, x: int, y: int, forth: bool, amount: int64, tag: string)
    requires s == Seeded(x, y, s.rows, s.lastHash) && amount <= (if forth then x else y)
    requires 0 <= Spent(s.rows, AccountId(forth), 0, 0) <= INT64_MAX
    ensures Decide(s, MoveCaller(forth, tag), MoveRequest(forth, amount, tag), MIDNIGHT)
         == Proceed(s.accounts[if forth then 0 else 1], s.accounts[if forth then 1 else 0])
  {
    hide UserId, AccountId, NewUuid, ValidText, Fits, LoadByNumber, Spent, Wrap64, StartOfDay;
    SeedIdsDiffer();
    PlainTexts();
    SeededLoads(x, y, s.rows, s.lastHash);
    MidnightStartsTheDay();
  }

  /** One transfer between them goes through, whatever the true sum of its daily check. */
  lemma SeededStep(c: Config, s: State, x: int, y: int, forth: bool, amount: int64, tag: string, k: byte)
    requires s == Seeded(x, y, s.rows, s.lastHash) && 0 <= x && 0 <= y && x + y <= INT64_MAX
    requires 0 < amount <= (if forth then x else y) && Fits(tag, KEY_CHARS) && Unused(s.rows, NewUuid(Draw(k)), tag)
    requires 0 <= Spent(s.rows, AccountId(forth), 0, 0) <= INT64_MAX
    ensures var (s', o) :=
              Execute(c, s, MoveCaller(forth, tag), MoveRequest(forth, amount, tag), NewUuid(Draw(k)), MIDNIGHT);
            var m: int := if forth then amount else -(amount as int);
            && o == Done(NewUuid(Draw(k)))
            && s' == Seeded(x - m, y + m, s'.rows, s'.lastHash) && |s'.rows| == |s.rows| + 1
            && s'.rows == s.rows + [s'.rows[|s.rows|]]
            && RowIs(s'.rows[|s.rows|], forth, amount, tag, NewUuid(Draw(k)))
  {
    hide UserId, AccountId, InsertOk, Held, NewUuid, Debit, Credit, Unused, Cut, Fits, Decide, ChainHash;
    SeedIdsDiffer();
    TagFits(c, s, forth, amount, tag, NewUuid(Draw(k)), AccountId(forth), AccountId(!forth));
    SeededDecides(s, x, y, forth, amount, tag);
    SeededMove(x, y, s.rows, s.lastHash, forth, amount);
  }

  // ---- a key that cannot be found again ----

  /** As many characters as a key may have, and a blank. */
  function LongKey(): string {
    seq(KEY_CHARS, _ => 'k') + " "
  }

  /** A transfer under that key completes, and its repetition ends in a database error, not in the answer on
      record: the table holds the key without its blank, and the lookup looks for it with the blank. */
  lemma CutKeyNotFoundAgain(c: Config)
    ensures var s0, id := Seeded(1000, 0, [], GENESIS), NewUuid(Draw(1));
            var who, req := MoveCaller(true, LongKey()), MoveRequest(true, 1, LongKey());
            var (s1, o) := Transfer(c, s0, who, req, id, MIDNIGHT);
            && Initial(s0) && o == Done(id) && |s1.rows| == 1 && Recorded(s1.rows, LongKey()).None?
            && forall who', id', t' :: Transfer(c, s1, who', req, id', t') == (s1, DbError)
  {
    hide UserId, AccountId;
    SeedIdsDiffer();
    hide NewUuid, Draw, Spent, Step, Execute, Fits, Cut, ValidText, Characters, Run;
    var s0, who, req := Seeded(1000, 0, [], GENESIS), MoveCaller(true, LongKey()), MoveRequest(true, 1, LongKey());
    LettersAndBlank('k', KEY_CHARS);
    NoneSpent();
    SeededStep(c, s0, 1000, 0, true, 1, LongKey(), 1);
    var s1 := Transfer(c, s0, who, req, NewUuid(Draw(1)), MIDNIGHT).0;
    RunOfNone(c, s0);
    RunOfNone(c, s1);
    forall who', id', t' ensures Transfer(c, s1, who', req, id', t') == (s1, DbError) {
      KeyOutcomeIsFinal(c, s0, [], who, req, NewUuid(Draw(1)), MIDNIGHT, [], who', req, id', t');
    }
  }

  lemma RunOfNone(c: Config, s: State)
    ensures Run(c, s, []) == s
  {
  }

  // ---- a cap that a bank with too much money does not keep ----

  /** All the money forth, all of it back, and one unit more. */
  const OVERFLOWING: seq<Op> := [
    ExecuteOp(MoveCaller(true, "x"), MoveRequest(true, INT64_MAX, "x"), Draw(1), MIDNIGHT),
    ExecuteOp(MoveCaller(false, "y"), MoveRequest(false, INT64_MAX, "y"), Draw(2), MIDNIGHT),
    ExecuteOp(MoveCaller(true, "z"), MoveRequest(true, 1, "z"), Draw(3), MIDNIGHT)]

  /** What each account has spent, so far and on the whole day. */
  ghost predicate Books(rows: seq<Row>, a: int, b: int) {
    && Spent(rows, AccountId(true), 0, 0) == a == Spent(rows, AccountId(true), 0, DAY - 1)
    && Spent(rows, AccountId(false), 0, 0) == b == Spent(rows, AccountId(false), 0, DAY - 1)
  }

  lemma SpentByRow(rows: seq<Row>, r: Row, forth: bool, amount: int, tag: string, id: string, a: int, b: int)
    requires RowIs(r, forth, amount, tag, id) && Books(rows, a, b)
    ensures Books(rows + [r], a + (if forth then amount else 0), b + (if forth then 0 else amount))
  {
    hide UserId, AccountId, Spent;
    SeedIdsDiffer();
    SpentAppend(rows, r, AccountId(true), 0, 0);
    SpentAppend(rows, r, AccountId(true), 0, DAY - 1);
    SpentAppend(rows, r, AccountId(false), 0, 0);
    SpentAppend(rows, r, AccountId(false), 0, DAY - 1);
  }

  lemma NoneSpent()
    ensures Books([], 0, 0) && Spent([], AccountId(true), 0, 0) == 0
  {
    hide AccountId;
  }

  lemma RunOne(c: Config, s: State, ops: seq<Op>, n: nat)
    requires n < |ops| && ops[n].ExecuteOp?
    ensures var op := ops[n];
            Run(c, s, ops[..n + 1]) == Execute(c, Run(c, s, ops[..n]), op.who, op.req, NewUuid(op.draw), op.t).0
  {
    hide Execute, NewUuid;
    assert ops[..n + 1][..n] == ops[..n];
  }

  lemma BackAndForth(c: Config)
    ensures var s := Run(c, Seeded(INT64_MAX, 0, [], GENESIS), OVERFLOWING[..2]);
            && s == Seeded(INT64_MAX, 0, s.rows, s.lastHash) && |s.rows| == 2 && Books(s.rows, INT64_MAX, INT64_MAX)
            && RowIs(s.rows[0], true, INT64_MAX, "x", NewUuid(Draw(1)))
            && RowIs(s.rows[1], false, INT64_MAX, "y", NewUuid(Draw(2)))
  {
    hide UserId, AccountId, Run, Spent, NewUuid, Draw, DAY, Execute, Fits, Cut;
    AsciiFits("x", KEY_CHARS);
    AsciiFits("y", KEY_CHARS);
    DrawsDiffer(1, 2);
    var ops, s0 := OVERFLOWING, Seeded(INT64_MAX, 0, [], GENESIS);
    NoSteps(c, s0, ops);
    NoneSpent();
    RunOne(c, s0, ops, 0);
    SeededStep(c, s0, INT64_MAX, 0, true, INT64_MAX, "x", 1);
    var s1 := Run(c, s0, ops[..1]);
    assert s1.rows == [] + [s1.rows[0]];
    SpentByRow([], s1.rows[0], true, INT64_MAX, "x", NewUuid(Draw(1)), 0, 0);
    RunOne(c, s0, ops, 1);
    SeededStep(c, s1, 0, INT64_MAX, false, INT64_MAX, "y", 2);
    SpentByRow(s1.rows, Run(c, s0, ops[..2]).rows[1], false, INT64_MAX, "y", NewUuid(Draw(2)), INT64_MAX, 0);
  }

  /** The three steps and what they leave of the limit; the third passes because its sum wraps around. */
  lemma OverflowingSteps(c: Config)
    ensures var s := Run(c, Seeded(INT64_MAX, 0, [], GENESIS), OVERFLOWING);
            Books(s.rows, INT64_MAX + 1, INT64_MAX) && s.accounts == Seeded(INT64_MAX - 1, 1, [], "").accounts
  {
    hide UserId, AccountId, Run, Spent, NewUuid, Draw, DAY, Execute, Fits, Cut;
    AsciiFits("x", KEY_CHARS);
    AsciiFits("y", KEY_CHARS);
    AsciiFits("z", KEY_CHARS);
    DrawsDiffer(1, 3);
    DrawsDiffer(2, 3);
    var ops, s0 := OVERFLOWING, Seeded(INT64_MAX, 0, [], GENESIS);
    BackAndForth(c);
    RunOne(c, s0, ops, 2);
    var s2 := Run(c, s0, ops[..2]);
    SeededStep(c, s2, INT64_MAX, 0, true, 1, "z", 3);
    var s3 := Run(c, s0, ops[..3]);
    SpentByRow(s2.rows, s3.rows[2], true, 1, "z", NewUuid(Draw(3)), INT64_MAX, INT64_MAX);
    assert ops[..3] == ops;
  }

  lemma NoSteps(c: Config, s: State, ops: seq<Op>)
    ensures Run(c, s, ops[..0]) == s
  {
  }

  /** Without headroom the daily cap fails: a run from a bank whose two accounts hold 2^63 - 1 and have that
      limit spends one unit more than the limit on one day. */
  lemma CapBrokenByOverflow(c: Config)
    ensures var s0 := Seeded(INT64_MAX, 0, [], GENESIS);
            var s := Run(c, s0, OVERFLOWING);
            && Initial(s0) && ClockOk(OVERFLOWING) && !Headroom(s0)
            && s.accounts == Seeded(INT64_MAX - 1, 1, [], "").accounts
            && PaidOn(s.rows, AccountId(true), 0) == 0x7FFF_FFFF_FFFF_FFFF + 1
    ensures var a := Seeded(INT64_MAX - 1, 1, [], "").accounts[0];
            a.id == AccountId(true) && a.dailyLimit == 0x7FFF_FFFF_FFFF_FFFF
  {
    hide UserId, AccountId, Run, Spent;
    SeedIdsDiffer();
    var s0 := Seeded(INT64_MAX, 0, [], GENESIS);
    OverflowingSteps(c);
    SpentOnIsPaidOn(Run(c, s0, OVERFLOWING).rows, AccountId(true), 0);
    TotalOfTwo(INT64_MAX, 0);
  }

  lemma TotalOfTwo(x: int, y: int)
    ensures Total(Seeded(x, y, [], GENESIS).accounts) == x + y
  {
    hide UserId, AccountId;
    SeedIdsDiffer();
    var xs := Balances(Seeded(x, y, [], GENESIS).accounts);
    assert xs == [x, y] && xs[..1] == [x] && [x][..0] == [];
    assert Sum([x]) == Sum([]) + x && Sum(xs) == Sum([x]) + y;
  }
}
