/** The hash chain through the `transactions` table: what a row's hash covers, when rows form one
    unbroken chain from "genesis" to the ledger head, and what the head then determines. */
module LedgerChain {
  import opened Wrappers
  import opened Encoding

  const GENESIS := "genesis"

  datatype RowStatus = Completed | Failed

  /** One row of `transactions`. An empty account id stands for SQL NULL. */
  datatype Row = Row(
    id: string, fromId: string, toId: string, fromNumber: string, toNumber: string,
    amount: int, currency: string, status: RowStatus, description: string,
    payloadHash: string, signature: string, certSerial: string, scope: string, nonce: string,
    key: string, previousHash: string, currentHash: string, createdAt: int)

  /** Left open: the hash function, the text form of a clock reading (RFC3339Nano), and what the database
      reads a text as when it takes it for a UUID, in canonical form. */
  datatype Config = Config(hash: HashFn, timeText: int -> string, uuid: string -> Option<string>)

  function PayloadHash(c: Config, canonical: string): string {
    Hex(c.hash(canonical))
  }

  function ChainInput(c: Config, previous: string, payload: string, signature: string, id: string, at: int): string {
    previous + payload + signature + id + c.timeText(at)
  }

  function ChainHash(c: Config, previous: string, payload: string, signature: string, id: string, at: int): string {
    Hex(c.hash(ChainInput(c, previous, payload, signature, id, at)))
  }

  function RowInput(c: Config, r: Row): string {
    ChainInput(c, r.previousHash, r.payloadHash, r.signature, r.id, r.createdAt)
  }

  ghost predicate RowOk(c: Config, r: Row) {
    && IsHex64(r.payloadHash) && Free(r.signature, '-') && IsUuid(r.id)
    && r.currentHash == Hex(c.hash(RowInput(c, r)))
  }

  /** `rows` is one unbroken chain that starts at genesis and ends in `head`. */
  ghost predicate ChainTo(c: Config, rows: seq<Row>, head: string) {
    if rows == [] then head == GENESIS
    else
      var last := rows[|rows| - 1];
      RowOk(c, last) && last.currentHash == head && ChainTo(c, rows[..|rows| - 1], last.previousHash)
  }

  /** Two different recorded inputs with one hash, each taken from a row of its own ledger. */
  ghost predicate Collide(c: Config, a: Row, b: Row) {
    RowInput(c, a) != RowInput(c, b) && c.hash(RowInput(c, a)) == c.hash(RowInput(c, b))
  }

  ghost predicate Colliding(c: Config, xs: seq<Row>, ys: seq<Row>) {
    exists i, j :: 0 <= i < |xs| && 0 <= j < |ys| && Collide(c, xs[i], ys[j])
  }

  /** The fields a row's hash covers. */
  ghost predicate SameCovered(c: Config, a: Row, b: Row) {
    && a.previousHash == b.previousHash && a.payloadHash == b.payloadHash
    && a.signature == b.signature && a.id == b.id
    && c.timeText(a.createdAt) == c.timeText(b.createdAt)
    && a.currentHash == b.currentHash
  }

  lemma ChainHeadForm(c: Config, rows: seq<Row>, head: string)
    requires ChainTo(c, rows, head)
    ensures if rows == [] then head == GENESIS else IsHex64(head) && head != GENESIS
  {
  }

  /** The first dash of signature ‖ id ‖ time stands eight characters after the signature. */
  lemma FirstDash(s: string, id: string, t: string, x: string)
    requires Free(s, '-') && IsUuid(id) && x == s + (id + t)
    ensures |s| + 8 < |x| && x[|s| + 8] == '-'
    ensures forall k :: 0 <= k < |s| + 8 ==> x[k] != '-'
  {
    forall k | 0 <= k < |s| + 8 ensures x[k] != '-' {
      assert x[k] == if k < |s| then s[k] else id[..8][k - |s|];
    }
  }

  /** The part of a hash input after the previous hash. */
  function Tail(c: Config, r: Row): string {
    r.payloadHash + (r.signature + (r.id + c.timeText(r.createdAt)))
  }

  lemma TailParses(c: Config, a: Row, b: Row)
    requires RowOk(c, a) && RowOk(c, b) && Tail(c, a) == Tail(c, b)
    ensures a.payloadHash == b.payloadHash && a.signature == b.signature && a.id == b.id
    ensures c.timeText(a.createdAt) == c.timeText(b.createdAt)
  {
    var ta, tb := c.timeText(a.createdAt), c.timeText(b.createdAt);
    SplitAt(a.payloadHash, a.signature + (a.id + ta), b.payloadHash, b.signature + (b.id + tb));
    FirstDash(a.signature, a.id, ta, a.signature + (a.id + ta));
    FirstDash(b.signature, b.id, tb, b.signature + (b.id + tb));
    SplitAt(a.signature, a.id + ta, b.signature, b.id + tb);
    SplitAt(a.id, ta, b.id, tb);
  }

  lemma InputIsPreviousAndTail(c: Config, r: Row)
    ensures RowInput(c, r) == r.previousHash + Tail(c, r)
  {
    var p, q, u, v, w := r.previousHash, r.payloadHash, r.signature, r.id, c.timeText(r.createdAt);
    assert p + q + u + v + w == p + (q + (u + (v + w)));
  }

  /** The concatenated hash input parses in one way only. */
  lemma InputParses(c: Config, a: Row, b: Row)
    requires RowOk(c, a) && RowOk(c, b)
    requires a.previousHash == GENESIS || IsHex64(a.previousHash)
    requires b.previousHash == GENESIS || IsHex64(b.previousHash)
    requires RowInput(c, a) == RowInput(c, b)
    ensures SameCovered(c, a, b)
  {
    InputIsPreviousAndTail(c, a);
    InputIsPreviousAndTail(c, b);
    assert RowInput(c, a)[0] == a.previousHash[0] && RowInput(c, b)[0] == b.previousHash[0];
    assert GENESIS[0] == 'g';
    SplitAt(a.previousHash, Tail(c, a), b.previousHash, Tail(c, b));
    TailParses(c, a, b);
  }

  lemma CollidingGrows(c: Config, xs: seq<Row>, ys: seq<Row>, m: nat, n: nat)
    requires m <= |xs| && n <= |ys|
    ensures Colliding(c, xs[..m], ys[..n]) ==> Colliding(c, xs, ys)
  {
    hide Collide;
    if Colliding(c, xs[..m], ys[..n]) {
      var i, j :| 0 <= i < m && 0 <= j < n && Collide(c, xs[..m][i], ys[..n][j]);
      assert Collide(c, xs[i], ys[j]);
    }
  }

  lemma SameLasts(c: Config, xs: seq<Row>, ys: seq<Row>, n: nat)
    requires |xs| == |ys| == n + 1 && SameCovered(c, xs[n], ys[n])
    requires forall i :: 0 <= i < n ==> SameCovered(c, xs[..n][i], ys[..n][i])
    ensures forall i :: 0 <= i < |xs| ==> SameCovered(c, xs[i], ys[i])
  {
    hide SameCovered;
    forall i | 0 <= i < |xs| ensures SameCovered(c, xs[i], ys[i]) {
      if i < n {
        assert SameCovered(c, xs[..n][i], ys[..n][i]);
      }
    }
  }

  /** Two rows with one hash collide or parse alike. */
  lemma SameHashSameFields(c: Config, a: Row, b: Row)
    requires RowOk(c, a) && RowOk(c, b) && a.currentHash == b.currentHash
    requires a.previousHash == GENESIS || IsHex64(a.previousHash)
    requires b.previousHash == GENESIS || IsHex64(b.previousHash)
    ensures Collide(c, a, b) || SameCovered(c, a, b)
  {
    hide RowInput;
    HexInjective(c.hash(RowInput(c, a)), c.hash(RowInput(c, b)));
    if RowInput(c, a) == RowInput(c, b) {
      InputParses(c, a, b);
    }
  }

  /** The head fixes the history: chains with one head agree row by row on every covered field, or a
      hash collision between two recorded rows can be pointed at. */
  lemma {:induction false} HeadFixesRows(c: Config, xs: seq<Row>, ys: seq<Row>, head: string)
    requires ChainTo(c, xs, head) && ChainTo(c, ys, head)
    ensures || Colliding(c, xs, ys)
            || (|xs| == |ys| && forall i :: 0 <= i < |xs| ==> SameCovered(c, xs[i], ys[i]))
    decreases |xs|
  {
    hide RowOk, Collide, Colliding, SameCovered, IsHex64;
    ChainHeadForm(c, xs, head);
    ChainHeadForm(c, ys, head);
    if xs != [] && ys != [] {
      var m, n := |xs| - 1, |ys| - 1;
      var a, b := xs[m], ys[n];
      ChainHeadForm(c, xs[..m], a.previousHash);
      ChainHeadForm(c, ys[..n], b.previousHash);
      SameHashSameFields(c, a, b);
      if Collide(c, a, b) {
        assert Colliding(c, xs, ys) by { LastsCollide(c, xs, ys); }
      } else {
        SameCoveredLinks(c, a, b);
        HeadFixesRows(c, xs[..m], ys[..n], a.previousHash);
        CollidingGrows(c, xs, ys, m, n);
        if !Colliding(c, xs, ys) {
          SameLasts(c, xs, ys, m);
        }
      }
    }
  }

  lemma SameCoveredLinks(c: Config, a: Row, b: Row)
    requires SameCovered(c, a, b)
    ensures a.previousHash == b.previousHash
  {
  }

  lemma LastsCollide(c: Config, xs: seq<Row>, ys: seq<Row>)
    requires xs != [] && ys != [] && Collide(c, xs[|xs| - 1], ys[|ys| - 1])
    ensures Colliding(c, xs, ys)
  {
  }
}
