/** The AP exchange in front of the bank: requests that are let in, and a replay store that remembers them for a
    limited time. Requests interleave freely between the two steps. */
module ApExchange {
  import opened Wrappers
  import opened Encoding
  import opened Integers
  import opened ApAuthorize

  const REPLAY_TTL: int := 300 * SECOND

  function Decimal(n: int): string
    decreases n < 0, if n < 0 then -n else n
  {
    if n < 0 then "-" + Decimal(-n)
    else if n < 10 then ['0' + n as char]
    else Decimal(n / 10) + ['0' + (n % 10) as char]
  }

  /** The text under which a request is remembered, as a digest. */
  function ReplayText(a: Authenticator): string {
    a.clientId + "|" + a.nonce + "|" + Decimal(a.timestamp) + "|" + a.requestId
  }

  function ReplayKey(h: HashFn, a: Authenticator): string {
    "replay:bank:" + Hex(h(ReplayText(a)))
  }

  // ---- the replay store ----

  /** Each key with the last instant at which it is still there. */
  type Keys = map<string, int>

  predicate Live(keys: Keys, key: string, now: int) {
    key in keys && now <= keys[key]
  }

  // ---- interleaved requests ----

  datatype Flow = Authorized(who: Authenticator, at: int) | Closed

  datatype Accept = Accept(who: Authenticator, authorizedAt: int, markedAt: int)

  datatype System = System(keys: Keys, flows: seq<Flow>, accepted: seq<Accept>)

  datatype Op =
    | Begin(request: Request, scope: string, t: Glances)
    | Mark(k: nat, at: int)

  /** `SET key 1 NX EX ttl`; a request that sets its key is accepted, any other is a replay. */
  function Step(h: HashFn, s: System, op: Op): System {
    match op
    case Begin(r, scope, t) =>
      if Authorize(r, scope, t).None?
      then s.(flows := s.flows + [Authorized(r.authenticator.value, t.now)])
      else s
    case Mark(k, now) =>
      if k >= |s.flows| || s.flows[k].Closed? then s
      else
        var f := s.flows[k];
        var key := ReplayKey(h, f.who);
        var s' := s.(flows := s.flows[k := Closed]);
        if Live(s.keys, key, now) then s'
        else s'.(keys := s.keys[key := now + REPLAY_TTL], accepted := s.accepted + [Accept(f.who, f.at, now)])
  }

  function Run(h: HashFn, ops: seq<Op>): System {
    if ops == [] then System(map[], [], []) else Step(h, Run(h, ops[..|ops| - 1]), ops[|ops| - 1])
  }

  function End(op: Op): int {
    if op.Begin? then op.t.last else op.at
  }

  /** Steps take effect in the order of their last readings; calls may overlap, so nothing is said of a call's
      earlier readings but their order within it. */
  ghost predicate ClockOk(ops: seq<Op>) {
    && (forall i :: 0 <= i < |ops| && ops[i].Begin? ==> Ordered(ops[i].t))
    && forall i :: 0 < i < |ops| ==> End(ops[i - 1]) <= End(ops[i])
  }

  ghost predicate Inv(h: HashFn, s: System, now: int) {
    && (forall i :: 0 <= i < |s.flows| && s.flows[i].Authorized? ==>
          Fresh(s.flows[i].who, s.flows[i].at) && s.flows[i].at <= now)
    && (forall i :: 0 <= i < |s.accepted| ==>
          var a := s.accepted[i];
          && Fresh(a.who, a.authorizedAt) && a.authorizedAt <= a.markedAt <= now
          && ReplayKey(h, a.who) in s.keys && a.markedAt + REPLAY_TTL <= s.keys[ReplayKey(h, a.who)])
    && (forall i, j :: 0 <= i < j < |s.accepted| ==>
          ReplayKey(h, s.accepted[i].who) == ReplayKey(h, s.accepted[j].who) ==>
          s.accepted[i].markedAt + REPLAY_TTL < s.accepted[j].markedAt)
  }

  lemma StepKeepsInv(h: HashFn, s: System, op: Op, now: int)
    requires Inv(h, s, now) && now <= End(op) && (op.Begin? ==> Ordered(op.t))
    ensures Inv(h, Step(h, s, op), End(op))
  {
    hide ReplayKey, Fresh;
    AuthorizedIsFresh(op);
  }

  lemma AuthorizedIsFresh(op: Op)
    ensures op.Begin? && Authorize(op.request, op.scope, op.t).None? ==>
      Fresh(op.request.authenticator.value, op.t.now)
  {
    hide CertAccepted;
  }

  lemma {:induction false} RunKeepsInv(h: HashFn, ops: seq<Op>)
    requires ClockOk(ops)
    ensures ops == [] ==> Run(h, ops) == System(map[], [], [])
    ensures ops != [] ==> Inv(h, Run(h, ops), End(ops[|ops| - 1]))
  {
    if ops != [] {
      var front, op := ops[..|ops| - 1], ops[|ops| - 1];
      RunKeepsInv(h, front);
      assert front != [] ==> End(front[|front| - 1]) <= End(op);
      StepKeepsInv(h, Run(h, front), op, if front == [] then End(op) else End(front[|front| - 1]));
    }
  }

  /** Two acceptances under one key are more than the lifetime of the key apart. */
  lemma AcceptancesApart(h: HashFn, ops: seq<Op>, i: nat, j: nat)
    requires ClockOk(ops) && i < j < |Run(h, ops).accepted|
    requires ReplayKey(h, Run(h, ops).accepted[i].who) == ReplayKey(h, Run(h, ops).accepted[j].who)
    ensures Run(h, ops).accepted[i].markedAt + 300_000_000_000 < Run(h, ops).accepted[j].markedAt
  {
    hide ReplayKey;
    RunKeepsInv(h, ops);
  }

  /** At most once: whatever interleaves, an authenticator accepted when the clock had already reached its
      timestamp, plus the longest time `delay` a request takes from its freshness check to its mark, is never
      accepted again. With no delay between check and mark it is enough that the timestamp was not ahead of
      the clock. The two windows are equal, so nothing is left over for the delay. */
  lemma AcceptedAtMostOnce(h: HashFn, ops: seq<Op>, i: nat, j: nat, delay: nat)
    requires ClockOk(ops)
    requires var accepted := Run(h, ops).accepted;
             && i < j < |accepted| && accepted[j].markedAt <= accepted[j].authorizedAt + delay
             && Stamp(accepted[i].who) + delay <= accepted[i].markedAt
    ensures Run(h, ops).accepted[i].who != Run(h, ops).accepted[j].who
  {
    hide ReplayKey;
    RunKeepsInv(h, ops);
    var b := Run(h, ops).accepted[j];
    FreshExactly(b.who, b.authorizedAt);
  }

  // ---- where acceptances come from ----

  /** The run let the authenticator in at `at`, by a request that may enter. */
  ghost predicate LetIn(ops: seq<Op>, who: Authenticator, at: int) {
    exists j :: 0 <= j < |ops| && LetInBy(ops[j], who, at)
  }

  ghost predicate LetInBy(op: Op, who: Authenticator, at: int) {
    op.Begin? && op.t.now == at && op.request.authenticator == Some(who) && MayEnter(op.request, op.scope, op.t)
  }

  lemma LetInLater(ops: seq<Op>, op: Op, who: Authenticator, at: int)
    requires LetIn(ops, who, at)
    ensures LetIn(ops + [op], who, at)
  {
    hide LetInBy;
    var j :| 0 <= j < |ops| && LetInBy(ops[j], who, at);
    assert (ops + [op])[j] == ops[j];
  }

  lemma LastLetIn(ops: seq<Op>, op: Op)
    requires op.Begin? && MayEnter(op.request, op.scope, op.t)
    ensures op.request.authenticator.Some? && LetIn(ops + [op], op.request.authenticator.value, op.t.now)
  {
    hide TicketStands, WithinWindow, CertStands;
    assert (ops + [op])[|ops|] == op;
  }

  ghost predicate AllLetIn(ops: seq<Op>, s: System) {
    && (forall i :: 0 <= i < |s.accepted| ==> LetIn(ops, s.accepted[i].who, s.accepted[i].authorizedAt))
    && (forall i :: 0 <= i < |s.flows| && s.flows[i].Authorized? ==> LetIn(ops, s.flows[i].who, s.flows[i].at))
  }

  lemma AllLetInLater(ops: seq<Op>, op: Op, s: System)
    requires AllLetIn(ops, s)
    ensures AllLetIn(ops + [op], s)
  {
    hide LetIn;
    forall who, at | LetIn(ops, who, at) ensures LetIn(ops + [op], who, at) {
      LetInLater(ops, op, who, at);
    }
  }

  lemma StepLetsIn(h: HashFn, s: System, op: Op, ops: seq<Op>)
    requires AllLetIn(ops, s) && (op.Begin? && Authorize(op.request, op.scope, op.t).None? ==>
      op.request.authenticator.Some? && LetIn(ops, op.request.authenticator.value, op.t.now))
    ensures AllLetIn(ops, Step(h, s, op))
  {
    hide LetIn, ReplayKey, Authorize;
  }

  lemma {:induction false} RunLetsIn(h: HashFn, ops: seq<Op>)
    requires ClockOk(ops)
    ensures AllLetIn(ops, Run(h, ops))
  {
    hide MayEnter, Authorize, LetIn, Step;
    if ops != [] {
      var front, op := ops[..|ops| - 1], ops[|ops| - 1];
      assert ops == front + [op];
      RunLetsIn(h, front);
      AllLetInLater(front, op, Run(h, front));
      if op.Begin? && Authorize(op.request, op.scope, op.t).None? {
        AuthorizeExactly(op.request, op.scope, op.t);
        LastLetIn(front, op);
      }
      StepLetsIn(h, Run(h, front), op, ops);
    }
  }

  /** Every acceptance of a run was let in by a request of it that may enter. */
  lemma EveryAcceptanceLetIn(h: HashFn, ops: seq<Op>, i: nat)
    requires ClockOk(ops) && i < |Run(h, ops).accepted|
    ensures var a := Run(h, ops).accepted[i];
            exists j :: 0 <= j < |ops| && LetInBy(ops[j], a.who, a.authorizedAt)
  {
    hide Run, LetInBy;
    RunLetsIn(h, ops);
    var a := Run(h, ops).accepted[i];
    assert LetIn(ops, a.who, a.authorizedAt);
  }

  // ---- which requests share a key ----

  /** The number that a decimal text writes. */
  function Number(s: string): int {
    if s == "" then 0
    else if s[0] == '-' then -DecimalValue(s[1..])
    else DecimalValue(s)
  }

  lemma {:induction false} DecimalExactly(n: nat)
    ensures Decimal(n) != "" && Decimal(n)[0] != '-' && DecimalValue(Decimal(n)) == n
    ensures forall k :: 0 <= k < |Decimal(n)| ==> '0' <= Decimal(n)[k] <= '9'
    decreases n
  {
    if n >= 10 {
      DecimalExactly(n / 10);
      var s := Decimal(n);
      assert s[..|s| - 1] == Decimal(n / 10);
    } else {
      assert Decimal(n)[..0] == "";
    }
  }

  lemma NumberExactly(n: int)
    ensures Number(Decimal(n)) == n && Free(Decimal(n), '|')
  {
    if n < 0 {
      DecimalExactly(-n);
      assert Decimal(n)[1..] == Decimal(-n);
    } else {
      DecimalExactly(n);
    }
  }

  /** No field holds the character that stands between them. */
  ghost predicate Barless(a: Authenticator) {
    Free(a.clientId, '|') && Free(a.nonce, '|') && Free(a.requestId, '|')
  }

  lemma CutAtBar(a: string, x: string, b: string, y: string)
    requires Free(a, '|') && Free(b, '|') && a + ("|" + x) == b + ("|" + y)
    ensures a == b && x == y
  {
    var s := a + ("|" + x);
    assert forall k :: 0 <= k < |a| ==> s[k] == a[k];
    assert forall k :: 0 <= k < |b| ==> s[k] == b[k];
    assert s[|a|] == '|' && s[|b|] == '|';
    SplitAt(a, "|" + x, b, "|" + y);
    SplitAt("|", x, "|", y);
  }

  /** A key is the digest of that text under the name of the service. */
  lemma KeyExactly(h: HashFn, a: Authenticator)
    ensures ReplayKey(h, a)[..12] == "replay:bank:" && ReplayKey(h, a)[12..] == Hex(h(ReplayText(a)))
  {
    hide Hex;
  }

  /** Two different authenticators without that character are remembered under different keys, or the hash
      collides: none blocks the other. */
  lemma KeysDiffer(h: HashFn, a: Authenticator, b: Authenticator)
    requires Barless(a) && Barless(b) && a != b
    ensures ReplayKey(h, a) != ReplayKey(h, b)
         || (ReplayText(a) != ReplayText(b) && h(ReplayText(a)) == h(ReplayText(b)))
  {
    hide Decimal, Number, Hex, DecimalValue;
    if ReplayKey(h, a) == ReplayKey(h, b) {
      SplitAt("replay:bank:", Hex(h(ReplayText(a))), "replay:bank:", Hex(h(ReplayText(b))));
      HexInjective(h(ReplayText(a)), h(ReplayText(b)));
      if ReplayText(a) == ReplayText(b) {
        TextParses(a, b);
      }
    }
  }

  lemma TextParses(a: Authenticator, b: Authenticator)
    requires Barless(a) && Barless(b) && ReplayText(a) == ReplayText(b)
    ensures a == b
  {
    hide Decimal, Number, DecimalValue;
    NumberExactly(a.timestamp);
    NumberExactly(b.timestamp);
    var da, db := Decimal(a.timestamp), Decimal(b.timestamp);
    var ta, tb := da + ("|" + a.requestId), db + ("|" + b.requestId);
    assert ReplayText(a) == a.clientId + ("|" + (a.nonce + ("|" + ta)));
    assert ReplayText(b) == b.clientId + ("|" + (b.nonce + ("|" + tb)));
    CutAtBar(a.clientId, a.nonce + ("|" + ta), b.clientId, b.nonce + ("|" + tb));
    CutAtBar(a.nonce, ta, b.nonce, tb);
    CutAtBar(da, a.requestId, db, b.requestId);
  }

  /** With the character in a field two different requests can share a key, and the second is taken for a replay. */
  lemma BarsConfuse(h: HashFn, timestamp: int64)
    ensures var a, b := Authenticator("c", "n|m", "r", timestamp), Authenticator("c|n", "m", "r", timestamp);
            a != b && ReplayKey(h, a) == ReplayKey(h, b)
  {
    hide Decimal, Hex;
    var a, b := Authenticator("c", "n|m", "r", timestamp), Authenticator("c|n", "m", "r", timestamp);
    assert a.clientId[..] != b.clientId;
    assert "c" + "|" + "n|m" == "c|n" + "|" + "m";
  }

  // ---- when a request is accepted again ----

  ghost predicate LatestOfKey(h: HashFn, s: System, i: nat)
    requires i < |s.accepted|
  {
    forall j :: i < j < |s.accepted| ==> ReplayKey(h, s.accepted[j].who) != ReplayKey(h, s.accepted[i].who)
  }

  /** The store remembers the latest acceptance under each key, to the instant. */
  ghost predicate Remembers(h: HashFn, s: System) {
    forall i :: 0 <= i < |s.accepted| && LatestOfKey(h, s, i) ==>
      var key := ReplayKey(h, s.accepted[i].who);
      key in s.keys && s.keys[key] == s.accepted[i].markedAt + REPLAY_TTL
  }

  lemma AcceptRemembers(h: HashFn, s: System, s': System, a: Accept)
    requires Remembers(h, s) && s'.accepted == s.accepted + [a]
    requires s'.keys == s.keys[ReplayKey(h, a.who) := a.markedAt + REPLAY_TTL]
    ensures Remembers(h, s')
  {
    hide ReplayKey;
    forall i | 0 <= i < |s.accepted| && LatestOfKey(h, s', i)
      ensures LatestOfKey(h, s, i) && ReplayKey(h, s.accepted[i].who) != ReplayKey(h, a.who)
    {
      assert forall j :: 0 <= j < |s.accepted| ==> s'.accepted[j] == s.accepted[j];
      assert s'.accepted[|s.accepted|] == a;
    }
  }

  lemma SameRemembers(h: HashFn, s: System, s': System)
    requires Remembers(h, s) && s'.accepted == s.accepted && s'.keys == s.keys
    ensures Remembers(h, s')
  {
    hide ReplayKey;
    assert forall i :: 0 <= i < |s.accepted| ==> LatestOfKey(h, s', i) == LatestOfKey(h, s, i);
  }

  lemma StepRemembers(h: HashFn, s: System, op: Op)
    requires Remembers(h, s)
    ensures Remembers(h, Step(h, s, op))
  {
    hide ReplayKey, Authorize, Remembers;
    var s' := Step(h, s, op);
    if s'.accepted == s.accepted {
      SameRemembers(h, s, s');
    } else {
      AcceptRemembers(h, s, s', s'.accepted[|s.accepted|]);
    }
  }

  lemma {:induction false} RunRemembers(h: HashFn, ops: seq<Op>)
    ensures Remembers(h, Run(h, ops))
  {
    hide Step;
    if ops != [] {
      RunRemembers(h, ops[..|ops| - 1]);
      StepRemembers(h, Run(h, ops[..|ops| - 1]), ops[|ops| - 1]);
    }
  }

  lemma RunOne(h: HashFn, ops: seq<Op>, op: Op)
    ensures Run(h, ops + [op]) == Step(h, Run(h, ops), op)
  {
    hide Step;
    assert (ops + [op])[..|ops|] == ops;
  }

  predicate Passes(r: Request, scope: string, t: int) {
    Authorize(r, scope, Glances(t, t, t, t)).None?
  }

  /** The run goes on with the request `r`, checked at `t` and marked at `u`. */
  function Retry(h: HashFn, ops: seq<Op>, r: Request, scope: string, t: int, u: int): seq<Op> {
    ops + [Begin(r, scope, Glances(t, t, t, t))] + [Mark(|Run(h, ops).flows|, u)]
  }

  /** That run keeps the clock, the request takes at most `delay` from check to mark, and it is accepted. */
  ghost predicate AcceptedAgain(h: HashFn, ops: seq<Op>, r: Request, scope: string, delay: nat, t: int, u: int)
    requires r.authenticator.Some?
  {
    && ClockOk(Retry(h, ops, r, scope, t, u)) && u <= t + delay
    && Run(h, Retry(h, ops, r, scope, t, u)).accepted == Run(h, ops).accepted + [Accept(r.authenticator.value, t, u)]
  }

  lemma RetryAccepted(h: HashFn, ops: seq<Op>, r: Request, scope: string, t: int, u: int)
    requires r.authenticator.Some?
    ensures Run(h, Retry(h, ops, r, scope, t, u)).accepted
              == Run(h, ops).accepted + [Accept(r.authenticator.value, t, u)]
       <==> Passes(r, scope, t) && !Live(Run(h, ops).keys, ReplayKey(h, r.authenticator.value), u)
  {
    hide ReplayKey, Authorize, Run;
    var s, begin := Run(h, ops), Begin(r, scope, Glances(t, t, t, t));
    RunOne(h, ops, begin);
    RunOne(h, ops + [begin], Mark(|s.flows|, u));
  }

  lemma RetryInTime(h: HashFn, ops: seq<Op>, r: Request, scope: string, t: int, u: int)
    requires ClockOk(ops) && ops != []
    ensures ClockOk(Retry(h, ops, r, scope, t, u)) <==> End(ops[|ops| - 1]) <= t <= u
  {
    hide Run;
    var longer := Retry(h, ops, r, scope, t, u);
    assert forall i :: 0 <= i < |ops| ==> longer[i] == ops[i];
    assert longer[|ops|].t == Glances(t, t, t, t) && longer[|ops| + 1].at == u;
  }

  /** What the store knows of the latest acceptance of a key. */
  lemma LatestRemembered(h: HashFn, ops: seq<Op>, i: nat)
    requires i < |Run(h, ops).accepted| && LatestOfKey(h, Run(h, ops), i)
    ensures var s := Run(h, ops);
            var a := s.accepted[i];
            ReplayKey(h, a.who) in s.keys && s.keys[ReplayKey(h, a.who)] == a.markedAt + REPLAY_TTL
  {
    hide ReplayKey, Run, LatestOfKey;
    RunRemembers(h, ops);
  }

  /** The last instant at which a request passes the checks. */
  ghost predicate LastPass(r: Request, scope: string, last: int) {
    Passes(r, scope, last) && forall t :: Passes(r, scope, t) ==> t <= last
  }

  /** A run that has accepted an authenticator can go on to accept a request with it once more exactly when the
      key is forgotten before the last instant at which the request passes, plus the longest time `delay` a
      request takes from check to mark. */
  lemma AcceptedAgainExactly(h: HashFn, ops: seq<Op>, i: nat, r: Request, scope: string, delay: nat, last: int)
    requires ClockOk(ops) && i < |Run(h, ops).accepted| && LatestOfKey(h, Run(h, ops), i)
    requires r.authenticator == Some(Run(h, ops).accepted[i].who)
    requires ops != [] && End(ops[|ops| - 1]) <= last && LastPass(r, scope, last)
    ensures (exists t, u :: AcceptedAgain(h, ops, r, scope, delay, t, u))
       <==> Run(h, ops).accepted[i].markedAt + REPLAY_TTL < last + delay
  {
    hide Run, LatestOfKey, ReplayKey, Passes, Retry, ClockOk;
    LatestRemembered(h, ops, i);
    forall t, u | AcceptedAgain(h, ops, r, scope, delay, t, u)
      ensures Run(h, ops).accepted[i].markedAt + REPLAY_TTL < last + delay
    {
      RetryAccepted(h, ops, r, scope, t, u);
    }
    if Run(h, ops).accepted[i].markedAt + REPLAY_TTL < last + delay {
      RetryAccepted(h, ops, r, scope, last, last + delay);
      RetryInTime(h, ops, r, scope, last, last + delay);
      assert AcceptedAgain(h, ops, r, scope, delay, last, last + delay);
    }
  }

  /** A request that passes all checks but the freshness, under a ticket and a certificate that outlive it. */
  ghost predicate Outlived(r: Request, scope: string) {
    && r.ticket.Some? && r.authenticator.Some? && r.cert.Some?
    && Complete(r.ticket.value) && r.ticket.value.scope == scope
    && var a := r.authenticator.value;
       && a.clientId == r.ticket.value.clientId && a.timestamp != 0 && a.nonce != "" && a.requestId != ""
       && Stamp(a) + FRESHNESS < UnixInstant(r.ticket.value.expiresAt)
       && CertAccepted(r.ticket.value, r.cert.value, Stamp(a) + FRESHNESS)
  }

  lemma PassesWhileFresh(r: Request, scope: string)
    requires Outlived(r, scope)
    ensures LastPass(r, scope, Stamp(r.authenticator.value) + FRESHNESS)
  {
    hide UnixInstant, Fresh, CertAccepted;
    var a := r.authenticator.value;
    forall t ensures Passes(r, scope, t) ==> t <= Stamp(a) + FRESHNESS {
      FreshExactly(a, t);
    }
    FreshExactly(a, Stamp(a) + FRESHNESS);
  }

  /** Under such a ticket: while the authenticator is not yet stale, it can be accepted once more exactly when it
      was marked before its timestamp plus the delay. The two windows are equal, and cancel out. */
  lemma ReplayWindow(h: HashFn, ops: seq<Op>, i: nat, r: Request, scope: string, delay: nat)
    requires ClockOk(ops) && i < |Run(h, ops).accepted| && LatestOfKey(h, Run(h, ops), i)
    requires Outlived(r, scope) && r.authenticator == Some(Run(h, ops).accepted[i].who)
    requires ops != [] && End(ops[|ops| - 1]) <= Stamp(r.authenticator.value) + FRESHNESS
    ensures (exists t, u :: AcceptedAgain(h, ops, r, scope, delay, t, u))
       <==> Run(h, ops).accepted[i].markedAt < Stamp(r.authenticator.value) + delay
  {
    hide Run, LatestOfKey, ReplayKey, Outlived, AcceptedAgain, ClockOk, LastPass;
    PassesWhileFresh(r, scope);
    AcceptedAgainExactly(h, ops, i, r, scope, delay, Stamp(r.authenticator.value) + FRESHNESS);
  }

  // ---- runs in which the store forgets in time ----

  function Instant(k: nat): int {
    k * (REPLAY_TTL + 1)
  }

  function Moment(k: nat): Glances {
    Glances(Instant(k), Instant(k), Instant(k), Instant(k))
  }

  /** One request again and again, each time one nanosecond after the store has forgotten it, and each time
      marked at once. */
  function Replays(r: Request, scope: string, n: nat): seq<Op> {
    if n == 0 then []
    else Replays(r, scope, n - 1) + [Begin(r, scope, Moment(n - 1))] + [Mark(n - 1, Instant(n - 1))]
  }

  lemma {:induction false} ReplaysAccepted(h: HashFn, r: Request, scope: string, n: nat)
    requires r.authenticator.Some? && forall k :: 0 <= k < n ==> Authorize(r, scope, Moment(k)).None?
    ensures var s := Run(h, Replays(r, scope, n));
            && |s.flows| == |s.accepted| == n
            && (forall i :: 0 <= i < n ==> s.accepted[i] == Accept(r.authenticator.value, Instant(i), Instant(i)))
            && s.keys == if n == 0 then map[]
                         else map[ReplayKey(h, r.authenticator.value) := Instant(n - 1) + REPLAY_TTL]
  {
    hide ReplayKey, Authorize, Run;
    if n == 0 {
      EmptyRun(h);
    } else {
      ReplaysAccepted(h, r, scope, n - 1);
      var ops := Replays(r, scope, n - 1);
      RunOne(h, ops, Begin(r, scope, Moment(n - 1)));
      RunOne(h, ops + [Begin(r, scope, Moment(n - 1))], Mark(n - 1, Instant(n - 1)));
    }
  }

  lemma EmptyRun(h: HashFn)
    ensures Run(h, []) == System(map[], [], [])
  {
  }

  lemma {:induction false} ReplaysInTime(r: Request, scope: string, n: nat)
    ensures ClockOk(Replays(r, scope, n))
    ensures var ops := Replays(r, scope, n);
            n > 0 ==> ops != [] && End(ops[|ops| - 1]) == Instant(n - 1)
  {
    if n > 0 {
      ReplaysInTime(r, scope, n - 1);
    }
  }

  function Sample(timestamp: int64, expiresAt: int64): Request {
    Request(Some(Ticket("client", "serial", "scope", expiresAt, "", "", "", [])),
            Some(Authenticator("client", "nonce", "request", timestamp)),
            Some(CertInfo(true, 0, 0, 0, "client", "client", "client-ca", "ca-serial", ["fingerprint"])))
  }

  lemma SamplePasses(timestamp: int64, expiresAt: int64, t: int)
    requires timestamp != 0 && expiresAt != 0 && 0 <= t < UnixInstant(expiresAt)
    requires Fresh(Sample(timestamp, expiresAt).authenticator.value, t)
    ensures Passes(Sample(timestamp, expiresAt), "scope", t)
  {
    hide UnixInstant, Fresh;
    assert "client" != "" && "serial" != "" && "scope" != "" && "nonce" != "" && "request" != "";
  }

  /** A timestamp five minutes ahead: accepted at once, and again one nanosecond after the store forgot it. */
  lemma AcceptedTwice(h: HashFn)
    ensures var r := Sample(300, 3600);
            var ops := Replays(r, "scope", 2);
            && ClockOk(ops) && |Run(h, ops).accepted| == 2
            && Run(h, ops).accepted[0].who == Run(h, ops).accepted[1].who
  {
    hide ReplayKey, Run, Authorize, UnixInstant, Fresh;
    var r := Sample(300, 3600);
    UnixInstantExactly(300);
    UnixInstantExactly(3600);
    forall k | 0 <= k < 2 ensures Authorize(r, "scope", Moment(k)).None? {
      FreshExactly(r.authenticator.value, Instant(k));
      SamplePasses(300, 3600, Instant(k));
    }
    ReplaysInTime(r, "scope", 2);
    ReplaysAccepted(h, r, "scope", 2);
  }

  /** A timestamp that stays at least 2^63 nanoseconds ahead through the first `n` moments. */
  function FarAhead(n: nat): (seconds: nat)
    ensures seconds > 0 && seconds * SECOND >= Instant(n) - INT64_MIN
  {
    (Instant(n) - INT64_MIN) / SECOND + 1
  }

  lemma FarAheadPasses(n: nat, k: nat)
    requires k <= n && FarAhead(n) <= LAST_TIMESTAMP
    ensures Passes(Sample(FarAhead(n), FarAhead(n)), "scope", Instant(k))
  {
    hide UnixInstant, Fresh, FarAhead;
    var r := Sample(FarAhead(n), FarAhead(n));
    UnixInstantExactly(FarAhead(n));
    assert Instant(k) <= Instant(n);
    FreshExactly(r.authenticator.value, Instant(k));
    SamplePasses(FarAhead(n), FarAhead(n), Instant(k));
  }

  /** A timestamp that passes because its difference to the clock overflows is accepted any number of times,
      as far as timestamps reach. */
  lemma AcceptedWithoutEnd(h: HashFn, n: nat)
    requires FarAhead(n) <= LAST_TIMESTAMP
    ensures var r := Sample(FarAhead(n), FarAhead(n));
            var ops := Replays(r, "scope", n);
            && ClockOk(ops) && |Run(h, ops).accepted| == n
            && forall i :: 0 <= i < n ==> Run(h, ops).accepted[i].who == r.authenticator.value
  {
    hide ReplayKey, Run, Authorize, FarAhead;
    var r := Sample(FarAhead(n), FarAhead(n));
    forall k | 0 <= k < n ensures Authorize(r, "scope", Moment(k)).None? {
      FarAheadPasses(n, k);
    }
    ReplaysInTime(r, "scope", n);
    ReplaysAccepted(h, r, "scope", n);
  }

  /** A ticket that expired one nanosecond before the second reading of the expiry check is accepted. */
  lemma ExpiredTicketAccepted(h: HashFn)
    ensures var r := Sample(1, 1);
            var ops := [Begin(r, "scope", Glances(SECOND, SECOND + 1, SECOND + 1, SECOND + 1)), Mark(0, SECOND + 1)];
            && ClockOk(ops) && Run(h, ops).accepted == [Accept(r.authenticator.value, SECOND + 1, SECOND + 1)]
            && UnixInstant(r.ticket.value.expiresAt) < SECOND + 1
  {
    hide ReplayKey;
    var begin := Begin(Sample(1, 1), "scope", Glances(SECOND, SECOND + 1, SECOND + 1, SECOND + 1));
    assert [begin, Mark(0, SECOND + 1)] == [] + [begin] + [Mark(0, SECOND + 1)];
    RunOne(h, [], begin);
    RunOne(h, [] + [begin], Mark(0, SECOND + 1));
  }
}
