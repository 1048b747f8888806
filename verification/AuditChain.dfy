/** The tamper-evident audit log: events linked by a hash over an exact, ordered list of covered fields.
    The CA covers four fields of an event, the bank seven; the chain and its replay are the same. */
module AuditChain {
  import opened Wrappers
  import opened Encoding

  const GENESIS := "genesis"

  /** The byte 0x1f that goes before every covered field. */
  const SEPARATOR: char := 0x1f as char

  /** `covered` is what the hash covers, `performedAt` is carried along uncovered. An empty `hash` marks an
      event from before the chain was introduced. */
  datatype Event = Event(covered: seq<string>, performedAt: int, prevHash: string, hash: string)

  /** `auditHashFields` of the CA. */
  function CaFields(action: string, serialNumber: string, performedBy: string, reason: string): seq<string> {
    [action, serialNumber, performedBy, reason]
  }

  /** `auditHashFields` of the bank. */
  function BankFields(action: string, userId: string, accountId: string, transactionId: string,
                      certSerial: string, requestId: string, reason: string): seq<string>
  {
    [action, userId, accountId, transactionId, certSerial, requestId, reason]
  }

  function Joined(fields: seq<string>): string {
    if fields == [] then "" else [SEPARATOR] + fields[0] + Joined(fields[1..])
  }

  function ChainHash(h: HashFn, prev: string, fields: seq<string>): (r: string)
    ensures IsHex64(r) && r != "" && r != GENESIS
  {
    Hex(h(prev + Joined(fields)))
  }

  predicate Hashed(e: Event) {
    e.hash != ""
  }

  /** The hash of the latest hashed event, if there is one. */
  function LastHash(log: seq<Event>): Option<string> {
    if log == [] then None
    else if Hashed(log[|log| - 1]) then Some(log[|log| - 1].hash)
    else LastHash(log[..|log| - 1])
  }

  function HashedCount(log: seq<Event>): nat {
    if log == [] then 0
    else HashedCount(log[..|log| - 1]) + if Hashed(log[|log| - 1]) then 1 else 0
  }

  // ---- what an unbroken chain is ----

  /** The link from `e` to the events before it. The first hashed event may link to anything. */
  predicate Linked(before: seq<Event>, e: Event) {
    LastHash(before).Some? ==> e.prevHash == LastHash(before).value
  }

  predicate Sealed(h: HashFn, e: Event) {
    e.hash == ChainHash(h, e.prevHash, e.covered)
  }

  predicate Intact(h: HashFn, log: seq<Event>, i: nat)
    requires i < |log|
  {
    Hashed(log[i]) ==> Linked(log[..i], log[i]) && Sealed(h, log[i])
  }

  ghost predicate Unbroken(h: HashFn, log: seq<Event>) {
    forall i :: 0 <= i < |log| ==> Intact(h, log, i)
  }

  // ---- appending ----

  /** `AppendAudit` and `InsertAudit`: link to the last event when it is hashed, else to genesis. */
  function NextPrev(log: seq<Event>): string {
    if log != [] && Hashed(log[|log| - 1]) then log[|log| - 1].hash else GENESIS
  }

  function Append(h: HashFn, log: seq<Event>, covered: seq<string>, at: int): seq<Event> {
    log + [Event(covered, at, NextPrev(log), ChainHash(h, NextPrev(log), covered))]
  }

  // ---- replaying ----

  datatype BreakKind = BadLink | BadContents

  datatype Verdict = Verified(checked: nat) | Broken(checked: nat, seqNo: nat, kind: BreakKind)

  /** `VerifyAuditChain`: replay in append order, stop at the first inconsistency. The verdict names the
      smallest broken position, counted from one, and the number of hashed events before it. */
  method VerifyAuditChain(h: HashFn, log: seq<Event>) returns (v: Verdict)
    ensures v.Verified? <==> Unbroken(h, log)
    ensures v.Verified? ==> v.checked == HashedCount(log)
    ensures v.Broken? ==> 1 <= v.seqNo <= |log|
                          && Unbroken(h, log[..v.seqNo - 1]) && !Intact(h, log, v.seqNo - 1)
                          && v.checked == HashedCount(log[..v.seqNo - 1])
                          && (v.kind == BadLink <==> !Linked(log[..v.seqNo - 1], log[v.seqNo - 1]))
  {
    var running, first, checked := "", true, 0;
    var i := 0;
    while i < |log|
      invariant 0 <= i <= |log|
      invariant Unbroken(h, log[..i])
      invariant checked == HashedCount(log[..i])
      invariant first <==> LastHash(log[..i]).None?
      invariant !first ==> running == LastHash(log[..i]).value
    {
      var event := log[i];
      assert log[..i + 1][..i] == log[..i];
      UnbrokenExtends(h, log, i);
      if event.hash == "" {
        i := i + 1;
        continue;
      }
      if first {
        running, first := event.prevHash, false;
      }
      var expected := ChainHash(h, running, event.covered);
      if event.prevHash != running {
        return Broken(checked, i + 1, BadLink);
      }
      if expected != event.hash {
        return Broken(checked, i + 1, BadContents);
      }
      running := event.hash;
      checked := checked + 1;
      i := i + 1;
    }
    assert log[..i] == log;
    v := Verified(checked);
  }

  lemma PrefixIntact(h: HashFn, log: seq<Event>, n: nat, i: nat)
    requires i < n <= |log|
    ensures Intact(h, log[..n], i) == Intact(h, log, i)
  {
    assert log[..n][..i] == log[..i];
  }

  lemma UnbrokenPrefix(h: HashFn, log: seq<Event>, n: nat)
    requires n <= |log|
    ensures Unbroken(h, log[..n]) <==> forall i :: 0 <= i < n ==> Intact(h, log, i)
  {
    forall i | 0 <= i < n ensures Intact(h, log[..n], i) == Intact(h, log, i) {
      PrefixIntact(h, log, n, i);
    }
    if forall i :: 0 <= i < n ==> Intact(h, log, i) {
      forall i | 0 <= i < n ensures Intact(h, log[..n], i) {
        assert Intact(h, log, i);
      }
    }
    if Unbroken(h, log[..n]) {
      forall i | 0 <= i < n ensures Intact(h, log, i) {
        assert Intact(h, log[..n], i);
      }
    }
  }

  lemma UnbrokenExtends(h: HashFn, log: seq<Event>, n: nat)
    requires n < |log|
    ensures Unbroken(h, log[..n + 1]) <==> Unbroken(h, log[..n]) && Intact(h, log, n)
    ensures Unbroken(h, log) ==> Unbroken(h, log[..n + 1])
  {
    UnbrokenPrefix(h, log, n);
    UnbrokenPrefix(h, log, n + 1);
  }

  // ---- appends keep a verifying log verifying ----

  lemma {:induction false} SomeHashed(log: seq<Event>)
    ensures LastHash(log).Some? <==> HashedCount(log) > 0
    ensures log != [] && Hashed(log[|log| - 1]) ==> LastHash(log) == Some(log[|log| - 1].hash)
  {
    if log != [] && !Hashed(log[|log| - 1]) {
      SomeHashed(log[..|log| - 1]);
    }
  }

  lemma {:induction false} LastHashSealed(h: HashFn, log: seq<Event>)
    requires Unbroken(h, log) && LastHash(log).Some?
    ensures LastHash(log).value != GENESIS
  {
    var n := |log| - 1;
    assert Intact(h, log, n);
    if !Hashed(log[n]) {
      assert log[..n + 1] == log;
      UnbrokenExtends(h, log, n);
      LastHashSealed(h, log[..n]);
    }
  }

  lemma NewEventLinked(log: seq<Event>, e: Event)
    requires e.prevHash == NextPrev(log)
    requires LastHash(log).Some? ==> LastHash(log).value != GENESIS
    ensures Linked(log, e) <==> HashedCount(log) == 0 || Hashed(log[|log| - 1])
  {
    SomeHashed(log);
  }

  lemma LastIntact(h: HashFn, log: seq<Event>, e: Event)
    requires Hashed(e)
    ensures Intact(h, log + [e], |log|) <==> Linked(log, e) && Sealed(h, e)
  {
    hide Hashed, Sealed;
    assert (log + [e])[..|log|] == log;
  }

  lemma UnbrokenLast(h: HashFn, log: seq<Event>, e: Event)
    requires Hashed(e)
    ensures Unbroken(h, log + [e]) <==> Unbroken(h, log) && Linked(log, e) && Sealed(h, e)
  {
    hide Hashed, Sealed, Linked, Intact, Unbroken;
    assert (log + [e])[..|log|] == log && (log + [e])[..|log| + 1] == log + [e];
    UnbrokenExtends(h, log + [e], |log|);
    LastIntact(h, log, e);
  }

  lemma HashedCountAppend(log: seq<Event>, e: Event)
    requires Hashed(e)
    ensures HashedCount(log + [e]) == HashedCount(log) + 1
  {
    assert (log + [e])[..|log|] == log;
  }

  /** An append keeps the log verifying exactly when the log verified and no unhashed event stands after
      its hashed ones; `Checked` then grows by one. */
  lemma AppendVerifies(h: HashFn, log: seq<Event>, covered: seq<string>, at: int)
    ensures Unbroken(h, Append(h, log, covered, at))
       <==> Unbroken(h, log) && (HashedCount(log) == 0 || Hashed(log[|log| - 1]))
    ensures HashedCount(Append(h, log, covered, at)) == HashedCount(log) + 1
  {
    hide ChainHash, LastHash, Unbroken, Linked, NextPrev, HashedCount;
    var e := Event(covered, at, NextPrev(log), ChainHash(h, NextPrev(log), covered));
    UnbrokenLast(h, log, e);
    HashedCountAppend(log, e);
    if Unbroken(h, log) {
      if LastHash(log).Some? {
        LastHashSealed(h, log);
      }
      NewEventLinked(log, e);
    }
  }

  function AppendAll(h: HashFn, log: seq<Event>, entries: seq<(seq<string>, int)>): seq<Event>
    decreases |entries|
  {
    if entries == [] then log
    else AppendAll(h, Append(h, log, entries[0].0, entries[0].1), entries[1..])
  }

  /** Any number of appends, starting where all unhashed events come first. */
  lemma {:induction false} RunOfAppendsVerifies(h: HashFn, log: seq<Event>, entries: seq<(seq<string>, int)>)
    requires Unbroken(h, log) && (HashedCount(log) == 0 || Hashed(log[|log| - 1]))
    ensures Unbroken(h, AppendAll(h, log, entries))
    ensures HashedCount(AppendAll(h, log, entries)) == HashedCount(log) + |entries|
    decreases |entries|
  {
    if entries != [] {
      AppendVerifies(h, log, entries[0].0, entries[0].1);
      RunOfAppendsVerifies(h, Append(h, log, entries[0].0, entries[0].1), entries[1..]);
    }
  }

  // ---- the covered fields parse in one way ----

  ghost predicate Plain(fields: seq<string>) {
    forall k :: 0 <= k < |fields| ==> Free(fields[k], SEPARATOR)
  }

  /** Text up to the first separator, and the rest, are determined by their concatenation. */
  lemma CutAtSeparator(a: string, x: string, b: string, y: string)
    requires Free(a, SEPARATOR) && Free(b, SEPARATOR) && a + x == b + y
    requires (x == "" || x[0] == SEPARATOR) && (y == "" || y[0] == SEPARATOR)
    ensures a == b && x == y
  {
    var s := a + x;
    assert forall k :: 0 <= k < |a| ==> s[k] == a[k];
    assert forall k :: 0 <= k < |b| ==> s[k] == b[k];
    assert x != "" ==> s[|a|] == SEPARATOR;
    assert y != "" ==> s[|b|] == SEPARATOR;
    assert |a| == |b|;
    SplitAt(a, x, b, y);
  }

  lemma {:induction false} JoinedInjective(fs: seq<string>, gs: seq<string>)
    requires Plain(fs) && Plain(gs) && Joined(fs) == Joined(gs)
    ensures fs == gs
  {
    if fs != [] && gs != [] {
      var x, y := Joined(fs[1..]), Joined(gs[1..]);
      assert Joined(fs) == [SEPARATOR] + (fs[0] + x);
      assert Joined(gs) == [SEPARATOR] + (gs[0] + y);
      SplitAt([SEPARATOR], fs[0] + x, [SEPARATOR], gs[0] + y);
      CutAtSeparator(fs[0], x, gs[0], y);
      JoinedInjective(fs[1..], gs[1..]);
      assert fs == [fs[0]] + fs[1..] && gs == [gs[0]] + gs[1..];
    }
  }

  lemma InputInjective(p: string, fs: seq<string>, q: string, gs: seq<string>)
    requires Free(p, SEPARATOR) && Free(q, SEPARATOR) && Plain(fs) && Plain(gs)
    requires p + Joined(fs) == q + Joined(gs)
    ensures p == q && fs == gs
  {
    CutAtSeparator(p, Joined(fs), q, Joined(gs));
    JoinedInjective(fs, gs);
  }

  // ---- tamper evidence ----

  function Input(e: Event): string {
    e.prevHash + Joined(e.covered)
  }

  ghost predicate Colliding(h: HashFn, xs: seq<Event>, ys: seq<Event>) {
    exists i, j :: 0 <= i < |xs| && 0 <= j < |ys| && Input(xs[i]) != Input(ys[j]) && h(Input(xs[i])) == h(Input(ys[j]))
  }

  /** The covered fields of the hashed events, in order. */
  function Evidence(log: seq<Event>): seq<seq<string>> {
    if log == [] then []
    else
      var last := log[|log| - 1];
      Evidence(log[..|log| - 1]) + if Hashed(last) then [last.covered] else []
  }

  /** A verifying log whose first hashed event links to genesis and which ends in `head`. */
  ghost predicate Chain(h: HashFn, log: seq<Event>, head: string) {
    if log == [] then head == GENESIS
    else
      var last := log[|log| - 1];
      if Hashed(last) then last.hash == head && Sealed(h, last) && Chain(h, log[..|log| - 1], last.prevHash)
      else Chain(h, log[..|log| - 1], head)
  }

  /** The first hashed event, if any, links to genesis. */
  ghost predicate FromGenesis(log: seq<Event>) {
    forall i :: 0 <= i < |log| && Hashed(log[i]) && LastHash(log[..i]).None? ==> log[i].prevHash == GENESIS
  }

  function HeadOf(log: seq<Event>): string {
    if LastHash(log).Some? then LastHash(log).value else GENESIS
  }

  lemma FromGenesisExtends(log: seq<Event>, n: nat)
    requires |log| == n + 1
    ensures FromGenesis(log) <==>
      FromGenesis(log[..n]) && (Hashed(log[n]) && LastHash(log[..n]).None? ==> log[n].prevHash == GENESIS)
  {
    hide Hashed, LastHash;
    assert forall i :: 0 <= i < n ==> log[..n][..i] == log[..i] && log[..n][i] == log[i];
  }

  /** `Chain` is what "verifies, starts at genesis and ends in this hash" means. */
  lemma {:induction false} ChainIsVerifiedFromGenesis(h: HashFn, log: seq<Event>, head: string)
    ensures Chain(h, log, head) <==> Unbroken(h, log) && FromGenesis(log) && head == HeadOf(log)
  {
    hide Unbroken, FromGenesis, ChainHash;
    if log == [] {
      NothingToVerify(h);
    } else {
      var n := |log| - 1;
      var front, last := log[..n], log[n];
      assert log[..n + 1] == log;
      UnbrokenExtends(h, log, n);
      FromGenesisExtends(log, n);
      ChainIsVerifiedFromGenesis(h, front, if Hashed(last) then last.prevHash else head);
    }
  }

  lemma NothingToVerify(h: HashFn)
    ensures Unbroken(h, []) && FromGenesis([])
  {
  }

  ghost predicate PlainLog(log: seq<Event>) {
    forall i :: 0 <= i < |log| ==> Plain(log[i].covered)
  }

  lemma {:induction false} ChainHeadPlain(h: HashFn, log: seq<Event>, head: string)
    requires Chain(h, log, head)
    ensures Free(head, SEPARATOR)
    ensures HashedCount(log) == 0 ==> head == GENESIS && Evidence(log) == []
    ensures HashedCount(log) > 0 ==> IsHex64(head) && head != GENESIS
  {
    if log != [] && !Hashed(log[|log| - 1]) {
      ChainHeadPlain(h, log[..|log| - 1], head);
    }
  }

  /** Tamper evidence: two verifying logs from genesis with one final hash cover the same fields in the
      same order, or contain a hash collision. Unhashed events may be mixed in anywhere. */
  lemma {:induction false} HeadFixesEvidence(h: HashFn, xs: seq<Event>, ys: seq<Event>, head: string)
    requires Chain(h, xs, head) && Chain(h, ys, head) && PlainLog(xs) && PlainLog(ys)
    ensures Colliding(h, xs, ys) || Evidence(xs) == Evidence(ys)
    decreases |xs| + |ys|
  {
    if xs != [] && !Hashed(xs[|xs| - 1]) {
      HeadFixesEvidence(h, xs[..|xs| - 1], ys, head);
      CollidingGrows(h, xs[..|xs| - 1], ys, xs, ys);
    } else if ys != [] && !Hashed(ys[|ys| - 1]) {
      HeadFixesEvidence(h, xs, ys[..|ys| - 1], head);
      CollidingGrows(h, xs, ys[..|ys| - 1], xs, ys);
    } else {
      ChainHeadPlain(h, xs, head);
      ChainHeadPlain(h, ys, head);
      if xs != [] && ys != [] {
        LastEventsAgree(h, xs, ys, head);
      }
    }
  }

  lemma CollidingGrows(h: HashFn, xs: seq<Event>, ys: seq<Event>, xs': seq<Event>, ys': seq<Event>)
    requires xs <= xs' && ys <= ys'
    ensures Colliding(h, xs, ys) ==> Colliding(h, xs', ys')
  {
    if Colliding(h, xs, ys) {
      var i, j :| 0 <= i < |xs| && 0 <= j < |ys| && Input(xs[i]) != Input(ys[j]) && h(Input(xs[i])) == h(Input(ys[j]));
      assert xs'[i] == xs[i] && ys'[j] == ys[j];
    }
  }

  lemma {:induction false} LastEventsAgree(h: HashFn, xs: seq<Event>, ys: seq<Event>, head: string)
    requires Chain(h, xs, head) && Chain(h, ys, head) && PlainLog(xs) && PlainLog(ys)
    requires xs != [] && ys != [] && Hashed(xs[|xs| - 1]) && Hashed(ys[|ys| - 1])
    ensures Colliding(h, xs, ys) || Evidence(xs) == Evidence(ys)
    decreases |xs| + |ys|, 0
  {
    var m, n := |xs| - 1, |ys| - 1;
    var a, b := xs[m], ys[n];
    HexInjective(h(Input(a)), h(Input(b)));
    if Input(a) == Input(b) {
      ChainHeadPlain(h, xs[..m], a.prevHash);
      ChainHeadPlain(h, ys[..n], b.prevHash);
      InputInjective(a.prevHash, a.covered, b.prevHash, b.covered);
      HeadFixesEvidence(h, xs[..m], ys[..n], a.prevHash);
      CollidingGrows(h, xs[..m], ys[..n], xs, ys);
    } else {
      assert Input(xs[m]) != Input(ys[n]) && h(Input(xs[m])) == h(Input(ys[n]));
    }
  }

  // ---- what deleting rows does ----

  lemma {:induction false} LastHashConcat(a: seq<Event>, b: seq<Event>)
    ensures LastHash(a + b) == if LastHash(b).Some? then LastHash(b) else LastHash(a)
    decreases |b|
  {
    if b == [] {
      assert a + b == a;
    } else {
      assert (a + b)[..|a + b| - 1] == a + b[..|b| - 1];
      LastHashConcat(a, b[..|b| - 1]);
    }
  }

  /** The first hashed event, if there is one. */
  lemma {:induction false} FirstHashed(log: seq<Event>) returns (m: nat)
    requires LastHash(log).Some?
    ensures m < |log| && Hashed(log[m]) && LastHash(log[..m]).None?
    decreases |log|
  {
    var n := |log| - 1;
    if LastHash(log[..n]).None? {
      m := n;
    } else {
      m := FirstHashed(log[..n]);
      assert log[..n][..m] == log[..m];
    }
  }

  /** How an event of a verifying log stands in the log without the rows from `i` to `j`. */
  lemma MovedEvent(h: HashFn, log: seq<Event>, i: nat, j: nat, m: nat)
    requires Unbroken(h, log) && i <= j <= m < |log|
    ensures var cut := log[..i] + log[j..];
            Intact(h, cut, m - j + i) <==>
              !Hashed(log[m]) || LastHash(log[j..m]).Some?
              || LastHash(log[..i]).None? || LastHash(log[..i]) == LastHash(log[..j])
  {
    hide LastHash, Sealed;
    var cut := log[..i] + log[j..];
    assert Intact(h, log, m);
    assert cut[m - j + i] == log[m];
    assert cut[..m - j + i] == log[..i] + log[j..m];
    assert log[..m] == log[..j] + log[j..m];
    LastHashConcat(log[..i], log[j..m]);
    LastHashConcat(log[..j], log[j..m]);
    PrefixHash(log, i, j);
  }

  /** A longer prefix has a hashed event when a shorter one has. */
  lemma PrefixHash(log: seq<Event>, i: nat, j: nat)
    requires i <= j <= |log|
    ensures LastHash(log[..i]).Some? ==> LastHash(log[..j]).Some?
  {
    assert log[..j] == log[..i] + log[i..j];
    LastHashConcat(log[..i], log[i..j]);
  }

  /** Deleting a block of rows from a verifying log goes unnoticed exactly when no hashed row stands before
      it, or none after it, or the rows around it link as they did: a log can be cut at either end, and rows
      without a hash can be taken out anywhere. */
  lemma DeletionDetected(h: HashFn, log: seq<Event>, i: nat, j: nat)
    requires Unbroken(h, log) && i <= j <= |log|
    ensures Unbroken(h, log[..i] + log[j..]) <==>
      LastHash(log[..i]).None? || LastHash(log[j..]).None? || LastHash(log[..i]) == LastHash(log[..j])
  {
    hide Intact, LastHash, Hashed;
    var cut := log[..i] + log[j..];
    var same := LastHash(log[..i]).None? || LastHash(log[..i]) == LastHash(log[..j]);
    forall k | 0 <= k < i ensures Intact(h, cut, k) {
      assert cut[..i] == log[..i] == log[..i][..i];
      assert Intact(h, log, k);
      PrefixIntact(h, log, i, k);
      PrefixIntact(h, cut, i, k);
    }
    forall k | i <= k < |cut|
      ensures Intact(h, cut, k) <==> !Hashed(log[k + j - i]) || LastHash(log[j..k + j - i]).Some? || same
    {
      MovedEvent(h, log, i, j, k + j - i);
    }
    if LastHash(log[j..]).Some? {
      var m := FirstHashed(log[j..]);
      assert log[j..][..m] == log[j..j + m] && log[j..][m] == log[j + m];
      assert Intact(h, cut, i + m) <==> same;
    } else {
      forall k | i <= k < |cut| ensures Intact(h, cut, k) {
        NoHash(log[j..], k - i);
        assert log[j..][k - i] == log[k + j - i];
      }
    }
  }

  lemma {:induction false} NoHash(log: seq<Event>, k: nat)
    requires LastHash(log).None? && k < |log|
    ensures !Hashed(log[k])
  {
    if k < |log| - 1 {
      NoHash(log[..|log| - 1], k);
    }
  }

  /** So every verifying log can be cut at either end. */
  lemma EndsVanishUnnoticed(h: HashFn, log: seq<Event>, i: nat)
    requires Unbroken(h, log) && i <= |log|
    ensures Unbroken(h, log[..i]) && Unbroken(h, log[i..])
  {
    hide Unbroken;
    DeletionDetected(h, log, i, |log|);
    DeletionDetected(h, log, 0, i);
    assert log[..i] + log[|log|..] == log[..i] && log[..0] + log[i..] == log[i..];
  }

  /** With every row hashed, what goes unnoticed is a prefix, a suffix, or a block between rows that link. */
  lemma DeletionFromHashedLog(h: HashFn, log: seq<Event>, i: nat, j: nat)
    requires Unbroken(h, log) && i < j <= |log|
    requires forall k :: 0 <= k < |log| ==> Hashed(log[k])
    ensures Unbroken(h, log[..i] + log[j..]) <==> i == 0 || j == |log| || log[i - 1].hash == log[j - 1].hash
  {
    hide Unbroken, Hashed;
    DeletionDetected(h, log, i, j);
    if i > 0 && j < |log| {
      SomeHashed(log[..i]);
      SomeHashed(log[..j]);
      SomeHashed(log[j..]);
    }
  }

  // ---- what the hash covers ----

  lemma JoinedOne(f: string)
    ensures Joined([f]) == "\U{1F}" + f
  {
    assert Joined([f]) == [SEPARATOR] + f + Joined([]);
  }

  lemma JoinedMore(f: string, rest: seq<string>)
    ensures Joined([f] + rest) == "\U{1F}" + f + Joined(rest)
  {
    assert ([f] + rest)[1..] == rest;
  }

  /** The text that the CA hashes: the previous hash, action, serial, actor and reason, each after the byte 0x1f. */
  lemma CaHashExactly(h: HashFn, prev: string, action: string, serial: string, actor: string, reason: string)
    ensures ChainHash(h, prev, CaFields(action, serial, actor, reason))
         == Hex(h(prev + ("\U{1F}" + action + ("\U{1F}" + serial + ("\U{1F}" + actor + ("\U{1F}" + reason))))))
  {
    hide Hex, Joined;
    var s := "\U{1F}";
    JoinedOne(reason);
    JoinedMore(actor, [reason]);
    JoinedMore(serial, [actor] + [reason]);
    JoinedMore(action, [serial] + ([actor] + [reason]));
    assert CaFields(action, serial, actor, reason) == [action] + ([serial] + ([actor] + [reason]));
  }

  /** The text that the bank hashes: its seven fields in this order. */
  lemma BankFieldsExactly(action: string, user: string, account: string, transaction: string, cert: string,
                          request: string, reason: string)
    ensures Joined(BankFields(action, user, account, transaction, cert, request, reason))
         == "\U{1F}" + action + ("\U{1F}" + user + ("\U{1F}" + account + ("\U{1F}" + transaction
            + ("\U{1F}" + cert + ("\U{1F}" + request + ("\U{1F}" + reason))))))
  {
    hide Joined;
    JoinedOne(reason);
    JoinedMore(request, [reason]);
    JoinedMore(cert, [request] + [reason]);
    JoinedMore(transaction, [cert] + ([request] + [reason]));
    JoinedMore(account, [transaction] + ([cert] + ([request] + [reason])));
    JoinedMore(user, [account] + ([transaction] + ([cert] + ([request] + [reason]))));
    JoinedMore(action, [user] + ([account] + ([transaction] + ([cert] + ([request] + [reason])))));
    assert BankFields(action, user, account, transaction, cert, request, reason)
        == [action] + ([user] + ([account] + ([transaction] + ([cert] + ([request] + [reason])))));
  }

  /** A hashed event whose covered fields are changed no longer carries its hash, or two inputs collide. */
  lemma ChangeDetected(h: HashFn, log: seq<Event>, k: nat, fields: seq<string>)
    requires Unbroken(h, log) && k < |log| && Hashed(log[k])
    requires Plain(log[k].covered) && Plain(fields) && fields != log[k].covered
    ensures var a, b := log[k].prevHash + Joined(log[k].covered), log[k].prevHash + Joined(fields);
            a != b && (h(a) == h(b) || !Unbroken(h, log[k := log[k].(covered := fields)]))
  {
    hide Joined, Plain, Hex;
    var e, log' := log[k], log[k := log[k].(covered := fields)];
    var a, b := e.prevHash + Joined(e.covered), e.prevHash + Joined(fields);
    if a == b {
      SplitAt(e.prevHash, Joined(e.covered), e.prevHash, Joined(fields));
      JoinedInjective(e.covered, fields);
    }
    assert Intact(h, log, k);
    if Unbroken(h, log') {
      assert Intact(h, log', k);
      HexInjective(h(a), h(b));
    }
  }
}
