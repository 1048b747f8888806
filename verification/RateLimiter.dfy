/** The fixed-window limiter on a Redis counter. Every request increments; the one that reads 1 sets the
    expiry with a second call, and other requests may come in between. */
module RateLimiter {
  import opened Wrappers

  datatype Limit = Limit(window: int, max: int)

  /** A counter without expiry lives on; with one it may be gone from that instant. */
  datatype Counter = Absent | Present(count: nat, expiry: Option<int>)

  /** One INCR and its answer, in the `life`-th life of the key. */
  datatype Hit = Hit(at: int, life: nat, count: nat)

  /** `owed` counts requests that read 1 and have not sent EXPIRE yet; `starts` are the beginnings of the
      lives of the key. */
  datatype System = System(counter: Counter, owed: nat, starts: seq<int>, hits: seq<Hit>)

  /** `gone` says whether the server has dropped an expired counter by now. */
  datatype Op = Incr(at: int, gone: bool) | Expire(at: int)

  predicate Ended(c: Counter, at: int, gone: bool) {
    c.Absent? || (gone && c.expiry.Some? && c.expiry.value <= at)
  }

  function Step(l: Limit, s: System, op: Op): System {
    match op
    case Incr(at, gone) =>
      if Ended(s.counter, at, gone) then
        System(Present(1, None), s.owed + 1, s.starts + [at], s.hits + [Hit(at, |s.starts|, 1)])
      else
        var count := s.counter.count + 1;
        s.(counter := s.counter.(count := count),
           hits := s.hits + [Hit(at, if s.starts == [] then 0 else |s.starts| - 1, count)])
    case Expire(at) =>
      if s.owed == 0 || s.counter.Absent? then s
      else s.(counter := s.counter.(expiry := Some(at + l.window)), owed := s.owed - 1)
  }

  const EMPTY := System(Absent, 0, [], [])

  function Run(l: Limit, ops: seq<Op>): System {
    if ops == [] then EMPTY else Step(l, Run(l, ops[..|ops| - 1]), ops[|ops| - 1])
  }

  /** `count > max` answers 429. */
  predicate Admitted(l: Limit, h: Hit) {
    h.count <= l.max
  }

  function AdmittedIn(l: Limit, hits: seq<Hit>, from: int, to: int): nat {
    if hits == [] then 0
    else
      var h := hits[|hits| - 1];
      AdmittedIn(l, hits[..|hits| - 1], from, to) + if Admitted(l, h) && from <= h.at < to then 1 else 0
  }

  function AdmittedOfLife(l: Limit, hits: seq<Hit>, life: nat): nat {
    if hits == [] then 0
    else
      var h := hits[|hits| - 1];
      AdmittedOfLife(l, hits[..|hits| - 1], life) + if Admitted(l, h) && h.life == life then 1 else 0
  }

  /** The shared counter and the middleware on it, when one request runs alone: an increment, an expiry
      after the first, and the verdict. `first` and `second` are the instants of the two Redis calls. */
  class Limiter {
    const l: Limit
    var counter: Counter
    ghost var owed: nat
    ghost var starts: seq<int>
    ghost var hits: seq<Hit>

    ghost function View(): System
      reads this
    {
      System(counter, owed, starts, hits)
    }

    constructor (l: Limit)
      ensures this.l == l && View() == EMPTY && Valid()
    {
      this.l, counter := l, Absent;
      owed, starts, hits := 0, [], [];
    }

    ghost predicate Valid()
      reads this
    {
      counter.Present? ==> counter.count >= 1
    }

    method Increment(at: int, gone: bool) returns (count: nat)
      requires Valid()
      modifies this
      ensures Valid() && counter.Present? && (count == 1 ==> owed > 0)
      ensures View() == Step(l, old(View()), Incr(at, gone))
      ensures |hits| == |old(hits)| + 1 && hits[|old(hits)|].count == count
    {
      if Ended(counter, at, gone) {
        count, counter := 1, Present(1, None);
        hits := hits + [Hit(at, |starts|, 1)];
        owed, starts := owed + 1, starts + [at];
      } else {
        count := counter.count + 1;
        counter := counter.(count := count);
        hits := hits + [Hit(at, if starts == [] then 0 else |starts| - 1, count)];
      }
    }

    method SetExpiry(at: int)
      requires owed > 0 && counter.Present?
      modifies this
      ensures View() == Step(l, old(View()), Expire(at)) && counter.count == old(counter.count)
      ensures counter.Present?
    {
      counter := counter.(expiry := Some(at + l.window));
      owed := owed - 1;
    }

    method Check(first: int, gone: bool, second: int) returns (admitted: bool)
      requires Valid()
      modifies this
      ensures Valid()
      ensures var s := Step(l, old(View()), Incr(first, gone));
              var hit := s.hits[|s.hits| - 1];
              View() == (if hit.count == 1 then Step(l, s, Expire(second)) else s) && admitted == Admitted(l, hit)
    {
      var count := Increment(first, gone);
      if count == 1 {
        SetExpiry(second);
      }
      admitted := count <= l.max;
    }
  }

  // ---- the invariant ----

  ghost predicate ClockOk(ops: seq<Op>) {
    forall i :: 0 < i < |ops| ==> ops[i - 1].at <= ops[i].at
  }

  ghost predicate LivesOk(l: Limit, s: System, now: int) {
    && (s.counter.Absent? <==> s.starts == [])
    && (s.starts == [] ==> s.hits == [] && s.owed == 0)
    && (s.counter.Present? ==>
          && s.owed == (if s.counter.expiry.None? then 1 else 0)
          && (s.counter.expiry.Some? ==> s.starts[|s.starts| - 1] + l.window <= s.counter.expiry.value))
    && (forall k :: 0 <= k < |s.starts| ==> s.starts[k] <= now)
    && (forall k :: 0 <= k < |s.starts| - 1 ==> s.starts[k] + l.window <= s.starts[k + 1])
  }

  ghost predicate HitsOk(l: Limit, s: System, now: int) {
    && (forall i :: 0 <= i < |s.hits| ==>
          var h := s.hits[i];
          && h.life < |s.starts| && s.starts[h.life] <= h.at <= now
          && (h.life + 1 < |s.starts| ==> h.at <= s.starts[h.life + 1]))
    && (forall i, j :: 0 <= i < j < |s.hits| ==> s.hits[i].life <= s.hits[j].life)
  }

  /** The admitted requests of one life: at most `max`, and as many as the counter says while it lives. */
  ghost predicate QuotaOk(l: Limit, s: System) {
    && (forall k: nat :: AdmittedOfLife(l, s.hits, k) <= l.max)
    && (forall k: nat :: k >= |s.starts| ==> AdmittedOfLife(l, s.hits, k) == 0)
    && (s.counter.Present? && s.starts != [] ==>
          s.counter.count >= 1
          && AdmittedOfLife(l, s.hits, |s.starts| - 1) == if s.counter.count <= l.max then s.counter.count else l.max)
  }

  predicate HasFirst(s: System, k: nat)
    requires k < |s.starts|
  {
    exists i :: 0 <= i < |s.hits| && s.hits[i] == Hit(s.starts[k], k, 1)
  }

  ghost predicate Inv(l: Limit, s: System, now: int) {
    LivesOk(l, s, now) && HitsOk(l, s, now) && QuotaOk(l, s) && forall k :: 0 <= k < |s.starts| ==> HasFirst(s, k)
  }

  lemma OfLifeAppend(l: Limit, hits: seq<Hit>, h: Hit, life: nat)
    ensures AdmittedOfLife(l, hits + [h], life)
         == AdmittedOfLife(l, hits, life) + if Admitted(l, h) && h.life == life then 1 else 0
  {
    assert (hits + [h])[..|hits|] == hits;
  }

  lemma StepKeepsLives(l: Limit, s: System, op: Op, now: int)
    requires LivesOk(l, s, now) && now <= op.at
    ensures LivesOk(l, Step(l, s, op), op.at)
  {
  }

  /** One more hit, in the last life. */
  lemma HitsGrow(l: Limit, s: System, s': System, at: int, count: nat, now: int)
    requires HitsOk(l, s, now) && now <= at
    requires s'.starts == s.starts || s'.starts == s.starts + [at]
    requires s'.starts != [] && s'.starts[|s'.starts| - 1] <= at
    requires s'.hits == s.hits + [Hit(at, |s'.starts| - 1, count)]
    ensures HitsOk(l, s', at)
  {
    assert forall i :: 0 <= i < |s.hits| ==> s'.hits[i] == s.hits[i];
    assert forall k :: 0 <= k < |s.starts| ==> s'.starts[k] == s.starts[k];
  }

  lemma StepKeepsHits(l: Limit, s: System, op: Op, now: int)
    requires LivesOk(l, s, now) && HitsOk(l, s, now) && now <= op.at
    ensures HitsOk(l, Step(l, s, op), op.at)
  {
    hide HitsOk;
    var s' := Step(l, s, op);
    if op.Incr? {
      HitsGrow(l, s, s', op.at, s'.hits[|s.hits|].count, now);
    } else {
      SameHits(l, s, s', now, op.at);
    }
  }

  lemma SameHits(l: Limit, s: System, s': System, now: int, later: int)
    requires HitsOk(l, s, now) && now <= later && s'.hits == s.hits && s'.starts == s.starts
    ensures HitsOk(l, s', later)
  {
  }

  lemma StepKeepsQuota(l: Limit, s: System, op: Op, now: int)
    requires l.max > 0 && LivesOk(l, s, now) && QuotaOk(l, s)
    ensures QuotaOk(l, Step(l, s, op))
  {
    hide AdmittedOfLife;
    var s' := Step(l, s, op);
    if op.Incr? {
      forall k: nat ensures AdmittedOfLife(l, s'.hits, k) == AdmittedOfLife(l, s.hits, k)
        + if Admitted(l, s'.hits[|s.hits|]) && s'.hits[|s.hits|].life == k then 1 else 0
      {
        OfLifeAppend(l, s.hits, s'.hits[|s.hits|], k);
      }
    }
  }

  lemma StepKeepsFirst(l: Limit, s: System, op: Op)
    requires forall k :: 0 <= k < |s.starts| ==> HasFirst(s, k)
    ensures var s' := Step(l, s, op); forall k :: 0 <= k < |s'.starts| ==> HasFirst(s', k)
  {
    var s' := Step(l, s, op);
    forall k | 0 <= k < |s'.starts| ensures HasFirst(s', k) {
      if k < |s.starts| {
        assert HasFirst(s, k);
        var i :| 0 <= i < |s.hits| && s.hits[i] == Hit(s.starts[k], k, 1);
        assert s'.hits[i] == Hit(s'.starts[k], k, 1);
      } else {
        assert s'.hits[|s.hits|] == Hit(s'.starts[k], k, 1);
      }
    }
  }

  lemma StepKeepsInv(l: Limit, s: System, op: Op, now: int)
    requires l.max > 0 && Inv(l, s, now) && now <= op.at
    ensures Inv(l, Step(l, s, op), op.at)
  {
    hide Step, LivesOk, HitsOk, QuotaOk, HasFirst;
    StepKeepsLives(l, s, op, now);
    StepKeepsHits(l, s, op, now);
    StepKeepsQuota(l, s, op, now);
    StepKeepsFirst(l, s, op);
  }

  lemma InvLater(l: Limit, s: System, now: int, later: int)
    requires Inv(l, s, now) && now <= later
    ensures Inv(l, s, later)
  {
  }

  lemma EmptyInv(l: Limit, now: int)
    requires l.max > 0
    ensures Inv(l, EMPTY, now)
  {
  }

  lemma {:induction false} RunKeepsInv(l: Limit, ops: seq<Op>, now: int)
    requires l.max > 0 && ClockOk(ops) && (ops != [] ==> ops[|ops| - 1].at <= now)
    ensures Inv(l, Run(l, ops), now)
  {
    hide Step, Inv;
    if ops == [] {
      EmptyInv(l, now);
    } else {
      var s, op := Run(l, ops[..|ops| - 1]), ops[|ops| - 1];
      RunKeepsInv(l, ops[..|ops| - 1], op.at);
      StepKeepsInv(l, s, op, op.at);
      InvLater(l, Step(l, s, op), op.at, now);
    }
  }

  /** Each life of the key admits at most `max` requests. */
  lemma LifeAdmitsAtMostMax(l: Limit, ops: seq<Op>, life: nat)
    requires l.max > 0 && ClockOk(ops)
    ensures AdmittedOfLife(l, Run(l, ops).hits, life) <= l.max
  {
    RunKeepsInv(l, ops, if ops == [] then 0 else ops[|ops| - 1].at);
  }

  // ---- a new window ----

  /** The server may drop a counter from the instant of its expiry on, at any later time, and no counter that has
      none. */
  lemma EndsExactly(count: nat, expiry: Option<int>, at: int)
    ensures !Ended(Present(count, expiry), at, false)
    ensures Ended(Present(count, expiry), at, true) <==> expiry.Some? && at >= expiry.value
  {
  }

  /** So a request at or after the expiry, once the counter is dropped, is the first of a new life and admitted. */
  lemma AdmittedAfterExpiry(l: Limit, ops: seq<Op>, at: int)
    requires l.max > 0 && Run(l, ops).counter.Present? && Run(l, ops).counter.expiry.Some?
    requires Run(l, ops).counter.expiry.value <= at
    ensures var s, s' := Run(l, ops), Run(l, ops + [Incr(at, true)]);
            && |s'.hits| == |s.hits| + 1 && s'.hits[|s.hits|] == Hit(at, |s.starts|, 1)
            && s'.hits[|s.hits|].count <= l.max
            && s'.counter == Present(1, None)
  {
    hide Ended;
    var s := Run(l, ops);
    EndsExactly(s.counter.count, s.counter.expiry, at);
    assert (ops + [Incr(at, true)])[..|ops|] == ops;
  }

  // ---- any interval of one window ----

  predicate Within(h: Hit, from: int, to: int) {
    from <= h.at < to
  }

  lemma {:induction false} NoneWithin(l: Limit, hits: seq<Hit>, from: int, to: int)
    requires forall i :: 0 <= i < |hits| ==> !Within(hits[i], from, to)
    ensures AdmittedIn(l, hits, from, to) == 0
  {
    if hits != [] {
      NoneWithin(l, hits[..|hits| - 1], from, to);
    }
  }

  /** Hits from two lives only are counted by those lives, except those outside the interval. */
  lemma {:induction false} CountByLives(l: Limit, hits: seq<Hit>, from: int, to: int, life: nat, out: int)
    requires forall i :: 0 <= i < |hits| && Within(hits[i], from, to) ==> life <= hits[i].life <= life + 1
    requires -1 <= out < |hits|
    requires out >= 0 ==> Admitted(l, hits[out]) && life <= hits[out].life <= life + 1 && !Within(hits[out], from, to)
    ensures AdmittedIn(l, hits, from, to) + (if out >= 0 then 1 else 0)
         <= AdmittedOfLife(l, hits, life) + AdmittedOfLife(l, hits, life + 1)
  {
    if hits != [] {
      CountByLives(l, hits[..|hits| - 1], from, to, life, if out == |hits| - 1 then -1 else out);
    }
  }

  lemma {:induction false} CountByLife(l: Limit, hits: seq<Hit>, from: int, to: int, life: nat)
    requires forall i :: 0 <= i < |hits| && Within(hits[i], from, to) ==> hits[i].life == life
    ensures AdmittedIn(l, hits, from, to) <= AdmittedOfLife(l, hits, life)
  {
    if hits != [] {
      CountByLife(l, hits[..|hits| - 1], from, to, life);
    }
  }

  /** The smallest index of a hit in the interval. */
  lemma {:induction false} FirstWithin(hits: seq<Hit>, from: int, to: int) returns (i: int)
    ensures i == -1 ==> forall k :: 0 <= k < |hits| ==> !Within(hits[k], from, to)
    ensures i != -1 ==> 0 <= i < |hits| && Within(hits[i], from, to)
    ensures i != -1 ==> forall k :: 0 <= k < i ==> !Within(hits[k], from, to)
    ensures -1 <= i
  {
    if hits == [] {
      i := -1;
    } else {
      i := FirstWithin(hits[..|hits| - 1], from, to);
      if i == -1 && Within(hits[|hits| - 1], from, to) {
        i := |hits| - 1;
      }
    }
  }

  lemma {:induction false} StartsSpread(l: Limit, s: System, now: int, i: nat, j: nat)
    requires LivesOk(l, s, now) && l.window > 0 && i <= j < |s.starts|
    ensures s.starts[i] <= s.starts[j]
    decreases j
  {
    if i < j {
      StartsSpread(l, s, now, i, j - 1);
    }
  }

  /** The admitted hits of one window come from at most two consecutive lives. */
  lemma WindowSpansTwoLives(l: Limit, s: System, now: int, from: int, i: nat, j: nat)
    requires l.window > 0 && LivesOk(l, s, now) && HitsOk(l, s, now) && i <= j < |s.hits|
    requires Within(s.hits[i], from, from + l.window) && Within(s.hits[j], from, from + l.window)
    ensures s.hits[i].life <= s.hits[j].life <= s.hits[i].life + 1
    ensures s.hits[j].life == s.hits[i].life + 1 ==> s.starts[s.hits[i].life] < from
  {
    var a, b := s.hits[i].life, s.hits[j].life;
    if b >= a + 2 {
      StartsSpread(l, s, now, a + 2, b);
    }
  }

  lemma WindowBoundAt(l: Limit, s: System, now: int, from: int, i: nat)
    requires l.window > 0 && l.max > 0 && Inv(l, s, now) && i < |s.hits|
    requires Within(s.hits[i], from, from + l.window)
    requires forall k :: 0 <= k < i ==> !Within(s.hits[k], from, from + l.window)
    ensures AdmittedIn(l, s.hits, from, from + l.window) <= 2 * l.max - 1
  {
    hide AdmittedIn, AdmittedOfLife, LivesOk, HitsOk;
    var life, to := s.hits[i].life, from + l.window;
    forall j | 0 <= j < |s.hits| && Within(s.hits[j], from, to) ensures life <= s.hits[j].life <= life + 1 {
      WindowSpansTwoLives(l, s, now, from, i, j);
    }
    assert life < |s.starts| by { HitLife(l, s, now, i); }
    if j :| 0 <= j < |s.hits| && Within(s.hits[j], from, to) && s.hits[j].life == life + 1 {
      WindowSpansTwoLives(l, s, now, from, i, j);
      assert HasFirst(s, life);
      var out :| 0 <= out < |s.hits| && s.hits[out] == Hit(s.starts[life], life, 1);
      CountByLives(l, s.hits, from, to, life, out);
    } else {
      CountByLife(l, s.hits, from, to, life);
    }
  }

  lemma HitLife(l: Limit, s: System, now: int, i: nat)
    requires HitsOk(l, s, now) && i < |s.hits|
    ensures s.hits[i].life < |s.starts|
  {
  }

  /** In every interleaving of increments and expiries, any half-open interval of one window holds at most
      2 * max - 1 admitted requests. */
  lemma WindowBound(l: Limit, ops: seq<Op>, from: int)
    requires l.window > 0 && l.max > 0 && ClockOk(ops)
    ensures AdmittedIn(l, Run(l, ops).hits, from, from + l.window) <= 2 * l.max - 1
  {
    hide Run, Inv, AdmittedIn;
    var now := if ops == [] then 0 else ops[|ops| - 1].at;
    var s := Run(l, ops);
    RunKeepsInv(l, ops, now);
    var i := FirstWithin(s.hits, from, from + l.window);
    if i == -1 {
      NoneWithin(l, s.hits, from, from + l.window);
    } else {
      WindowBoundAt(l, s, now, from, i);
    }
  }

  // ---- the bound is attained ----

  function Repeat(op: Op, n: nat): seq<Op> {
    seq(n, _ => op)
  }

  lemma {:induction false} RunMore(l: Limit, ops: seq<Op>, at: int, n: nat)
    requires Run(l, ops).counter.Present?
    ensures var s, s' := Run(l, ops), Run(l, ops + Repeat(Incr(at, false), n));
            && s'.counter == s.counter.(count := s.counter.count + n)
            && forall from, to :: AdmittedIn(l, s'.hits, from, to) == AdmittedIn(l, s.hits, from, to)
                 + if from <= at < to then AdmittedUpTo(l, s.counter.count, n) else 0
  {
    hide AdmittedIn, Step;
    var more := ops + Repeat(Incr(at, false), n);
    if n == 0 {
      assert more == ops;
    } else {
      assert more[..|more| - 1] == ops + Repeat(Incr(at, false), n - 1);
      RunMore(l, ops, at, n - 1);
      var mid := Run(l, more[..|more| - 1]);
      assert more[|more| - 1] == Incr(at, false);
      OneMore(l, mid, at);
      forall from, to ensures AdmittedIn(l, Run(l, more).hits, from, to) == AdmittedIn(l, mid.hits, from, to)
        + if mid.counter.count + 1 <= l.max && from <= at < to then 1 else 0
      {
        var h := Run(l, more).hits[|mid.hits|];
        InAppend(l, mid.hits, h, from, to);
      }
    }
  }

  lemma OneMore(l: Limit, s: System, at: int)
    requires s.counter.Present?
    ensures var s' := Step(l, s, Incr(at, false));
            && s'.counter == s.counter.(count := s.counter.count + 1)
            && |s'.hits| == |s.hits| + 1 && s'.hits == s.hits + [s'.hits[|s.hits|]]
            && s'.hits[|s.hits|].at == at && s'.hits[|s.hits|].count == s.counter.count + 1
  {
  }

  /** How many of the next `n` answers after `count` are within the limit. */
  function AdmittedUpTo(l: Limit, count: nat, n: nat): nat {
    if count + n <= l.max then n else if count <= l.max then l.max - count else 0
  }

  /** A first request, its expiry, the rest of the quota at the end of that window and a full quota at the
      beginning of the next one: 2 * max - 1 requests within one window. */
  function Burst(l: Limit): seq<Op>
    requires l.max > 0
  {
    [Incr(0, false), Expire(0)] + Repeat(Incr(l.window - 1, false), l.max - 1)
    + [Incr(l.window, true)] + Repeat(Incr(l.window, false), l.max - 1)
  }

  lemma FirstRequest(l: Limit)
    ensures Run(l, [Incr(0, false), Expire(0)]) == System(Present(1, Some(l.window)), 0, [0], [Hit(0, 0, 1)])
  {
    var ops := [Incr(0, false), Expire(0)];
    assert ops[..1] == [Incr(0, false)] && ops[..1][..0] == [];
    assert Run(l, ops[..1]) == System(Present(1, None), 1, [0], [Hit(0, 0, 1)]);
  }

  lemma NextLife(l: Limit, ops: seq<Op>, at: int)
    requires Run(l, ops).counter.Present? && Run(l, ops).counter.expiry == Some(at)
    ensures var s, s' := Run(l, ops), Run(l, ops + [Incr(at, true)]);
            s'.counter == Present(1, None) && s'.hits == s.hits + [Hit(at, |s.starts|, 1)]
  {
    assert (ops + [Incr(at, true)])[..|ops|] == ops;
  }

  lemma InAppend(l: Limit, hits: seq<Hit>, h: Hit, from: int, to: int)
    ensures AdmittedIn(l, hits + [h], from, to)
         == AdmittedIn(l, hits, from, to) + if Admitted(l, h) && from <= h.at < to then 1 else 0
  {
    assert (hits + [h])[..|hits|] == hits;
  }

  lemma BurstClock(l: Limit)
    requires l.window > 1 && l.max > 0
    ensures ClockOk(Burst(l))
  {
  }

  /** The bound is sharp for every limit with at least two instants in its window. */
  lemma BoundAttained(l: Limit)
    requires l.window > 1 && l.max > 0
    ensures ClockOk(Burst(l))
    ensures AdmittedIn(l, Run(l, Burst(l)).hits, l.window - 1, l.window - 1 + l.window) == 2 * l.max - 1
  {
    hide Run, AdmittedIn, ClockOk;
    BurstClock(l);
    var from, to := l.window - 1, l.window - 1 + l.window;
    var ops0 := [Incr(0, false), Expire(0)];
    var ops1 := ops0 + Repeat(Incr(l.window - 1, false), l.max - 1);
    var ops2 := ops1 + [Incr(l.window, true)];
    FirstRequest(l);
    InAppend(l, [], Hit(0, 0, 1), from, to);
    NoneWithin(l, [], from, to);
    assert [] + [Hit(0, 0, 1)] == [Hit(0, 0, 1)];
    RunMore(l, ops0, l.window - 1, l.max - 1);
    NextLife(l, ops1, l.window);
    InAppend(l, Run(l, ops1).hits, Hit(l.window, |Run(l, ops1).starts|, 1), from, to);
    RunMore(l, ops2, l.window, l.max - 1);
  }

  /** At most `max` admitted requests in one window, from any instant on. */
  ghost predicate WindowKeepsMax(l: Limit, ops: seq<Op>, from: int) {
    AdmittedIn(l, Run(l, ops).hits, from, from + l.window) <= l.max
  }

  /** So the limit holds for every window of every run exactly when it is one request. */
  lemma WindowKeepsMaxExactly(l: Limit)
    requires l.window > 1 && l.max > 0
    ensures (forall ops, from :: ClockOk(ops) ==> WindowKeepsMax(l, ops, from)) <==> l.max == 1
  {
    hide Run, AdmittedIn, ClockOk;
    if l.max == 1 {
      forall ops, from | ClockOk(ops) ensures WindowKeepsMax(l, ops, from) {
        WindowBound(l, ops, from);
      }
    } else {
      BoundAttained(l);
      assert !WindowKeepsMax(l, Burst(l), l.window - 1);
    }
  }
}
