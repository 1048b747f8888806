/** Reading the audit log in pages: the store's filtered, sorted and clamped listing, and the gateway's walk
    over it. */
module PageWalk {
  import opened Wrappers
  import opened Integers

  /** `performedAt` is in nanoseconds. */
  datatype Event = Event(id: nat, performedAt: int)

  const PAGE: nat := 100

  // ---- the store's listing ----

  function Filter(log: seq<Event>, keep: Event -> bool): seq<Event> {
    if log == [] then []
    else Filter(log[..|log| - 1], keep) + if keep(log[|log| - 1]) then [log[|log| - 1]] else []
  }

  ghost predicate NewestFirst(xs: seq<Event>) {
    forall i, j :: 0 <= i < j < |xs| ==> xs[i].performedAt >= xs[j].performedAt
  }

  /** What is known of `sort.Slice`: it permutes and orders, and does the same to the same input. Events of
      one time may come in any order. */
  ghost predicate Sorts(sort: seq<Event> -> seq<Event>) {
    forall xs: seq<Event> :: multiset(sort(xs)) == multiset(xs) && |sort(xs)| == |xs| && NewestFirst(sort(xs))
  }

  /** The bounds of a window in Unix seconds, each absent unless positive: from included, to excluded. */
  predicate InWindow(e: Event, from: int64, to: int64) {
    (from <= 0 || e.performedAt >= UnixInstant(from)) && (to <= 0 || e.performedAt < UnixInstant(to))
  }

  function KeepWindow(from: int64, to: int64): Event -> bool {
    e => InWindow(e, from, to)
  }

  function Clamp(offset: int, limit: int): (int, int) {
    (if offset < 0 then 0 else offset, if limit <= 0 then 20 else if limit > 100 then 100 else limit)
  }

  function Page(listing: seq<Event>, offset: int, limit: int): seq<Event> {
    var (o, l) := Clamp(offset, limit);
    if o > |listing| then [] else listing[o..if o + l > |listing| then |listing| else o + l]
  }

  /** `ListAudit`, with the filter conditions as one predicate. */
  method ListAudit(log: seq<Event>, keep: Event -> bool, sort: seq<Event> -> seq<Event>, offset: int, limit: int)
    returns (page: seq<Event>, total: nat)
    requires Sorts(sort)
    ensures total == |Filter(log, keep)|
    ensures page == Page(sort(Filter(log, keep)), offset, limit)
  {
    var matched: seq<Event> := [];
    var i := 0;
    while i < |log|
      invariant 0 <= i <= |log| && matched == Filter(log[..i], keep)
    {
      assert log[..i + 1][..i] == log[..i];
      if keep(log[i]) {
        matched := matched + [log[i]];
      }
      i := i + 1;
    }
    assert log[..i] == log;
    matched := sort(matched);
    total := |matched|;
    var o := offset;
    if o < 0 {
      o := 0;
    }
    if o > total {
      return [], total;
    }
    var l := limit;
    if l <= 0 {
      l := 20;
    }
    if l > 100 {
      l := 100;
    }
    var end := o + l;
    if end > total {
      end := total;
    }
    page := matched[o..end];
  }

  /** Bounds that the service answers with an error. */
  predicate Disordered(from: int64, to: int64) {
    from > 0 && to > 0 && UnixInstant(to) < UnixInstant(from)
  }

  /** `ListAuditEvents` of the service for a window: the check of the bounds, a first clamping, and the store. */
  method ListAuditEvents(log: seq<Event>, from: int64, to: int64, sort: seq<Event> -> seq<Event>,
                         offset: int, limit: int)
    returns (page: Option<seq<Event>>)
    requires Sorts(sort)
    ensures page.None? <==> Disordered(from, to)
    ensures page.Some? ==> page.value == Page(sort(Filter(log, KeepWindow(from, to))), offset, limit)
  {
    hide Filter, KeepWindow, Sorts, Page;
    if Disordered(from, to) {
      return None;
    }
    var (o, l) := Clamp(offset, limit);
    var events, total := ListAudit(log, KeepWindow(from, to), sort, o, l);
    ClampTwice(sort(Filter(log, KeepWindow(from, to))), offset, limit);
    page := Some(events);
  }

  lemma ClampTwice(listing: seq<Event>, offset: int, limit: int)
    ensures var (o, l) := Clamp(offset, limit); Page(listing, o, l) == Page(listing, offset, limit)
  {
  }

  // ---- the walk ----

  function Min(a: nat, b: nat): nat {
    if a < b then a else b
  }

  lemma NextPage(listing: seq<Event>, offset: nat)
    requires offset <= |listing|
    ensures listing[..offset] + Page(listing, offset, PAGE) == listing[..Min(offset + PAGE, |listing|)]
    ensures |Page(listing, offset, PAGE)| == Min(offset + PAGE, |listing|) - offset
  {
  }

  /** The walk ends at the cap or on the first page that is not full. */
  lemma CallCount(cap: nat, n: nat, calls: nat)
    requires calls > 0 ==> PAGE * (calls - 1) < cap
    requires cap <= PAGE * calls <= n || (calls > 0 && PAGE * (calls - 1) <= n < PAGE * calls)
    ensures calls == Min((cap + PAGE - 1) / PAGE, n / PAGE + 1)
  {
  }

  /** `fetchCaWindow` over a log that does not change during the walk: the first `cap` events of the
      listing, in ⌈cap/100⌉ calls when the cap ends the walk and ⌊n/100⌋ + 1 when the log does. It fails exactly
      when it makes a call and the bounds are disordered, on the first call. */
  method FetchCaWindow(log: seq<Event>, from: int64, to: int64, sort: seq<Event> -> seq<Event>, cap: nat)
    returns (out: Option<seq<Event>>, calls: nat)
    requires Sorts(sort)
    ensures out.None? <==> cap > 0 && Disordered(from, to)
    ensures out.None? ==> calls == 1
    ensures var listing := sort(Filter(log, KeepWindow(from, to)));
            out.Some? ==> out.value == listing[..Min(cap, |listing|)]
                          && calls == Min((cap + PAGE - 1) / PAGE, |listing| / PAGE + 1)
  {
    hide Filter, KeepWindow, Page, Sorts, Disordered;
    ghost var listing := sort(Filter(log, KeepWindow(from, to)));
    var all: seq<Event> := [];
    var offset := 0;
    calls := 0;
    while |all| < cap
      invariant offset == PAGE * calls
      invariant offset <= |listing| && all == listing[..offset]
      invariant calls > 0 ==> PAGE * (calls - 1) < cap && !Disordered(from, to)
      decreases cap - offset
    {
      var page := ListAuditEvents(log, from, to, sort, offset, PAGE);
      calls := calls + 1;
      if page.None? {
        return None, calls;
      }
      NextPage(listing, offset);
      all := all + page.value;
      if |page.value| < PAGE {
        break;
      }
      offset := offset + PAGE;
    }
    CallCount(cap, |listing|, calls);
    out := Some(all[..Min(cap, |all|)]);
  }

  lemma {:induction false} FilterSelects(log: seq<Event>, keep: Event -> bool, e: Event)
    ensures multiset(Filter(log, keep))[e] == if keep(e) then multiset(log)[e] else 0
  {
    if log != [] {
      FilterSelects(log[..|log| - 1], keep, e);
      assert log == log[..|log| - 1] + [log[|log| - 1]];
    }
  }

  /** An event is listed for a window exactly when the log holds it and it lies within: at or after the first
      second, when there is one, and before the last. */
  lemma ListedExactly(log: seq<Event>, from: int64, to: int64, e: Event)
    requires from <= LAST_TIMESTAMP && to <= LAST_TIMESTAMP
    ensures e in Filter(log, KeepWindow(from, to)) <==>
      && e in log
      && (from > 0 ==> from * 1_000_000_000 <= e.performedAt) && (to > 0 ==> e.performedAt < to * 1_000_000_000)
  {
    FilterSelects(log, KeepWindow(from, to), e);
    UnixInstantExactly(from);
    UnixInstantExactly(to);
  }

  /** Bounds are refused exactly when both are there and the end comes first. */
  lemma DisorderedExactly(from: int64, to: int64)
    requires from <= LAST_TIMESTAMP && to <= LAST_TIMESTAMP
    ensures Disordered(from, to) <==> 0 < to < from
  {
    UnixInstantExactly(from);
    UnixInstantExactly(to);
  }

  /** What the walk returns, without naming the listing: of the matching events the `cap` newest, each as
      often as the log holds it when nothing is cut off. */
  lemma WalkReturnsNewest(log: seq<Event>, keep: Event -> bool, sort: seq<Event> -> seq<Event>, cap: nat)
    requires Sorts(sort)
    ensures var listing := sort(Filter(log, keep));
            var out, rest := listing[..Min(cap, |listing|)], listing[Min(cap, |listing|)..];
            && NewestFirst(out)
            && (forall i, j :: 0 <= i < |out| && 0 <= j < |rest| ==> out[i].performedAt >= rest[j].performedAt)
            && forall e :: multiset(out)[e] + multiset(rest)[e] == if keep(e) then multiset(log)[e] else 0
  {
    hide Filter, Min;
    var listing := sort(Filter(log, keep));
    var m := Min(cap, |listing|);
    CutBounds(cap, |listing|);
    forall e ensures multiset(listing[..m])[e] + multiset(listing[m..])[e] == if keep(e) then multiset(log)[e] else 0 {
      FilterSelects(log, keep, e);
      assert listing == listing[..m] + listing[m..];
    }
  }

  lemma CutBounds(cap: nat, n: nat)
    ensures Min(cap, n) <= n
  {
  }
}
