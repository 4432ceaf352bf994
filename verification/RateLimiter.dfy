/**
 The per-network rate limiter.  A window is anchored at the request that opens it; the quota resets
 when the window has passed.  The clock reading is an argument.
 */
module RateLimiters {

  type Id = string

  datatype Counter = Counter(start: real, count: int)

  datatype Limits = Limits(quota: int, window: real)

  /** The checks made by the constructor. */
  predicate GoodLimits(l: Limits)
  {
    l.quota >= 0 && l.window > 0.0
  }

  // ----- one request

  /** The counter a request is judged by: absent means new, expired means anchored anew. */
  function Current(l: Limits, counters: map<Id, Counter>, id: Id, now: real): Counter
  {
    if id !in counters || now - counters[id].start >= l.window then Counter(now, 0) else counters[id]
  }

  predicate Admits(l: Limits, counters: map<Id, Counter>, id: Id, now: real)
  {
    Current(l, counters, id, now).count < l.quota
  }

  function Next(l: Limits, counters: map<Id, Counter>, id: Id, now: real): map<Id, Counter>
  {
    if Admits(l, counters, id, now) then
      var c := Current(l, counters, id, now);
      counters[id := Counter(c.start, c.count + 1)]
    else counters
  }

  function RemainingQuota(l: Limits, counters: map<Id, Counter>, id: Id, now: real): int
  {
    if id !in counters then (if l.quota >= 0 then l.quota else 0)
    else if now - counters[id].start >= l.window then l.quota
    else if counters[id].count <= l.quota then l.quota - counters[id].count else 0
  }

  /** The remaining quota is what it says: a request is admitted exactly while some is left, and uses up one unit. */
  lemma RemainingExact(l: Limits, counters: map<Id, Counter>, id: Id, now: real)
    requires GoodLimits(l)
    ensures Admits(l, counters, id, now) <==> RemainingQuota(l, counters, id, now) > 0
    ensures RemainingQuota(l, Next(l, counters, id, now), id, now) ==
            RemainingQuota(l, counters, id, now) - if Admits(l, counters, id, now) then 1 else 0
  {
  }

  // ----- traces

  datatype Request = Request(id: Id, time: real)

  ghost predicate Ordered(reqs: seq<Request>)
  {
    forall i, j :: 0 <= i <= j < |reqs| ==> reqs[i].time <= reqs[j].time
  }

  ghost function After(l: Limits, reqs: seq<Request>): map<Id, Counter>
  {
    if reqs == [] then map[]
    else
      var n := |reqs| - 1;
      Next(l, After(l, reqs[..n]), reqs[n].id, reqs[n].time)
  }

  ghost predicate Counts(l: Limits, reqs: seq<Request>, id: Id, lo: real, hi: real)
    requires reqs != []
  {
    var n := |reqs| - 1;
    reqs[n].id == id && lo <= reqs[n].time < hi && Admits(l, After(l, reqs[..n]), id, reqs[n].time)
  }

  /** How many requests of one network, made at times from `lo` up to but excluding `hi`, were admitted. */
  ghost function Admitted(l: Limits, reqs: seq<Request>, id: Id, lo: real, hi: real): (n: nat)
  {
    if reqs == [] then 0
    else Admitted(l, reqs[..|reqs| - 1], id, lo, hi) + if Counts(l, reqs, id, lo, hi) then 1 else 0
  }

  lemma {:induction false} AdmittedMonotone(l: Limits, reqs: seq<Request>, id: Id, lo: real, hi: real, lo': real,
      hi': real)
    requires lo' <= lo && hi <= hi'
    ensures Admitted(l, reqs, id, lo, hi) <= Admitted(l, reqs, id, lo', hi')
    decreases |reqs|
  {
    hide Admits;
    if reqs != [] {
      AdmittedMonotone(l, reqs[..|reqs| - 1], id, lo, hi, lo', hi');
    }
  }

  lemma {:induction false} AdmittedSplit(l: Limits, reqs: seq<Request>, id: Id, lo: real, mid: real, hi: real)
    requires lo <= mid <= hi
    ensures Admitted(l, reqs, id, lo, hi) == Admitted(l, reqs, id, lo, mid) + Admitted(l, reqs, id, mid, hi)
    decreases |reqs|
  {
    hide Admits;
    if reqs != [] {
      AdmittedSplit(l, reqs[..|reqs| - 1], id, lo, mid, hi);
    }
  }

  /** The largest number of requests one window length may see: a full window less its anchor, then a full window. */
  function Bound(l: Limits): int
  {
    if l.quota == 0 then 0 else 2 * l.quota - 1
  }

  ghost function InWindow(l: Limits, reqs: seq<Request>, id: Id, lo: real): nat
  {
    Admitted(l, reqs, id, lo, lo + l.window)
  }

  /**
   The window from `start` to `end` holds `count` admissions; nothing was admitted past its end;
   strictly after the anchor one less; and in the stretch of one window length before the anchor
   the previous window's anchor cannot appear.
   */
  ghost predicate WindowHolds(l: Limits, reqs: seq<Request>, id: Id, start: real, end: real, count: int)
  {
    && 1 <= count <= l.quota
    && Admitted(l, reqs, id, start, end) == count
    && (forall hi :: Admitted(l, reqs, id, end, hi) == 0)
    && (forall lo :: lo > start ==> Admitted(l, reqs, id, lo, end) <= count - 1)
    && (forall lo :: lo > start - l.window ==> Admitted(l, reqs, id, lo, start) <= l.quota - 1)
  }

  /** What the counter of a network says about the trace so far. */
  ghost predicate Tracked(l: Limits, reqs: seq<Request>, id: Id)
  {
    var counters := After(l, reqs);
    if id !in counters then forall lo, hi :: Admitted(l, reqs, id, lo, hi) == 0
    else
      var c := counters[id];
      && reqs != [] && c.start <= reqs[|reqs| - 1].time
      && WindowHolds(l, reqs, id, c.start, c.start + l.window, c.count)
  }

  ghost predicate Bounded(l: Limits, reqs: seq<Request>, id: Id)
  {
    forall lo :: InWindow(l, reqs, id, lo) <= Bound(l)
  }

  /** A request of another network, or a refused one, changes nothing. */
  lemma Unchanged(l: Limits, reqs: seq<Request>, id: Id)
    requires reqs != [] && Ordered(reqs)
    requires var n := |reqs| - 1; reqs[n].id != id || !Admits(l, After(l, reqs[..n]), id, reqs[n].time)
    requires var n := |reqs| - 1; Tracked(l, reqs[..n], id) && Bounded(l, reqs[..n], id)
    ensures Tracked(l, reqs, id) && Bounded(l, reqs, id)
  {
    var n := |reqs| - 1;
    var prefix := reqs[..n];
    forall lo, hi ensures Admitted(l, reqs, id, lo, hi) == Admitted(l, prefix, id, lo, hi) { }
    assert id in After(l, reqs) <==> id in After(l, prefix);
    hide Admits;
    if id in After(l, prefix) {
      assert After(l, reqs)[id] == After(l, prefix)[id];
      assert prefix[|prefix| - 1].time <= reqs[n].time;
    }
    forall lo ensures InWindow(l, reqs, id, lo) <= Bound(l)
    {
      assert InWindow(l, prefix, id, lo) <= Bound(l);
    }
  }

  /** The effect of admitting the last request on the counts. */
  lemma OneMore(l: Limits, reqs: seq<Request>, id: Id, lo: real, hi: real)
    requires reqs != []
    requires var n := |reqs| - 1; reqs[n].id == id && Admits(l, After(l, reqs[..n]), id, reqs[n].time)
    ensures var n := |reqs| - 1;
            Admitted(l, reqs, id, lo, hi) == Admitted(l, reqs[..n], id, lo, hi) + if lo <= reqs[n].time < hi then 1
                else 0
  {
  }

  /** An admission inside the current window. */
  lemma SameWindow(l: Limits, reqs: seq<Request>, id: Id, start: real, end: real, count: int)
    requires GoodLimits(l) && reqs != [] && end == start + l.window
    requires var n := |reqs| - 1;
             && reqs[n].id == id && Admits(l, After(l, reqs[..n]), id, reqs[n].time) && start <= reqs[n].time < end
             && WindowHolds(l, reqs[..n], id, start, end, count) && count < l.quota && Bounded(l, reqs[..n], id)
    ensures WindowHolds(l, reqs, id, start, end, count + 1) && Bounded(l, reqs, id)
  {
    hide Admitted, Admits, After;
    var n := |reqs| - 1;
    var prefix, now := reqs[..n], reqs[n].time;
    OneMore(l, reqs, id, start, end);
    forall hi ensures Admitted(l, reqs, id, end, hi) == 0
    {
      OneMore(l, reqs, id, end, hi);
    }
    forall lo | lo > start ensures Admitted(l, reqs, id, lo, end) <= count
    {
      OneMore(l, reqs, id, lo, end);
    }
    forall lo | lo > start - l.window ensures Admitted(l, reqs, id, lo, start) <= l.quota - 1
    {
      OneMore(l, reqs, id, lo, start);
    }
    forall lo ensures InWindow(l, reqs, id, lo) <= Bound(l)
    {
      SameWindowBound(l, reqs, id, start, end, count, lo);
    }
  }

  lemma SameWindowBound(l: Limits, reqs: seq<Request>, id: Id, start: real, end: real, count: int, lo: real)
    requires GoodLimits(l) && reqs != [] && end == start + l.window
    requires var n := |reqs| - 1;
             && reqs[n].id == id && Admits(l, After(l, reqs[..n]), id, reqs[n].time) && start <= reqs[n].time < end
             && WindowHolds(l, reqs[..n], id, start, end, count) && count < l.quota && Bounded(l, reqs[..n], id)
    ensures InWindow(l, reqs, id, lo) <= Bound(l)
  {
    hide Admitted, Admits, After;
    var n := |reqs| - 1;
    var prefix, hi := reqs[..n], lo + l.window;
    OneMore(l, reqs, id, lo, hi);
    assert InWindow(l, prefix, id, lo) <= Bound(l);
    if lo <= reqs[n].time < hi {
      if lo <= start {
        AdmittedSplit(l, prefix, id, lo, start, hi);
        AdmittedMonotone(l, prefix, id, start, hi, start, end);
        assert Admitted(l, prefix, id, lo, start) <= l.quota - 1;
      } else {
        AdmittedSplit(l, prefix, id, lo, end, hi);
        assert Admitted(l, prefix, id, end, hi) == 0;
        assert Admitted(l, prefix, id, lo, end) <= count - 1;
      }
    }
  }

  /** An admission that opens a window. */
  lemma NewWindow(l: Limits, reqs: seq<Request>, id: Id)
    requires GoodLimits(l) && l.quota > 0 && reqs != []
    requires var n := |reqs| - 1;
             var prefix, now := reqs[..n], reqs[n].time;
             && reqs[n].id == id && Admits(l, After(l, prefix), id, now) && Bounded(l, prefix, id)
             && (forall hi :: Admitted(l, prefix, id, now, hi) == 0)
             && (forall lo :: lo > now - l.window ==> Admitted(l, prefix, id, lo, now) <= l.quota - 1)
    ensures var now := reqs[|reqs| - 1].time; WindowHolds(l, reqs, id, now, now + l.window, 1)
    ensures Bounded(l, reqs, id)
  {
    hide Admitted, Admits, After;
    var n := |reqs| - 1;
    var prefix, now := reqs[..n], reqs[n].time;
    var end := now + l.window;
    OneMore(l, reqs, id, now, end);
    forall hi ensures Admitted(l, reqs, id, end, hi) == 0
    {
      OneMore(l, reqs, id, end, hi);
      AdmittedMonotone(l, prefix, id, end, hi, now, hi);
    }
    forall lo | lo > now ensures Admitted(l, reqs, id, lo, end) <= 0
    {
      OneMore(l, reqs, id, lo, end);
      AdmittedMonotone(l, prefix, id, lo, end, now, end);
    }
    forall lo | lo > now - l.window ensures Admitted(l, reqs, id, lo, now) <= l.quota - 1
    {
      OneMore(l, reqs, id, lo, now);
    }
    forall lo ensures InWindow(l, reqs, id, lo) <= Bound(l)
    {
      var hi := lo + l.window;
      OneMore(l, reqs, id, lo, hi);
      assert InWindow(l, prefix, id, lo) <= Bound(l);
      if lo <= now < hi {
        AdmittedSplit(l, prefix, id, lo, now, hi);
      }
    }
  }

  /** A window that has passed leaves room for the next one. */
  lemma Passed(l: Limits, reqs: seq<Request>, id: Id, start: real, end: real, count: int, now: real)
    requires GoodLimits(l) && end == start + l.window && now >= end && WindowHolds(l, reqs, id, start, end, count)
    ensures forall hi :: Admitted(l, reqs, id, now, hi) == 0
    ensures forall lo :: lo > now - l.window ==> Admitted(l, reqs, id, lo, now) <= l.quota - 1
  {
    hide Admitted;
    forall hi ensures Admitted(l, reqs, id, now, hi) == 0
    {
      AdmittedMonotone(l, reqs, id, now, hi, end, hi);
    }
    forall lo | lo > now - l.window ensures Admitted(l, reqs, id, lo, now) <= l.quota - 1
    {
      if lo <= end {
        AdmittedSplit(l, reqs, id, lo, end, now);
        assert Admitted(l, reqs, id, lo, end) <= count - 1;
      } else {
        AdmittedMonotone(l, reqs, id, lo, now, end, now);
      }
    }
  }

  lemma AdmittedStep(l: Limits, reqs: seq<Request>, id: Id)
    requires GoodLimits(l) && reqs != [] && Ordered(reqs)
    requires var n := |reqs| - 1;
             && reqs[n].id == id && Admits(l, After(l, reqs[..n]), id, reqs[n].time)
             && Tracked(l, reqs[..n], id) && Bounded(l, reqs[..n], id)
    ensures Tracked(l, reqs, id) && Bounded(l, reqs, id)
  {
    hide Admitted, WindowHolds, Bounded;
    var n := |reqs| - 1;
    var prefix, now := reqs[..n], reqs[n].time;
    var counters := After(l, prefix);
    var c := Current(l, counters, id, now);
    assert After(l, reqs) == counters[id := Counter(c.start, c.count + 1)];
    if id !in counters {
      NewWindow(l, reqs, id);
    } else {
      var old' := counters[id];
      assert prefix[|prefix| - 1].time <= now;
      if now - old'.start >= l.window {
        Passed(l, prefix, id, old'.start, old'.start + l.window, old'.count, now);
        NewWindow(l, reqs, id);
      } else {
        SameWindow(l, reqs, id, old'.start, old'.start + l.window, old'.count);
      }
    }
  }

  /** Every trace with a clock that does not run backwards is tracked and bounded. */
  lemma {:induction false} TraceBounded(l: Limits, reqs: seq<Request>, id: Id)
    requires GoodLimits(l) && Ordered(reqs)
    ensures Tracked(l, reqs, id) && Bounded(l, reqs, id)
    decreases |reqs|
  {
    if reqs == [] {
      forall lo, hi ensures Admitted(l, [], id, lo, hi) == 0 { }
    } else {
      hide Tracked, Bounded, Admits;
      var n := |reqs| - 1;
      TraceBounded(l, reqs[..n], id);
      if reqs[n].id == id && Admits(l, After(l, reqs[..n]), id, reqs[n].time) {
        AdmittedStep(l, reqs, id);
      } else {
        Unchanged(l, reqs, id);
      }
    }
  }

  /** Any half-open stretch of one window length holds at most twice the quota, less one, of admitted requests. */
  lemma AtMostTwice(l: Limits, reqs: seq<Request>, id: Id, lo: real)
    requires GoodLimits(l) && Ordered(reqs)
    ensures Admitted(l, reqs, id, lo, lo + l.window) <= Bound(l) <= 2 * l.quota
  {
    hide Admitted;
    TraceBounded(l, reqs, id);
    assert InWindow(l, reqs, id, lo) <= Bound(l);
  }

  /** Each anchored window, past ones included, admits at most the quota. */
  lemma {:induction false} AnchoredWindow(l: Limits, reqs: seq<Request>, k: nat, id: Id)
    requires GoodLimits(l) && Ordered(reqs) && k <= |reqs| && id in After(l, reqs[..k])
    ensures id in After(l, reqs)
    ensures var start, now := After(l, reqs[..k])[id].start, After(l, reqs)[id].start;
            && (now == start || now >= start + l.window)
            && Admitted(l, reqs, id, start, start + l.window) <= l.quota
    decreases |reqs|
  {
    var start := After(l, reqs[..k])[id].start;
    if k == |reqs| {
      assert reqs[..k] == reqs;
      hide Admitted;
      TraceBounded(l, reqs, id);
    } else {
      var n := |reqs| - 1;
      var prefix := reqs[..n];
      assert prefix[..k] == reqs[..k];
      AnchoredWindow(l, prefix, k, id);
      TraceBounded(l, reqs, id);
      if After(l, reqs)[id].start >= start + l.window {
        LaterRequest(l, reqs, id, start + l.window);
      }
    }
  }

  /** A request judged by a window that starts at or after `end` is not counted before it. */
  lemma LaterRequest(l: Limits, reqs: seq<Request>, id: Id, end: real)
    requires GoodLimits(l) && Ordered(reqs) && reqs != [] && id in After(l, reqs) && After(l, reqs)[id].start >= end
    requires Tracked(l, reqs, id)
    ensures forall lo :: Admitted(l, reqs, id, lo, end) == Admitted(l, reqs[..|reqs| - 1], id, lo, end)
  {
    assert reqs[|reqs| - 1].time >= end;
  }

  // ----- the bound is met

  ghost function Repeated(id: Id, t: real, n: nat): (reqs: seq<Request>)
    ensures |reqs| == n && forall i :: 0 <= i < n ==> reqs[i] == Request(id, t)
  {
    seq(n, _ => Request(id, t))
  }

  /** One more request within the window and the quota. */
  lemma OneAdmitted(l: Limits, reqs: seq<Request>, id: Id, t: real, start: real, count: int)
    requires t - start < l.window && count < l.quota && Current(l, After(l, reqs), id, t) == Counter(start, count)
    ensures var all := reqs + [Request(id, t)];
            && all[..|all| - 1] == reqs && Admits(l, After(l, reqs), id, t)
            && id in After(l, all) && After(l, all)[id] == Counter(start, count + 1)
            && Current(l, After(l, all), id, t) == Counter(start, count + 1)
  {
    var all := reqs + [Request(id, t)];
    assert all[..|all| - 1] == reqs;
  }

  /** Requests at one time within one window are all admitted while the quota lasts. */
  lemma {:induction false} Burst(l: Limits, reqs: seq<Request>, id: Id, t: real, n: nat, start: real, count: int,
      lo: real, hi: real)
    requires t - start < l.window && count + n <= l.quota && Current(l, After(l, reqs), id, t) == Counter(start, count)
    ensures var all := reqs + Repeated(id, t, n);
            && Current(l, After(l, all), id, t) == Counter(start, count + n)
            && (n > 0 ==> id in After(l, all) && After(l, all)[id] == Counter(start, count + n))
            && Admitted(l, all, id, lo, hi) == Admitted(l, reqs, id, lo, hi) + if lo <= t < hi then n else 0
    decreases n
  {
    hide Current, After, Admitted, Admits;
    if n == 0 {
      assert reqs + Repeated(id, t, 0) == reqs;
    } else {
      Burst(l, reqs, id, t, n - 1, start, count, lo, hi);
      var before := reqs + Repeated(id, t, n - 1);
      OneAdmitted(l, before, id, t, start, count + n - 1);
      OneMore(l, before + [Request(id, t)], id, lo, hi);
      assert before + [Request(id, t)] == reqs + Repeated(id, t, n);
    }
  }

  /**
   One request opens a window, the rest of its quota comes half a window later, and a full quota as
   soon as it has passed.
   */
  ghost function Worst(l: Limits, id: Id): seq<Request>
    requires GoodLimits(l) && l.quota >= 1
  {
    Repeated(id, 0.0, 1) + Repeated(id, l.window / 2.0, l.quota - 1) + Repeated(id, l.window, l.quota)
  }

  lemma BurstsOrdered(id: Id, t: real, a: nat, u: real, b: nat, v: real, c: nat)
    requires t <= u <= v
    ensures Ordered(Repeated(id, t, a) + Repeated(id, u, b) + Repeated(id, v, c))
  {
  }

  /** A first request, then the rest of its quota in the same window, then a full quota in the next. */
  lemma ThreeBursts(l: Limits, id: Id, half: real, lo: real, hi: real)
    requires GoodLimits(l) && l.quota >= 1 && 0.0 < half < l.window && 0.0 < lo <= half && l.window < hi
    ensures Admitted(l, Repeated(id, 0.0, 1) + Repeated(id, half, l.quota - 1) + Repeated(id, l.window, l.quota), id,
        lo, hi)
         == 2 * l.quota - 1
  {
    hide Admitted, After;
    var q, first := l.quota, Repeated(id, 0.0, 1);
    var second := first + Repeated(id, half, q - 1);
    NoneYet(l, id, lo, hi);
    assert [] + first == first;
    Burst(l, [], id, 0.0, 1, 0.0, 0, lo, hi);
    Burst(l, first, id, half, q - 1, 0.0, 1, lo, hi);
    if q == 1 {
      assert second == first;
    }
    Burst(l, second, id, l.window, q, l.window, 0, lo, hi);
  }

  lemma NoneYet(l: Limits, id: Id, lo: real, hi: real)
    ensures After(l, []) == map[] && Admitted(l, [], id, lo, hi) == 0
  {
  }

  /** For every quota and every window some trace admits as many requests as the bound allows. */
  lemma BoundIsMet(l: Limits, id: Id)
    requires GoodLimits(l) && l.quota >= 1
    ensures Ordered(Worst(l, id))
    ensures Admitted(l, Worst(l, id), id, l.window / 2.0, l.window / 2.0 + l.window) == Bound(l)
  {
    hide Admitted, Ordered;
    var half := l.window / 2.0;
    BurstsOrdered(id, 0.0, 1, half, l.quota - 1, l.window, l.quota);
    ThreeBursts(l, id, half, half, half + l.window);
  }

  // ----- the limiter object

  class FederationRateLimiter {
    const limits: Limits
    var counters: map<Id, Counter>

    constructor (l: Limits)
      requires GoodLimits(l)
      ensures limits == l && counters == map[]
    {
      limits, counters := l, map[];
    }

    /** Each call is one step of a trace; a refused one leaves the counters alone. */
    method Allow(id: Id, now: real) returns (ok: bool)
      modifies this
      ensures ok == Admits(limits, old(counters), id, now)
      ensures counters == Next(limits, old(counters), id, now)
    {
      var start, count := now, 0;
      if id in counters {
        start, count := counters[id].start, counters[id].count;
      }
      if now - start >= limits.window {
        start, count := now, 0;
      }
      if count >= limits.quota { return false; }
      counters := counters[id := Counter(start, count + 1)];
      ok := true;
    }

    method Remaining(id: Id, now: real) returns (left: int)
      requires GoodLimits(limits)
      ensures left == RemainingQuota(limits, counters, id, now)
      ensures left > 0 <==> Admits(limits, counters, id, now)
    {
      if id !in counters || now - counters[id].start >= limits.window { return limits.quota; }
      left := if limits.quota - counters[id].count > 0 then limits.quota - counters[id].count else 0;
    }

    method Reset(id: Id)
      modifies this
      ensures counters == old(counters) - {id}
    {
      counters := counters - {id};
    }
  }
}
