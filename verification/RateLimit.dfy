/**
 * The BPF rate limiter: fixed windows with running totals, and the in-map
 * wrapper that notifies user space when a window starts to miss events.
 */
module RateLimit {
  import opened Machine

  const NSEC_PER_SEC := 1000000000

  datatype Rate = Rate(interval: nat, begin: nat, burst: nat, maxBurst: nat, events: nat, nmissed: nat,
                       totalEvents: nat, totalNmissed: nat, totalInterval: nat)

  // Does a call at second `now` open a new window?
  predicate Resets(r: Rate, now: nat) {
    var begin := if r.begin == 0 then now else r.begin;
    now > (begin + r.interval) % TWO64
  }

  // The record once the window of the call is settled.
  function Windowed(r: Rate, now: nat): Rate
  {
    var a := if r.begin == 0 then r.(begin := now) else r;
    if Resets(r, now) then
      a.(totalInterval := a.totalInterval + (now - a.begin) % TWO64, begin := now, events := 0, nmissed := 0)
    else a
  }

  // Is the call limited?
  predicate Misses(r: Rate, now: nat)
  {
    r.interval != 0 && Windowed(r, now).burst <= Windowed(r, now).events
  }

  function Call(r: Rate, now: nat): Rate
  {
    if r.interval == 0 then r
    else
      var w := Windowed(r, now);
      if Misses(r, now) then w.(nmissed := w.nmissed + 1, totalNmissed := w.totalNmissed + 1)
      else w.(events := w.events + 1, totalEvents := w.totalEvents + 1)
  }

  // ------------------------------------------------------------- as a program

  class BpfRatelimit {
    var interval: nat
    var begin: nat
    var burst: nat
    var maxBurst: nat
    var events: nat
    var nmissed: nat
    var totalEvents: nat
    var totalNmissed: nat
    var totalInterval: nat

    ghost function Model(): Rate
      reads this
    {
      Rate(interval, begin, burst, maxBurst, events, nmissed, totalEvents, totalNmissed, totalInterval)
    }

    method Ratelimited(ns: nat) returns (limited: bool)
      modifies this
      ensures limited == Misses(old(Model()), ns / NSEC_PER_SEC)
      ensures Model() == Call(old(Model()), ns / NSEC_PER_SEC)
    {
      if interval == 0 {
        return false;
      }
      var curr := ns / NSEC_PER_SEC;
      if begin == 0 {
        begin := curr;
      }
      if curr > (begin + interval) % TWO64 {
        totalInterval := totalInterval + (curr - begin) % TWO64;
        begin := curr;
        events, nmissed := 0, 0;
      }
      if burst != 0 && burst > events {
        events := events + 1;
        totalEvents := totalEvents + 1;
        return false;
      }
      nmissed := nmissed + 1;
      totalNmissed := totalNmissed + 1;
      return true;
    }

    // The wrapper over a record kept in a map: configured on first use, and
    // notifying on the first miss of a window and beyond the maximum burst.
    method RatelimitedInMap(cfg: Config, ns: nat) returns (limited: bool, notified: bool)
      modifies this
      ensures limited == Misses(Configured(old(Model()), cfg), ns / NSEC_PER_SEC)
      ensures notified == Notifies(Configured(old(Model()), cfg), ns / NSEC_PER_SEC)
      ensures Model() == Call(Configured(old(Model()), cfg), ns / NSEC_PER_SEC)
    {
      notified := false;
      if interval == 0 {
        interval, burst, maxBurst := cfg.interval, cfg.burst, cfg.maxBurst;
      }
      var oldNmissed := nmissed;
      limited := Ratelimited(ns);
      if !limited {
        return;
      }
      if oldNmissed == 0 || (maxBurst > 0 && nmissed > (maxBurst - burst) % TWO64) {
        notified := true;
      }
    }
  }

  datatype Config = Config(interval: nat, burst: nat, maxBurst: nat)

  function Configured(r: Rate, cfg: Config): Rate {
    if r.interval == 0 then r.(interval := cfg.interval, burst := cfg.burst, maxBurst := cfg.maxBurst) else r
  }

  predicate Notifies(r: Rate, now: nat)
  {
    Misses(r, now) &&
    (r.nmissed == 0 || (r.maxBurst > 0 && Call(r, now).nmissed > (r.maxBurst - r.burst) % TWO64))
  }

  // --------------------------------------------------------------------- runs

  // Call times in seconds, never going back, none before `lo` or after `hi`.
  predicate Monotone(ts: seq<nat>, lo: nat, hi: nat) {
    if ts == [] then lo <= hi else lo <= ts[0] && Monotone(ts[1..], ts[0], hi)
  }

  // No sum of a time and the interval wraps around.
  predicate InRange(r: Rate, hi: nat) {
    0 < r.interval && hi + r.interval < TWO64
  }

  function Run(r: Rate, ts: seq<nat>, lo: nat, hi: nat): Rate
    requires Monotone(ts, lo, hi)
    decreases |ts|
  {
    if ts == [] then r else Run(Call(r, ts[0]), ts[1..], ts[0], hi)
  }

  // The number of calls let through.
  function Passed(r: Rate, ts: seq<nat>, lo: nat, hi: nat): nat
    requires Monotone(ts, lo, hi)
    decreases |ts|
  {
    if ts == [] then 0
    else (if Misses(r, ts[0]) then 0 else 1) + Passed(Call(r, ts[0]), ts[1..], ts[0], hi)
  }

  predicate Started(r: Rate, lo: nat) {
    0 < r.begin <= lo && r.events <= r.burst
  }

  lemma {:induction false} MonotoneBound(ts: seq<nat>, lo: nat, hi: nat)
    requires Monotone(ts, lo, hi)
    ensures lo <= hi
  {
    if ts != [] { MonotoneBound(ts[1..], ts[0], hi); }
  }

  // Whole periods of interval + 1 seconds in a span of time.
  function Periods(span: nat, interval: nat): nat {
    span / (interval + 1)
  }

  // A burst for each of n periods.
  function Quota(burst: nat, n: nat): nat {
    burst * n
  }

  lemma QuotaNext(burst: nat, n: nat)
    ensures Quota(burst, n + 1) == burst + Quota(burst, n)
  {
  }

  lemma QuotaMonotone(burst: nat, a: nat, b: nat)
    requires a <= b
    ensures Quota(burst, a) <= Quota(burst, b)
  {
  }

  lemma DivAtLeast(a: nat, p: nat, k: nat)
    requires 0 < p && k * p <= a
    ensures k <= a / p
  {
    if a / p < k {
      QuotaMonotone(p, a / p + 1, k);
      assert false;
    }
  }

  // A window opened after more than `interval` seconds leaves one period fewer.
  lemma PeriodLess(from: nat, now: nat, hi: nat, interval: nat)
    requires from + interval < now <= hi
    ensures 1 + Periods(hi - now, interval) <= Periods(hi - from, interval)
  {
    var p := interval + 1;
    var k := (hi - now) / p;
    assert k * p <= hi - now;
    assert (k + 1) * p == k * p + p;
    DivAtLeast(hi - from, p, k + 1);
  }

  lemma PeriodMonotone(a: nat, b: nat, interval: nat)
    requires a <= b
    ensures Periods(a, interval) <= Periods(b, interval)
  {
    assert (a / (interval + 1)) * (interval + 1) <= a;
    DivAtLeast(b, interval + 1, a / (interval + 1));
  }

  // What one call does to a running window.
  lemma CallInWindow(r: Rate, now: nat, hi: nat)
    requires InRange(r, hi) && Started(r, now) && now <= hi
    ensures var next := Call(r, now);
            next.interval == r.interval && next.burst == r.burst && Started(next, now) &&
            if Resets(r, now) then
              r.begin + r.interval < now && next.begin == now && next.events == if Misses(r, now) then 0 else 1
            else
              next.begin == r.begin && next.events == r.events + if Misses(r, now) then 0 else 1
  {
  }

  // From a running window: what is left of it plus a burst per later period.
  lemma {:induction false} WindowBound(r: Rate, ts: seq<nat>, lo: nat, hi: nat)
    requires InRange(r, hi) && Started(r, lo) && Monotone(ts, lo, hi)
    ensures r.begin <= hi
    ensures Passed(r, ts, lo, hi) <= r.burst - r.events + Quota(r.burst, Periods(hi - r.begin, r.interval))
    decreases |ts|
  {
    hide Quota, Periods, Call, Misses, Resets, Windowed;
    MonotoneBound(ts, lo, hi);
    if ts != [] {
      MonotoneBound(ts[1..], ts[0], hi);
      CallInWindow(r, ts[0], hi);
      WindowBound(Call(r, ts[0]), ts[1..], ts[0], hi);
      if Resets(r, ts[0]) {
        PeriodLess(r.begin, ts[0], hi, r.interval);
        var later := Periods(hi - ts[0], r.interval);
        QuotaMonotone(r.burst, later + 1, Periods(hi - r.begin, r.interval));
        QuotaNext(r.burst, later);
      }
    }
  }

  // The first call of a fresh limiter opens its first window.
  lemma FirstCall(r: Rate, ts: seq<nat>, hi: nat)
    requires 0 < r.interval && r.begin == 0 && ts != [] && 1 <= ts[0] && Monotone(ts, ts[0], hi)
    ensures Passed(r, ts, ts[0], hi) == Passed(r.(begin := ts[0]), ts, ts[0], hi)
    ensures Run(r, ts, ts[0], hi) == Run(r.(begin := ts[0]), ts, ts[0], hi)
  {
    var running := r.(begin := ts[0]);
    assert Windowed(r, ts[0]) == Windowed(running, ts[0]);
    assert Call(r, ts[0]) == Call(running, ts[0]) && (Misses(r, ts[0]) <==> Misses(running, ts[0]));
  }

  // A run from a fresh limiter lets through at most a burst per whole period
  // of interval + 1 seconds between its first and last call, plus one.
  lemma RateBound(r: Rate, ts: seq<nat>, hi: nat)
    requires InRange(r, hi) && r.begin == 0 && r.events == 0
    requires ts != [] && 1 <= ts[0] && Monotone(ts, ts[0], hi)
    ensures ts[0] <= hi
    ensures Passed(r, ts, ts[0], hi) <= Quota(r.burst, 1 + Periods(hi - ts[0], r.interval))
  {
    hide Quota, Periods, Passed, Monotone;
    FirstCall(r, ts, hi);
    WindowBound(r.(begin := ts[0]), ts, ts[0], hi);
    QuotaNext(r.burst, Periods(hi - ts[0], r.interval));
  }

  lemma {:induction false} SubRunBound(r: Rate, ts: seq<nat>, lo: nat, first: nat, hi: nat)
    requires InRange(r, hi) && Started(r, lo) && first <= lo && Monotone(ts, lo, hi)
    ensures first <= hi
    ensures Passed(r, ts, lo, hi) <= r.burst - r.events + Quota(r.burst, 1 + Periods(hi - first, r.interval))
    decreases |ts|
  {
    hide Quota, Periods, Call, Misses, Resets, Windowed;
    MonotoneBound(ts, lo, hi);
    if ts != [] {
      MonotoneBound(ts[1..], ts[0], hi);
      CallInWindow(r, ts[0], hi);
      var next := Call(r, ts[0]);
      if Resets(r, ts[0]) {
        WindowBound(next, ts[1..], ts[0], hi);
        PeriodMonotone(hi - ts[0], hi - first, r.interval);
        var later := Periods(hi - ts[0], r.interval);
        QuotaMonotone(r.burst, later + 1, 1 + Periods(hi - first, r.interval));
        QuotaNext(r.burst, later);
      } else {
        SubRunBound(next, ts[1..], ts[0], first, hi);
      }
    }
  }

  lemma {:induction false} RunStarted(r: Rate, ts: seq<nat>, lo: nat, hi: nat)
    requires InRange(r, hi) && Monotone(ts, lo, hi) && 1 <= lo
    requires Started(r, lo) || (r.begin == 0 && r.events == 0)
    ensures var last := Run(r, ts, lo, hi);
            last.interval == r.interval && last.burst == r.burst && last.begin <= hi
            && (Started(last, hi) || (last.begin == 0 && last.events == 0))
    decreases |ts|
  {
    MonotoneBound(ts, lo, hi);
    if ts != [] {
      MonotoneBound(ts[1..], ts[0], hi);
      RunStarted(Call(r, ts[0]), ts[1..], ts[0], hi);
    }
  }

  // Any contiguous part of a run, whatever went before it, lets through at most
  // a burst per whole period it spans, plus two.
  lemma AnySubRunBound(r: Rate, before: seq<nat>, lo: nat, mid: nat, ts: seq<nat>, hi: nat)
    requires InRange(r, hi) && r.begin == 0 && r.events == 0 && 1 <= lo && mid <= hi
    requires Monotone(before, lo, mid) && ts != [] && mid <= ts[0] <= hi && Monotone(ts, ts[0], hi)
    ensures Run(r, before, lo, mid).begin <= ts[0]
    ensures Passed(Run(r, before, lo, mid), ts, ts[0], hi) <= Quota(r.burst, 2 + Periods(hi - ts[0], r.interval))
  {
    hide Run, Quota, Periods, Passed, Monotone;
    RunStarted(r, before, lo, mid);
    MonotoneBound(before, lo, mid);
    var s := Run(r, before, lo, mid);
    var n := Periods(hi - ts[0], r.interval);
    QuotaMonotone(r.burst, 1 + n, 2 + n);
    QuotaNext(r.burst, 1 + n);
    if s.begin == 0 {
      RateBound(s, ts, hi);
    } else {
      SubRunBound(s, ts, ts[0], ts[0], hi);
    }
  }

  // Running totals: every call is either let through or missed, and the windows
  // closed so far cover the time from the first window to the current one.
  lemma {:induction false} Totals(r: Rate, ts: seq<nat>, lo: nat, hi: nat)
    requires InRange(r, hi) && Started(r, lo) && Monotone(ts, lo, hi)
    ensures var last := Run(r, ts, lo, hi);
            last.totalEvents + last.totalNmissed == r.totalEvents + r.totalNmissed + |ts| &&
            last.totalEvents == r.totalEvents + Passed(r, ts, lo, hi) &&
            last.totalInterval - r.totalInterval == last.begin - r.begin
    decreases |ts|
  {
    if ts != [] {
      MonotoneBound(ts[1..], ts[0], hi);
      Totals(Call(r, ts[0]), ts[1..], ts[0], hi);
    }
  }

  lemma FreshTotals(r: Rate, ts: seq<nat>, hi: nat)
    requires InRange(r, hi) && r.begin == 0 && r.events == 0
    requires r.totalEvents == 0 && r.totalNmissed == 0 && r.totalInterval == 0
    requires ts != [] && 1 <= ts[0] && Monotone(ts, ts[0], hi)
    ensures var last := Run(r, ts, ts[0], hi);
            last.totalEvents + last.totalNmissed == |ts| && last.totalEvents == Passed(r, ts, ts[0], hi) &&
            last.totalInterval == last.begin - ts[0]
  {
    hide Run, Passed, Monotone;
    FirstCall(r, ts, hi);
    Totals(r.(begin := ts[0]), ts, ts[0], hi);
  }

  // ------------------------------------------------------------ decisions, by the times alone

  predicate Times(ts: seq<nat>, hi: nat) {
    (forall i, j | 0 <= i < j < |ts| :: ts[i] <= ts[j]) && forall i | 0 <= i < |ts| :: 1 <= ts[i] <= hi
  }

  // The time of the call that opened the window of call k: a call more than the
  // interval after the one that opened the last window opens its own.
  function Opening(ts: seq<nat>, interval: nat, k: nat): nat
    requires k < |ts|
  {
    if k == 0 then ts[0]
    else
      var last := Opening(ts, interval, k - 1);
      if ts[k] > last + interval then ts[k] else last
  }

  // How many of the first n calls are in the window opened at that time.
  function InWindow(ts: seq<nat>, interval: nat, n: nat, opening: nat): nat
    requires n <= |ts|
  {
    if n == 0 then 0
    else InWindow(ts, interval, n - 1, opening) + if Opening(ts, interval, n - 1) == opening then 1 else 0
  }

  // How many calls of its window come before call k.
  function Earlier(ts: seq<nat>, interval: nat, k: nat): nat
    requires k < |ts|
  {
    InWindow(ts, interval, k, Opening(ts, interval, k))
  }

  lemma {:induction false} OpeningsGrow(ts: seq<nat>, interval: nat, hi: nat, i: nat, k: nat)
    requires Times(ts, hi) && i <= k < |ts|
    ensures 1 <= Opening(ts, interval, i) <= Opening(ts, interval, k) <= ts[k]
    decreases k
  {
    if k > 0 {
      OpeningsGrow(ts, interval, hi, if i < k then i else k - 1, k - 1);
    }
  }

  lemma {:induction false} NewWindowEmpty(ts: seq<nat>, interval: nat, hi: nat, n: nat, opening: nat)
    requires Times(ts, hi) && n <= |ts| && (n > 0 ==> Opening(ts, interval, n - 1) < opening)
    ensures InWindow(ts, interval, n, opening) == 0
    decreases n
  {
    if n > 1 {
      OpeningsGrow(ts, interval, hi, n - 2, n - 1);
    }
    if n > 0 {
      NewWindowEmpty(ts, interval, hi, n - 1, opening);
    }
  }

  // A call is the first of its window, or has one more before it than the last.
  lemma EarlierNext(ts: seq<nat>, interval: nat, hi: nat, k: nat)
    requires Times(ts, hi) && k < |ts|
    ensures Earlier(ts, interval, k) ==
              if k == 0 || ts[k] > Opening(ts, interval, k - 1) + interval then 0
              else Earlier(ts, interval, k - 1) + 1
  {
    if k > 0 && ts[k] > Opening(ts, interval, k - 1) + interval {
      NewWindowEmpty(ts, interval, hi, k, ts[k]);
    }
  }

  // The limiter after the first n calls.
  function After(r: Rate, ts: seq<nat>, n: nat): Rate
    requires n <= |ts|
  {
    if n == 0 then r else Call(After(r, ts, n - 1), ts[n - 1])
  }

  function Least(a: int, b: int): int {
    if a <= b then a else b
  }

  // The record of a limiter whose window, opened at that time, has had so many calls.
  predicate Recorded(s: Rate, r: Rate, opening: nat, calls: nat) {
    s.interval == r.interval && s.burst == r.burst && s.maxBurst == r.maxBurst && s.begin == opening &&
    s.events == Least(r.burst, calls) && s.nmissed == calls - Least(r.burst, calls)
  }

  lemma FirstRecorded(r: Rate, now: nat, hi: nat)
    requires InRange(r, hi) && Fresh(r) && 1 <= now <= hi
    ensures Recorded(Call(r, now), r, now, 1) && (Misses(r, now) <==> r.burst == 0)
  {
  }

  lemma NextRecorded(s: Rate, r: Rate, opening: nat, calls: nat, now: nat, hi: nat)
    requires InRange(r, hi) && Recorded(s, r, opening, calls) && 1 <= opening <= now <= hi && 0 < calls
    ensures var opens := now > opening + r.interval;
            var earlier := if opens then 0 else calls;
            Recorded(Call(s, now), r, if opens then now else opening, earlier + 1) &&
            (Misses(s, now) <==> r.burst <= earlier)
  {
  }

  // A call is let through exactly when fewer than a burst of its window's calls
  // come before it.
  lemma {:induction false} DecidedByTimes(r: Rate, ts: seq<nat>, hi: nat, k: nat)
    requires InRange(r, hi) && Fresh(r) && Times(ts, hi) && k < |ts|
    ensures Misses(After(r, ts, k), ts[k]) <==> r.burst <= Earlier(ts, r.interval, k)
    ensures Recorded(After(r, ts, k + 1), r, Opening(ts, r.interval, k), Earlier(ts, r.interval, k) + 1)
    decreases k
  {
    hide Call, Misses, Recorded, Earlier;
    EarlierNext(ts, r.interval, hi, k);
    if k == 0 {
      FirstRecorded(r, ts[0], hi);
    } else {
      DecidedByTimes(r, ts, hi, k - 1);
      OpeningsGrow(ts, r.interval, hi, k - 1, k - 1);
      NextRecorded(After(r, ts, k), r, Opening(ts, r.interval, k - 1), Earlier(ts, r.interval, k - 1) + 1, ts[k], hi);
    }
  }

  // The calls let through among the first n, in the window opened at that time.
  function PassedIn(r: Rate, ts: seq<nat>, n: nat, opening: nat): nat
    requires n <= |ts|
  {
    if n == 0 then 0
    else
      PassedIn(r, ts, n - 1, opening) +
      if Opening(ts, r.interval, n - 1) == opening && !Misses(After(r, ts, n - 1), ts[n - 1]) then 1 else 0
  }

  // Every window lets through exactly the smaller of the burst and its calls.
  lemma {:induction false} WindowShare(r: Rate, ts: seq<nat>, hi: nat, n: nat, opening: nat)
    requires InRange(r, hi) && Fresh(r) && Times(ts, hi) && n <= |ts|
    ensures PassedIn(r, ts, n, opening) == Least(r.burst, InWindow(ts, r.interval, n, opening))
    decreases n
  {
    if n > 0 {
      hide Misses, After, Recorded;
      WindowShare(r, ts, hi, n - 1, opening);
      DecidedByTimes(r, ts, hi, n - 1);
    }
  }

  // The calls let through among the first n.
  function Through(r: Rate, ts: seq<nat>, n: nat): nat
    requires n <= |ts|
  {
    if n == 0 then 0 else Through(r, ts, n - 1) + if Earlier(ts, r.interval, n - 1) < r.burst then 1 else 0
  }

  lemma {:induction false} MonotoneTimes(ts: seq<nat>, lo: nat, hi: nat)
    requires Monotone(ts, lo, hi) && 1 <= lo
    ensures Times(ts, hi) && forall i | 0 <= i < |ts| :: lo <= ts[i]
    decreases |ts|
  {
    if ts != [] {
      MonotoneBound(ts[1..], ts[0], hi);
      MonotoneTimes(ts[1..], ts[0], hi);
      assert forall i | 0 < i < |ts| :: ts[i] == ts[1..][i - 1];
    }
  }

  lemma {:induction false} PassedFrom(r: Rate, ts: seq<nat>, n: nat, lo: nat, hi: nat)
    requires InRange(r, hi) && Fresh(r) && Times(ts, hi) && n <= |ts| && Monotone(ts[n..], lo, hi)
    ensures Through(r, ts, n) + Passed(After(r, ts, n), ts[n..], lo, hi) == Through(r, ts, |ts|)
    decreases |ts| - n
  {
    if n < |ts| {
      hide Call, Misses, Earlier, Times;
      DecidedByTimes(r, ts, hi, n);
      assert ts[n..][1..] == ts[n + 1..];
      PassedFrom(r, ts, n + 1, ts[n], hi);
    }
  }

  // So the number let through over a run is decided by its times.
  lemma PassedByTimes(r: Rate, ts: seq<nat>, hi: nat)
    requires InRange(r, hi) && Fresh(r) && ts != [] && 1 <= ts[0] && Monotone(ts, ts[0], hi)
    ensures Passed(r, ts, ts[0], hi) == Through(r, ts, |ts|)
  {
    MonotoneTimes(ts, ts[0], hi);
    assert ts[0..] == ts;
    PassedFrom(r, ts, 0, ts[0], hi);
  }

  // Calls more than the interval apart each open a window, and all pass.
  lemma {:induction false} SparseCallsPass(r: Rate, ts: seq<nat>, hi: nat, n: nat)
    requires InRange(r, hi) && Fresh(r) && 0 < r.burst && Times(ts, hi) && n <= |ts|
    requires forall k | 0 < k < |ts| :: ts[k] > ts[k - 1] + r.interval
    ensures Through(r, ts, n) == n && (n > 0 ==> Opening(ts, r.interval, n - 1) == ts[n - 1])
    decreases n
  {
    if n > 0 {
      hide Earlier, Times;
      SparseCallsPass(r, ts, hi, n - 1);
      EarlierNext(ts, r.interval, hi, n - 1);
    }
  }

  // Without an interval nothing is ever limited or recorded.
  lemma {:induction false} UnsetNeverLimits(r: Rate, ts: seq<nat>, n: nat)
    requires r.interval == 0 && n <= |ts|
    ensures After(r, ts, n) == r && (n > 0 ==> !Misses(After(r, ts, n - 1), ts[n - 1]))
  {
    if n > 0 { UnsetNeverLimits(r, ts, n - 1); }
  }

  // Call k notifies: its miss is the first of its window, or is beyond the maximum
  // burst.
  lemma NotifiesByTimes(r: Rate, ts: seq<nat>, hi: nat, k: nat)
    requires InRange(r, hi) && Fresh(r) && 0 < r.burst && Times(ts, hi) && k < |ts|
    ensures var miss := Earlier(ts, r.interval, k) + 1 - r.burst;
            Notifies(After(r, ts, k), ts[k]) <==>
              miss == 1 || (miss > 1 && r.maxBurst > 0 && miss > (r.maxBurst - r.burst) % TWO64)
  {
    hide Earlier, Opening, Misses, Call, Times;
    DecidedByTimes(r, ts, hi, k);
    EarlierNext(ts, r.interval, hi, k);
    if k > 0 {
      DecidedByTimes(r, ts, hi, k - 1);
    }
  }

  // A zeroed record in the map.
  const ZEROED := Rate(0, 0, 0, 0, 0, 0, 0, 0, 0)

  // A limiter with these settings, before any call.
  function Set(cfg: Config): Rate {
    Rate(cfg.interval, 0, cfg.burst, cfg.maxBurst, 0, 0, 0, 0, 0)
  }

  // The record after n calls through the wrapper.
  function AfterInMap(cfg: Config, ts: seq<nat>, n: nat): Rate
    requires n <= |ts|
  {
    if n == 0 then ZEROED else Call(Configured(AfterInMap(cfg, ts, n - 1), cfg), ts[n - 1])
  }

  // From a zeroed record the wrapper limits by its configuration, in every call.
  lemma {:induction false} InMapIsConfigured(cfg: Config, ts: seq<nat>, hi: nat, k: nat)
    requires InRange(Set(cfg), hi) && Fresh(Set(cfg)) && Times(ts, hi) && k < |ts|
    ensures var s := Configured(AfterInMap(cfg, ts, k), cfg);
            s == After(Set(cfg), ts, k) && (Misses(s, ts[k]) <==> cfg.burst <= Earlier(ts, cfg.interval, k))
    decreases k
  {
    hide Call, Misses, Earlier, Opening, Times;
    DecidedByTimes(Set(cfg), ts, hi, k);
    if k > 0 {
      InMapIsConfigured(cfg, ts, hi, k - 1);
      DecidedByTimes(Set(cfg), ts, hi, k - 1);
    }
  }

  // --------------------------------------------------------------- notifications

  // What one call through the wrapper did, and in which window.
  datatype Record = Record(window: nat, missed: bool, notified: bool)

  function Trace(r: Rate, window: nat, ts: seq<nat>, lo: nat, hi: nat): seq<Record>
    requires Monotone(ts, lo, hi)
    decreases |ts|
  {
    if ts == [] then []
    else
      var w := if Resets(r, ts[0]) then window + 1 else window;
      [Record(w, Misses(r, ts[0]), Notifies(r, ts[0]))] + Trace(Call(r, ts[0]), w, ts[1..], ts[0], hi)
  }

  function MissesIn(trace: seq<Record>, w: nat): nat {
    if trace == [] then 0
    else (if trace[0].window == w && trace[0].missed then 1 else 0) + MissesIn(trace[1..], w)
  }

  function NotesIn(trace: seq<Record>, w: nat): nat {
    if trace == [] then 0
    else (if trace[0].window == w && trace[0].notified then 1 else 0) + NotesIn(trace[1..], w)
  }

  // The misses of a window beyond which each one notifies.
  function Quiet(r: Rate): nat
    requires r.maxBurst > 0
  {
    var spare := (r.maxBurst - r.burst) % TWO64;
    if spare < 1 then 1 else spare
  }

  // The notifications that `misses` misses in one window make.
  function Expected(r: Rate, misses: nat): nat {
    if misses == 0 then 0
    else if r.maxBurst == 0 || misses <= Quiet(r) then 1
    else 1 + misses - Quiet(r)
  }

  // A limiter no call has reached yet, its settings 64-bit numbers.
  predicate Fresh(r: Rate) {
    r.begin == 0 && r.events == 0 && r.nmissed == 0 && r.burst < TWO64 && r.maxBurst < TWO64
  }

  // The notifications that `misses` misses in window w make: without a burst the
  // first miss of every window but the first is not told, because the count read
  // before the reset is not zero.
  function Made(r: Rate, w: nat, misses: nat): int {
    Expected(r, misses) - if r.burst == 0 && 0 < w && 0 < misses then 1 else 0
  }

  // What holds between calls: an unreached limiter has no misses and is in its
  // first window, and without a burst every call so far was missed.
  predicate Kept(r: Rate, window: nat) {
    r.burst < TWO64 && r.maxBurst < TWO64 &&
    (r.begin == 0 ==> r.nmissed == 0 && window == 0) &&
    (r.burst == 0 && r.nmissed == 0 ==> r.begin == 0)
  }

  lemma {:induction false} EarlierWindows(r: Rate, window: nat, ts: seq<nat>, lo: nat, hi: nat, w: nat)
    requires Monotone(ts, lo, hi) && w < window
    ensures MissesIn(Trace(r, window, ts, lo, hi), w) == 0 == NotesIn(Trace(r, window, ts, lo, hi), w)
    decreases |ts|
  {
    if ts != [] {
      EarlierWindows(Call(r, ts[0]), if Resets(r, ts[0]) then window + 1 else window, ts[1..], ts[0], hi, w);
    }
  }

  lemma TraceHead(r: Rate, window: nat, ts: seq<nat>, lo: nat, hi: nat)
    requires Monotone(ts, lo, hi) && ts != []
    ensures var now := if Resets(r, ts[0]) then window + 1 else window;
            var trace := Trace(r, window, ts, lo, hi);
            trace != [] && trace[0] == Record(now, Misses(r, ts[0]), Notifies(r, ts[0])) &&
            trace[1..] == Trace(Call(r, ts[0]), now, ts[1..], ts[0], hi)
  {
  }

  // From any state: the notifications still to come in the current window are
  // those its misses make in all, less those already made.
  lemma {:induction false} NotesFrom(r: Rate, window: nat, ts: seq<nat>, lo: nat, hi: nat, w: nat)
    requires InRange(r, hi) && Kept(r, window) && Monotone(ts, lo, hi) && r.begin <= lo && 1 <= lo && window <= w
    ensures var trace := Trace(r, window, ts, lo, hi);
            var already := if w == window then r.nmissed else 0;
            NotesIn(trace, w) == Made(r, w, already + MissesIn(trace, w)) - Made(r, w, already)
    decreases |ts|
  {
    hide Call, Misses, Notifies, Resets, Made, Trace, MissesIn, NotesIn, Windowed, Kept;
    var trace := Trace(r, window, ts, lo, hi);
    CountHead(trace, w);
    if ts == [] {
      TraceEmpty(r, window, lo, hi);
    } else {
      MonotoneBound(ts[1..], ts[0], hi);
      var next := Call(r, ts[0]);
      TraceHead(r, window, ts, lo, hi);
      CallCounts(r, window, ts[0], hi);
      var now := if Resets(r, ts[0]) then window + 1 else window;
      if w < now {
        EarlierWindows(next, now, ts[1..], ts[0], hi, w);
      } else {
        NotesFrom(next, now, ts[1..], ts[0], hi, w);
        var m := MissesIn(trace[1..], w);
        SameMade(r, next, w, if w == now then next.nmissed else 0);
        SameMade(r, next, w, if w == now then next.nmissed + m else m);
      }
    }
  }

  lemma CountHead(trace: seq<Record>, w: nat)
    ensures trace == [] ==> MissesIn(trace, w) == 0 == NotesIn(trace, w)
    ensures trace != [] ==>
              MissesIn(trace, w) ==
                (if trace[0].window == w && trace[0].missed then 1 else 0) + MissesIn(trace[1..], w) &&
              NotesIn(trace, w) ==
                (if trace[0].window == w && trace[0].notified then 1 else 0) + NotesIn(trace[1..], w)
  {
  }

  lemma TraceEmpty(r: Rate, window: nat, lo: nat, hi: nat)
    requires Monotone([], lo, hi)
    ensures Trace(r, window, [], lo, hi) == []
  {
  }

  // One call: it keeps the settings, counts its miss in its window, and notifies
  // exactly when its miss is one that should.
  lemma CallCounts(r: Rate, window: nat, now: nat, hi: nat)
    requires InRange(r, hi) && Kept(r, window) && r.begin <= now && 1 <= now <= hi
    ensures var next := Call(r, now);
            var w := if Resets(r, now) then window + 1 else window;
            var before := if Resets(r, now) then 0 else r.nmissed;
            next.interval == r.interval && next.burst == r.burst && next.maxBurst == r.maxBurst &&
            Kept(next, w) && next.begin <= now &&
            next.nmissed == before + (if Misses(r, now) then 1 else 0) &&
            Made(r, w, next.nmissed) == Made(r, w, before) + (if Notifies(r, now) then 1 else 0)
    ensures Made(r, 0, 0) == 0 && Made(r, window + 1, 0) == 0
  {
  }

  lemma SameMade(r: Rate, next: Rate, w: nat, misses: nat)
    requires next.burst == r.burst && next.maxBurst == r.maxBurst
    ensures Made(r, w, misses) == Made(next, w, misses)
  {
  }

  // Each window notifies exactly as often as its misses call for: with a burst and
  // no maximum burst, once if it has a miss and never otherwise.
  lemma NotifiedPerWindow(r: Rate, ts: seq<nat>, hi: nat, w: nat)
    requires InRange(r, hi) && Fresh(r)
    requires ts != [] && 1 <= ts[0] && Monotone(ts, ts[0], hi)
    ensures var trace := Trace(r, 0, ts, ts[0], hi);
            var m := MissesIn(trace, w);
            NotesIn(trace, w) == Made(r, w, m) &&
            (0 < r.burst && r.maxBurst == 0 ==> NotesIn(trace, w) == if m > 0 then 1 else 0)
  {
    hide Trace, MissesIn, NotesIn;
    NotesFrom(r, 0, ts, ts[0], hi, w);
  }

  // Without a burst the promise breaks: the second window misses its only call
  // and nobody is told.
  lemma SilentWindow(r: Rate)
    requires InRange(r, r.interval + 2) && Fresh(r) && r.burst == 0
    ensures var ts := [1, r.interval + 2];
            Monotone(ts, 1, r.interval + 2) &&
            var trace := Trace(r, 0, ts, 1, r.interval + 2);
            MissesIn(trace, 1) == 1 && NotesIn(trace, 1) == 0
  {
    hide Call, Misses, Resets, Notifies, Windowed, Trace, MissesIn, NotesIn;
    var t := r.interval + 2;
    var ts := [1, t];
    assert ts[1..] == [t] && [t][1..] == [];
    assert Monotone([t], 1, t) by { assert Monotone([], t, t); }
    TwoCalls(r);
    var a := Call(r, 1);
    var trace := Trace(r, 0, ts, 1, t);
    TraceHead(r, 0, ts, 1, t);
    TraceHead(a, 0, [t], 1, t);
    TraceEmpty(Call(a, t), 1, t, t);
    CountHead(trace, 1);
    CountHead(trace[1..], 1);
    CountHead([], 1);
    NotifiedPerWindow(r, ts, t, 1);
  }

  lemma TwoCalls(r: Rate)
    requires InRange(r, r.interval + 2) && Fresh(r) && r.burst == 0
    ensures var t := r.interval + 2;
            Misses(r, 1) && !Resets(r, 1) && Resets(Call(r, 1), t) && Misses(Call(r, 1), t)
  {
    assert Call(r, 1) == r.(begin := 1, nmissed := 1, totalNmissed := r.totalNmissed + 1);
  }

  // n calls in the first second.
  function Ones(n: nat): (ts: seq<nat>)
    ensures |ts| == n
  {
    if n == 0 then [] else [1] + Ones(n - 1)
  }

  lemma {:induction false} OnesMonotone(n: nat)
    ensures Monotone(Ones(n), 1, 1)
  {
    if n > 0 {
      OnesMonotone(n - 1);
      assert Ones(n)[1..] == Ones(n - 1);
    }
  }

  // Once the burst is used up, every further call of the second is a miss.
  lemma {:induction false} OnesMissed(r: Rate, n: nat)
    requires InRange(r, 1) && r.begin <= 1 && r.events <= r.burst
    ensures Monotone(Ones(n), 1, 1)
    ensures n >= r.burst - r.events ==> MissesIn(Trace(r, 0, Ones(n), 1, 1), 0) == n - (r.burst - r.events)
    decreases n
  {
    OnesMonotone(n);
    var ts := Ones(n);
    var trace := Trace(r, 0, ts, 1, 1);
    if n == 0 {
      TraceEmpty(r, 0, 1, 1);
    } else {
      assert ts[1..] == Ones(n - 1) && ts[0] == 1;
      CallSpends(r, 1, 1);
      hide Call, Misses, Notifies, Resets, Windowed, Trace, MissesIn, NotesIn;
      OnesMissed(Call(r, 1), n - 1);
      TraceHead(r, 0, ts, 1, 1);
      CountHead(trace, 0);
    }
  }

  // A call spends one of the window's burst, or finds it spent.
  lemma CallSpends(r: Rate, now: nat, hi: nat)
    requires InRange(r, hi) && r.begin <= now && 1 <= now <= hi && r.events <= r.burst
    ensures var next := Call(r, now);
            var before := if Resets(r, now) then 0 else r.events;
            next.interval == r.interval && next.burst == r.burst && next.begin <= now && next.events <= next.burst &&
            next.events == before + (if Misses(r, now) then 0 else 1) &&
            (Misses(r, now) ==> before == r.burst)
    ensures now == 1 ==> !Resets(r, now)
  {
  }

  // A window that misses had its whole burst before.
  lemma {:induction false} MissesAfterBurst(r: Rate, window: nat, ts: seq<nat>, lo: nat, hi: nat, w: nat)
    requires InRange(r, hi) && Monotone(ts, lo, hi) && r.begin <= lo && 1 <= lo && r.events <= r.burst && window <= w
    ensures var m := MissesIn(Trace(r, window, ts, lo, hi), w);
            0 < m ==> r.burst - (if w == window then r.events else 0) + m <= |ts|
    decreases |ts|
  {
    hide Call, Misses, Notifies, Resets, Trace, MissesIn, NotesIn, Windowed;
    var trace := Trace(r, window, ts, lo, hi);
    CountHead(trace, w);
    if ts == [] {
      TraceEmpty(r, window, lo, hi);
    } else {
      MonotoneBound(ts[1..], ts[0], hi);
      var next := Call(r, ts[0]);
      TraceHead(r, window, ts, lo, hi);
      CallSpends(r, ts[0], hi);
      var now := if Resets(r, ts[0]) then window + 1 else window;
      if w < now {
        EarlierWindows(next, now, ts[1..], ts[0], hi, w);
      } else {
        MissesAfterBurst(next, now, ts[1..], ts[0], hi, w);
      }
    }
  }

  // A run of at most this many calls to a fresh limiter.
  predicate Calls(r: Rate, ts: seq<nat>, hi: nat, calls: nat) {
    0 < |ts| <= calls && 1 <= ts[0] && Monotone(ts, ts[0], hi) && InRange(r, hi)
  }

  // Window w of the run notifies once if it has a miss and never otherwise.
  predicate Once(r: Rate, ts: seq<nat>, hi: nat, w: nat)
    requires ts != [] && Monotone(ts, ts[0], hi)
  {
    var trace := Trace(r, 0, ts, ts[0], hi);
    NotesIn(trace, w) == if MissesIn(trace, w) > 0 then 1 else 0
  }

  // Every window of every run of at most this many calls does.
  ghost predicate OncePerWindow(r: Rate, calls: nat) {
    forall ts: seq<nat>, hi: nat, w: nat | Calls(r, ts, hi, calls) :: Once(r, ts, hi, w)
  }

  // Beyond the maximum burst every miss notifies.
  lemma SecondNotice(r: Rate)
    requires InRange(r, 1) && Fresh(r) && 0 < r.burst && 0 < r.maxBurst
    ensures var ts := Ones(r.burst + Quiet(r) + 1);
            Monotone(ts, 1, 1) && NotesIn(Trace(r, 0, ts, 1, 1), 0) == 2
  {
    hide Trace, MissesIn, NotesIn, Ones, Quiet, Monotone;
    var n := r.burst + Quiet(r) + 1;
    OnesFirst(n);
    OnesMissed(r, n);
    NotifiedPerWindow(r, Ones(n), 1, 0);
  }

  lemma OnesFirst(n: nat)
    requires 0 < n
    ensures Ones(n)[0] == 1
  {
  }

  // Runs of at most so many calls keep the promise exactly when the limiter has a
  // burst and either no maximum burst or one too large for that many calls.
  lemma OncePerWindowExactly(r: Rate, calls: nat)
    requires InRange(r, r.interval + 2) && Fresh(r) && 2 <= calls
    ensures OncePerWindow(r, calls) <==> 0 < r.burst && (r.maxBurst == 0 || calls <= r.burst + Quiet(r))
  {
    hide Trace, MissesIn, NotesIn, Monotone, Quiet, Ones;
    if r.burst == 0 {
      SilentWindow(r);
      var ts := [1, r.interval + 2];
      assert Calls(r, ts, r.interval + 2, calls) && !Once(r, ts, r.interval + 2, 1);
    } else if r.maxBurst > 0 && calls > r.burst + Quiet(r) {
      SecondNotice(r);
      var ts := Ones(r.burst + Quiet(r) + 1);
      OnesFirst(|ts|);
      assert Calls(r, ts, 1, calls) && !Once(r, ts, 1, 0);
    } else {
      forall ts: seq<nat>, hi: nat, w: nat | Calls(r, ts, hi, calls) ensures Once(r, ts, hi, w) {
        NotifiedPerWindow(r, ts, hi, w);
        MissesAfterBurst(r, 0, ts, ts[0], hi, w);
      }
    }
  }

  // However many calls a run makes, only a limiter with a burst and no maximum
  // burst keeps it.
  lemma OncePerWindowForever(r: Rate)
    requires InRange(r, r.interval + 2) && Fresh(r)
    ensures (forall calls: nat :: OncePerWindow(r, calls)) <==> 0 < r.burst && r.maxBurst == 0
  {
    hide OncePerWindow;
    if 0 < r.burst && r.maxBurst == 0 {
      forall calls: nat ensures OncePerWindow(r, calls) {
        OncePerWindowExactly(r, calls + 2);
        FewerCalls(r, calls, calls + 2);
      }
    } else {
      var calls := if r.maxBurst == 0 then 2 else r.burst + Quiet(r) + 1;
      OncePerWindowExactly(r, calls);
    }
  }

  lemma FewerCalls(r: Rate, fewer: nat, calls: nat)
    requires OncePerWindow(r, calls) && fewer <= calls
    ensures OncePerWindow(r, fewer)
  {
    hide Once, Monotone;
    forall ts: seq<nat>, hi: nat, w: nat | Calls(r, ts, hi, fewer) ensures Once(r, ts, hi, w) {
      assert Calls(r, ts, hi, calls);
    }
  }
}
