/**
 * The interrupts-off detector: per CPU, ticks are timed against the previous
 * handled tick, and a gap over the threshold is reported as a stall.
 */
module StallDetector {
  import opened Options
  import opened Machine

  datatype Cpu = Cpu(startTrace: bool, restarting: bool, softTs: nat)

  // What the probes of one CPU see.  A tick may be suppressed by the rate limiter.
  datatype Event =
    | Tick(limited: bool, now: nat)
    | Stop(success: int, dependency: int)
    | Restart(now: nat)

  // A tick that gets as far as updating the timestamp.
  predicate Handles(s: Cpu, e: Event) {
    e.Tick? && !e.limited && s.startTrace
  }

  // A tick stop that ends tracing.
  predicate Stops(e: Event) {
    e.Stop? && e.success == 1 && e.dependency == 0
  }

  function Step(s: Cpu, e: Event): Cpu {
    match e
    case Tick(_, now) =>
      if !Handles(s, e) then s
      else if s.softTs == 0 then s.(softTs := now)
      else s.(restarting := false, softTs := now)
    case Stop(_, _) => if Stops(e) then s.(startTrace := false) else s
    case Restart(now) => Cpu(true, true, now)
  }

  // The stall reported at this event, if any.
  function Report(s: Cpu, e: Event, thresh: nat): Option<nat> {
    if Handles(s, e) && s.softTs != 0 && !s.restarting && (e.now - s.softTs) % TWO64 >= thresh
    then Some((e.now - s.softTs) % TWO64)
    else None
  }

  class TimerSoftirqRunTs {
    var startTrace: bool
    var restartingTick: bool
    var softTs: nat

    ghost function Model(): Cpu
      reads this
    {
      Cpu(startTrace, restartingTick, softTs)
    }

    method ProbeAccountProcessTick(limited: bool, now: nat, thresh: nat) returns (stall: Option<nat>)
      modifies this
      ensures Model() == Step(old(Model()), Tick(limited, now))
      ensures stall == Report(old(Model()), Tick(limited, now), thresh)
    {
      stall := None;
      if limited {
        return;
      }
      if !startTrace {
        return;
      }
      if softTs == 0 {
        softTs := now;
        return;
      }
      if restartingTick {
        restartingTick := false;
        softTs := now;
        return;
      }
      var delta := (now - softTs) % TWO64;
      if delta >= thresh {
        stall := Some(delta);
      }
      softTs := now;
    }

    method ProbeTickStop(success: int, dependency: int)
      modifies this
      ensures Model() == Step(old(Model()), Stop(success, dependency))
    {
      if success == 1 && dependency == 0 {
        startTrace := false;
      }
    }

    method ProbeTickNohzRestartSchedTick(now: nat)
      modifies this
      ensures Model() == Step(old(Model()), Restart(now))
    {
      softTs := now;
      startTrace := true;
      restartingTick := true;
    }
  }

  // ------------------------------------------------------------------- histories

  const INIT := Cpu(false, false, 0)

  function At(h: seq<Event>, n: nat): Cpu
    requires n <= |h|
  {
    if n == 0 then INIT else Step(At(h, n - 1), h[n - 1])
  }

  function Time(e: Event): nat
    requires !e.Stop?
  {
    e.now
  }

  // The clock is positive and never goes back.
  predicate Clocked(h: seq<Event>) {
    (forall i | 0 <= i < |h| && !h[i].Stop? :: 0 < Time(h[i]) < TWO64) &&
    forall i, j | 0 <= i < j < |h| && !h[i].Stop? && !h[j].Stop? :: Time(h[i]) <= Time(h[j])
  }

  // The event ends tracing: a tick stop that succeeded, with nothing depending on
  // the tick.
  predicate Ends(e: Event) {
    match e
    case Stop(success, dependency) => success == 1 && dependency == 0
    case _ => false
  }

  // Event r restarted tracing, and nothing has stopped it before event n.
  predicate TracedSince(h: seq<Event>, n: nat, r: nat)
    requires n <= |h|
  {
    r < n && h[r].Restart? && forall j | r < j < n :: !Ends(h[j])
  }

  ghost predicate Tracing(h: seq<Event>, n: nat)
    requires n <= |h|
  {
    exists r: nat :: TracedSince(h, n, r)
  }

  ghost predicate Handled(h: seq<Event>, n: nat)
    requires n < |h|
  {
    h[n].Tick? && !h[n].limited && Tracing(h, n)
  }

  // Strictly between events m and n: no handled tick, no stop, no restart.
  ghost predicate Quiet(h: seq<Event>, m: nat, n: nat)
    requires n <= |h|
  {
    m < n && forall j | m < j < n :: !Handled(h, j) && !Ends(h[j]) && !h[j].Restart?
  }

  // Events m and n are consecutive handled ticks with nothing between them.
  ghost predicate Consecutive(h: seq<Event>, m: nat, n: nat)
    requires n < |h|
  {
    Quiet(h, m, n) && Handled(h, m) && Handled(h, n)
  }

  lemma {:induction false} TracingIsState(h: seq<Event>, n: nat)
    requires n <= |h|
    ensures At(h, n).startTrace <==> Tracing(h, n)
    decreases n
  {
    if n > 0 {
      TracingIsState(h, n - 1);
      if h[n - 1].Restart? {
        assert TracedSince(h, n, n - 1);
      } else {
        if Tracing(h, n) {
          var r: nat :| TracedSince(h, n, r);
          assert TracedSince(h, n - 1, r) && !Ends(h[n - 1]);
        }
        if Tracing(h, n - 1) && !Ends(h[n - 1]) {
          var r: nat :| TracedSince(h, n - 1, r);
          assert TracedSince(h, n, r);
        }
      }
    }
  }

  // The event the current timestamp comes from: a restart whose first tick is
  // still due, or the last handled tick.
  ghost predicate Source(h: seq<Event>, n: nat, m: nat)
    requires n <= |h|
  {
    Quiet(h, m, n) && (if At(h, n).restarting then h[m].Restart? else Handled(h, m)) &&
    !h[m].Stop? && At(h, n).softTs == Time(h[m])
  }

  lemma {:induction false} SourceExists(h: seq<Event>, n: nat) returns (m: nat)
    requires Clocked(h) && n <= |h| && At(h, n).startTrace
    ensures Source(h, n, m)
    decreases n
  {
    var e := h[n - 1];
    var before := At(h, n - 1);
    TracingIsState(h, n - 1);
    if e.Restart? {
      m := n - 1;
    } else if Handles(before, e) {
      m := SourceExists(h, n - 1);
      m := n - 1;
    } else {
      m := SourceExists(h, n - 1);
    }
  }

  ghost predicate Gap(h: seq<Event>, m: nat, n: nat, stall: nat)
    requires n < |h|
  {
    Consecutive(h, m, n) && stall == Time(h[n]) - Time(h[m])
  }

  lemma TimesOrdered(h: seq<Event>, m: nat, n: nat)
    requires Clocked(h) && m < n < |h| && !h[m].Stop? && !h[n].Stop?
    ensures 0 < Time(h[m]) <= Time(h[n]) < TWO64
  {
  }

  // A stall is reported at an event exactly when it and some earlier event are
  // consecutive handled ticks at least the threshold apart; the stall is the gap.
  lemma ReportIsGap(h: seq<Event>, n: nat, thresh: nat, stall: nat)
    requires Clocked(h) && n < |h|
    ensures Report(At(h, n), h[n], thresh) == Some(stall) <==>
              stall >= thresh && exists m: nat :: Gap(h, m, n, stall)
  {
    hide At, Tracing, Quiet, Clocked;
    TracingIsState(h, n);
    if Handles(At(h, n), h[n]) {
      var m := SourceExists(h, n);
      QuietBefore(h, m, n);
      TimesOrdered(h, m, n);
      forall k: nat | Gap(h, k, n, stall) ensures k == m {
        SourceUnique(h, m, k, n);
      }
      if !At(h, n).restarting {
        assert Gap(h, m, n, Time(h[n]) - Time(h[m]));
      }
    }
  }

  lemma QuietBefore(h: seq<Event>, m: nat, n: nat)
    requires n <= |h| && Quiet(h, m, n)
    ensures m < n
  {
  }

  lemma SourceUnique(h: seq<Event>, m: nat, k: nat, n: nat)
    requires n <= |h| && Quiet(h, m, n) && Quiet(h, k, n)
    requires h[m].Restart? || Handled(h, m)
    requires h[k].Restart? || Handled(h, k)
    ensures m == k
  {
    if m < k { assert false; }
    if k < m { assert false; }
  }

  // Two reports come from time intervals that do not overlap.
  lemma ReportsDisjoint(h: seq<Event>, m: nat, n: nat, m': nat, n': nat)
    requires Clocked(h) && n < n' < |h| && Consecutive(h, m, n) && Consecutive(h, m', n')
    ensures n <= m' && Time(h[n]) <= Time(h[m'])
  {
    if m' < n { assert false; }
  }

  // All stall time reported before event n.
  function Reported(h: seq<Event>, n: nat, thresh: nat): nat
    requires n <= |h|
  {
    if n == 0 then 0
    else
      var r := Report(At(h, n - 1), h[n - 1], thresh);
      Reported(h, n - 1, thresh) + if r.Some? then r.value else 0
  }

  // One event: what it reports is at most what the timestamp advances by.
  lemma ReportAdvances(s: Cpu, e: Event, thresh: nat)
    requires !e.Stop? ==> s.softTs <= Time(e) && 0 < Time(e) < TWO64
    requires s.softTs == 0 ==> !s.startTrace
    ensures var t := Step(s, e);
            var r := Report(s, e, thresh);
            s.softTs <= t.softTs && (t.softTs == s.softTs || (!e.Stop? && t.softTs == Time(e))) &&
            (r.Some? ==> s.softTs != 0 && r.value <= t.softTs - s.softTs) && (t.softTs == 0 ==> !t.startTrace)
  {
  }

  lemma {:induction false} ReportedBound(h: seq<Event>, n: nat, thresh: nat, from: nat)
    requires Clocked(h) && n <= |h| && forall i | 0 <= i < |h| && !h[i].Stop? :: from <= Time(h[i])
    ensures At(h, n).softTs == 0 ==> Reported(h, n, thresh) == 0 && !At(h, n).startTrace
    ensures At(h, n).softTs != 0 ==>
              from <= At(h, n).softTs && Reported(h, n, thresh) <= At(h, n).softTs - from
    ensures forall i | n <= i < |h| && !h[i].Stop? :: At(h, n).softTs <= Time(h[i])
    decreases n
  {
    if n > 0 {
      ReportedBound(h, n - 1, thresh, from);
      hide Step, Report;
      ReportAdvances(At(h, n - 1), h[n - 1], thresh);
    }
  }

  // Reported stall time never exceeds the time the run has taken.
  lemma StallTimeWithinElapsed(h: seq<Event>, thresh: nat, from: nat, to: nat)
    requires Clocked(h) && from <= to && forall i | 0 <= i < |h| && !h[i].Stop? :: from <= Time(h[i]) <= to
    ensures Reported(h, |h|, thresh) <= to - from
  {
    ReportedBound(h, |h|, thresh, from);
    StampSeen(h, |h|);
  }

  lemma {:induction false} StampSeen(h: seq<Event>, n: nat)
    requires n <= |h|
    ensures At(h, n).softTs != 0 ==> exists i | 0 <= i < n && !h[i].Stop? :: At(h, n).softTs == Time(h[i])
    decreases n
  {
    if n > 0 {
      StampSeen(h, n - 1);
      if !h[n - 1].Stop? {
        assert At(h, n).softTs == Time(h[n - 1]) || At(h, n).softTs == At(h, n - 1).softTs;
      }
    }
  }
}
