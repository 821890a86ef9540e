/**
 * What the run-queue tracer's counters mean over whole runs: the incremental
 * histogram refines one defined by looking back through the event history, and
 * neither counts nor timestamps are ever lost.
 */
module RunqLatHistory {
  import opened Machine
  import opened Options
  import opened RunqLat

  // ------------------------------------------------------------------ histories

  function Bit(b: bool): nat {
    if b then 1 else 0
  }

  predicate Timed(e: Event) {
    e.Enqueue? || e.Switch?
  }

  // The event starts a wait of the task: it is a wakeup that was stored, or a
  // switch that takes the task off the CPU while it could still run. The idle
  // task does not wait.
  predicate Waits(e: Event, pid: nat) {
    pid != 0 &&
    ((e.Enqueue? && e.pid == pid && e.stored) ||
     (e.Switch? && e.running && e.prev.pid == pid && e.ok.stamp))
  }

  // When such a wait starts.
  function Since(e: Event): nat
    requires Timed(e)
  {
    match e
    case Enqueue(_, now, _) => now
    case Switch(_, _, _, stampAt, _, _) => stampAt
  }

  // The task a switch takes off the CPU is one to count: not idle, and in a group.
  predicate Tracked(e: Event)
    requires e.Switch?
  {
    e.prev.pid != 0 && e.prev.group != 0
  }

  function Last(e: Event): nat
    requires Timed(e)
  {
    if e.Enqueue? then e.now else e.readAt
  }

  // The clock is positive and never goes back.
  predicate Clocked(h: seq<Event>) {
    (forall i | 0 <= i < |h| && Timed(h[i]) :: 0 < Since(h[i]) <= Last(h[i]) < TWO64) &&
    forall i, j | 0 <= i < j < |h| && Timed(h[i]) && Timed(h[j]) :: Last(h[i]) <= Since(h[j])
  }

  // The state before event n.
  function At(s: State, h: seq<Event>, n: nat): State
    requires n <= |h|
  {
    Run(s, h[..n])
  }

  lemma AtNext(s: State, h: seq<Event>, n: nat)
    requires n < |h|
    ensures At(s, h, n + 1) == Step(At(s, h, n), h[n])
    ensures At(s, h, |h|) == Run(s, h)
  {
    assert h[..n + 1][..n] == h[..n];
    assert h[..|h|] == h;
  }

  // ------------------------------------------------------------- what counts, by the events

  // The definitions from here to Histogram look at the events alone, and at
  // whether the slot of the global block was there at first.

  ghost predicate HostSeen(s: State, h: seq<Event>, n: nat)
    requires n <= |h|
  {
    s.host.Some? || exists i | 0 <= i < n :: h[i].Switch? && h[i].ok.host
  }

  // Something has been counted for the group since it was last freed.
  ghost predicate GroupSeen(s: State, h: seq<Event>, n: nat, g: nat)
    requires n <= |h|
    decreases n, 1
  {
    exists c: Counter :: GroupHistogram(s, h, n, g, c) > 0
  }

  // The blocks the outgoing task is counted in are there or are created.
  ghost predicate Opens(s: State, h: seq<Event>, n: nat)
    requires n < |h| && h[n].Switch?
    decreases n, 2
  {
    var e := h[n];
    (HostSeen(s, h, n) || e.ok.host) &&
    (!Tracked(e) || GroupSeen(s, h, n, e.prev.group) || e.ok.prevGroup)
  }

  // The incoming task's group block is there or is created.
  ghost predicate NextSeen(s: State, h: seq<Event>, n: nat)
    requires n < |h| && h[n].Switch?
    decreases n, 2
  {
    var e := h[n];
    e.next.group != 0 &&
    (GroupSeen(s, h, n, e.next.group) || (Tracked(e) && e.prev.group == e.next.group) || e.ok.nextGroup)
  }

  // Event n removes this pid's timestamp, if it has one.
  ghost predicate Clears(s: State, h: seq<Event>, n: nat, pid: nat)
    requires n < |h|
    decreases n, 3
  {
    match h[n]
    case Exit(p) => p == pid
    case Switch(_, _, next, _, _, _) => next.pid == pid && pid != 0 && Opens(s, h, n)
    case _ => false
  }

  // Event i stored the timestamp this pid still has before event n: nothing
  // since has stored a newer one or removed it.
  ghost predicate PendingSince(s: State, h: seq<Event>, n: nat, pid: nat, i: nat)
    requires n <= |h|
    decreases n, 4
  {
    i < n && Waits(h[i], pid) &&
    (forall j | i < j < n :: !Waits(h[j], pid)) &&
    forall j | i <= j < n :: !Clears(s, h, j, pid)
  }

  // Event n switches in a task that has waited since event i, counting its delay.
  ghost predicate CountedSince(s: State, h: seq<Event>, n: nat, i: nat)
    requires n < |h|
    decreases n, 4
  {
    h[n].Switch? && h[n].next.pid != 0 && Opens(s, h, n) && NextSeen(s, h, n) &&
    var pid := h[n].next.pid;
    i <= n && Waits(h[i], pid) &&
    (forall j | i < j <= n :: !Waits(h[j], pid)) &&
    forall j | i <= j < n :: !Clears(s, h, j, pid)
  }

  // The range of waits, in nanoseconds, each latency counter is documented to count.
  predicate Within(c: Counter, wait: int) {
    match c
    case Lat01 => 0 <= wait < 10_000_000
    case Lat02 => 10_000_000 <= wait < 20_000_000
    case Lat03 => 20_000_000 <= wait < 50_000_000
    case Lat04 => 50_000_000 <= wait
    case _ => false
  }

  ghost predicate CountedIn(s: State, h: seq<Event>, n: nat, c: Counter)
    requires n < |h|
    decreases n, 5
  {
    exists i: nat :: CountedSince(s, h, n, i) && Within(c, h[n].readAt - Since(h[i]))
  }

  // Event n switches out a task that is counted: as preempted if it could still run.
  ghost predicate CountedLeaving(s: State, h: seq<Event>, n: nat, c: Counter)
    requires n < |h|
    decreases n, 5
  {
    h[n].Switch? && Opens(s, h, n) && Tracked(h[n]) && c == if h[n].running then Involuntary else Voluntary
  }

  predicate Latency(c: Counter) {
    !c.Voluntary? && !c.Involuntary?
  }

  // Event n counts towards this counter.
  ghost predicate Counts(s: State, h: seq<Event>, n: nat, c: Counter)
    requires n < |h|
    decreases n, 6
  {
    if Latency(c) then CountedIn(s, h, n, c) else CountedLeaving(s, h, n, c)
  }

  function ChargedGroup(e: Event, c: Counter): nat
    requires e.Switch?
  {
    if Latency(c) then e.next.group else e.prev.group
  }

  // The number of events before n that count for the group since it was last freed.
  ghost function GroupHistogram(s: State, h: seq<Event>, n: nat, g: nat, c: Counter): nat
    requires n <= |h|
    decreases n, 0
  {
    if n == 0 || h[n - 1] == FreeGroup(g) then 0
    else GroupHistogram(s, h, n - 1, g, c) +
         Bit(Counts(s, h, n - 1, c) && h[n - 1].Switch? && ChargedGroup(h[n - 1], c) == g)
  }

  // The number of events before n that count at all.
  ghost function Histogram(s: State, h: seq<Event>, n: nat, c: Counter): nat
    requires n <= |h|
  {
    if n == 0 then 0 else Histogram(s, h, n - 1, c) + Bit(Counts(s, h, n - 1, c))
  }

  // ------------------------------------------------------------ the step, case by case

  // Does the event remove this pid's timestamp?
  predicate ClearsAt(s: State, e: Event, pid: nat) {
    match e
    case Exit(p) => p == pid
    case Switch(_, _, next, _, _, _) => next.pid == pid && Reads(s, e)
    case _ => false
  }

  ghost predicate Positive(s: State) {
    forall pid | pid in s.latency :: 0 < s.latency[pid]
  }

  // The state once the outgoing task is stamped and the global block is there.
  function Opened(s: State, e: Event): State
    requires e.Switch?
  {
    s.(latency := Stamped(s.latency, e), host := Some(HostOf(s)))
  }

  // The incoming task's group entry exists or is created.
  predicate NextFound(s: State, e: Event)
    requires e.Switch?
  {
    e.next.group != 0 &&
    (e.next.group in s.groups || (CountsPrev(e) && e.prev.group == e.next.group) || e.ok.nextGroup)
  }

  function SampleDelay(s: State, e: Event): int
    requires e.Switch? && e.next.pid in Stamped(s.latency, e)
  {
    (e.readAt - Stamped(s.latency, e)[e.next.pid]) % TWO64
  }

  lemma StampedPositive(s: State, e: Event)
    requires Positive(s) && Timed(e) && 0 < Since(e)
    ensures forall pid | pid in Stamped(s.latency, e) :: 0 < Stamped(s.latency, e)[pid]
  {
  }

  // The three ways through the switch program.
  lemma SwitchPath(s: State, e: Event)
    requires e.Switch?
    ensures !HostUp(s, e) ==> Step(s, e) == s.(latency := Stamped(s.latency, e))
    ensures HostUp(s, e) && !PrevUp(s, e) ==> Step(s, e) == Opened(s, e)
    ensures HostUp(s, e) && PrevUp(s, e) ==> Step(s, e) == SwitchIn(CountPrev(Opened(s, e), e), e)
  {
    hide BucketOf, Stamped, SwitchIn;
  }

  lemma SwitchShape(s: State, e: Event)
    requires e.Switch? && Positive(s) && 0 < Since(e)
    ensures !HostUp(s, e) ==> Step(s, e) == s.(latency := Stamped(s.latency, e))
    ensures HostUp(s, e) && !PrevUp(s, e) ==> Step(s, e) == Opened(s, e)
    ensures HostUp(s, e) && PrevUp(s, e) ==>
              var p := CountPrev(Opened(s, e), e);
              Step(s, e) == SwitchIn(p, e) && p.latency == Stamped(s.latency, e) &&
              (NextUp(p, e) <==> NextFound(s, e)) &&
              (Consumes(p, e) <==> e.next.pid != 0 && e.next.pid in Stamped(s.latency, e)) &&
              (e.next.pid in p.latency ==> Delay(p, e) == SampleDelay(s, e))
  {
    SwitchPath(s, e);
    StampedPositive(s, e);
    hide Step, BucketOf, Stamped, SwitchIn, Positive;
  }

  lemma StepLatency(s: State, e: Event, pid: nat)
    requires Positive(s) && (Timed(e) ==> 0 < Since(e))
    ensures pid in Step(s, e).latency <==> (Waits(e, pid) || pid in s.latency) && !ClearsAt(s, e, pid)
    ensures pid in Step(s, e).latency ==>
              Step(s, e).latency[pid] == if Waits(e, pid) then Since(e) else s.latency[pid]
  {
    if e.Switch? {
      hide Step, BucketOf, CountPrev, Delay, NextUp, Consumes, NextFound, SampleDelay;
      SwitchShape(s, e);
    }
  }

  lemma {:induction false} AtPositive(s: State, h: seq<Event>, n: nat)
    requires Initial(s) && Clocked(h) && n <= |h|
    ensures Positive(At(s, h, n))
    decreases n
  {
    if n > 0 {
      AtPositive(s, h, n - 1);
      AtNext(s, h, n - 1);
      hide Step, At, Run;
      forall p | p in At(s, h, n).latency ensures 0 < At(s, h, n).latency[p] {
        StepLatency(At(s, h, n - 1), h[n - 1], p);
      }
    }
  }

  // ------------------------------------------------------------ the maps are the history

  lemma StepHost(s: State, e: Event)
    ensures Step(s, e).host.Some? <==> s.host.Some? || (e.Switch? && e.ok.host)
  {
    hide BucketOf, Stamped;
  }

  lemma {:induction false} HostIsHistory(s: State, h: seq<Event>, n: nat)
    requires n <= |h|
    ensures At(s, h, n).host.Some? <==> HostSeen(s, h, n)
    decreases n
  {
    if n > 0 {
      HostIsHistory(s, h, n - 1);
      AtNext(s, h, n - 1);
      hide Step, At, Run;
      StepHost(At(s, h, n - 1), h[n - 1]);
    }
  }

  // Every group block has counted something.
  ghost predicate Counted(s: State) {
    forall g | g in s.groups :: Active(s.groups[g])
  }

  ghost predicate Active(stat: Stat) {
    exists c: Counter :: stat.Get(c) > 0
  }

  lemma BumpCounted(s: State, g: nat, c: Counter)
    requires Counted(s)
    ensures Counted(BumpBoth(s, g, c))
  {
    var t := BumpBoth(s, g, c);
    assert t.groups[g].Get(c) > 0;
  }

  lemma StepCounted(s: State, e: Event)
    requires Counted(s)
    ensures Counted(Step(s, e))
  {
    if e.Switch? {
      hide Step, BumpBoth, BucketOf, Stamped, Active, Delay, HostUp, PrevUp, NextUp;
      SwitchPath(s, e);
      var b := Opened(s, e);
      BumpCounted(b, e.prev.group, if e.running then Involuntary else Voluntary);
      var p := CountPrev(b, e);
      if Consumes(p, e) {
        var t := p.(latency := p.latency - {e.next.pid});
        assert Counted(t);
        BumpCounted(t, e.next.group, BucketOf(Delay(p, e)));
      }
    }
  }

  lemma {:induction false} AtCounted(s: State, h: seq<Event>, n: nat)
    requires Initial(s) && n <= |h|
    ensures Counted(At(s, h, n))
    decreases n
  {
    if n > 0 {
      AtCounted(s, h, n - 1);
      AtNext(s, h, n - 1);
      hide Step, At, Run;
      StepCounted(At(s, h, n - 1), h[n - 1]);
    }
  }

  lemma ActiveGroup(s: State, g: nat)
    requires Counted(s)
    ensures g in s.groups <==> Active(GroupOf(s, g))
  {
  }

  // A group has a block exactly when the history has counted something for it.
  lemma {:induction false} GroupsAreHistory(s: State, h: seq<Event>, n: nat, g: nat)
    requires Initial(s) && Clocked(h) && n <= |h|
    ensures g in At(s, h, n).groups <==> GroupSeen(s, h, n, g)
    decreases n, 1
  {
    hide At, Run, Clocked, Counted, GroupHistogram, GroupOf, Initial;
    AtCounted(s, h, n);
    ActiveGroup(At(s, h, n), g);
    forall c: Counter ensures GroupOf(At(s, h, n), g).Get(c) == GroupHistogram(s, h, n, g, c) {
      CountersRefineHistory(s, h, n, g, c);
    }
  }

  lemma {:induction false} MapsAreHistory(s: State, h: seq<Event>, n: nat)
    requires Initial(s) && Clocked(h) && n < |h| && h[n].Switch?
    ensures Opens(s, h, n) <==> HostUp(At(s, h, n), h[n]) && PrevUp(At(s, h, n), h[n])
    ensures NextSeen(s, h, n) <==> NextFound(At(s, h, n), h[n])
    decreases n, 2
  {
    hide At, Run, Clocked, Initial, GroupSeen, HostSeen;
    HostIsHistory(s, h, n);
    GroupsAreHistory(s, h, n, h[n].prev.group);
    GroupsAreHistory(s, h, n, h[n].next.group);
  }

  lemma {:induction false} ClearsMatch(s: State, h: seq<Event>, n: nat, pid: nat)
    requires Initial(s) && Clocked(h) && n < |h|
    ensures Clears(s, h, n, pid) <==> ClearsAt(At(s, h, n), h[n], pid)
    decreases n, 3
  {
    hide At, Run, Clocked, Initial, Opens, HostUp, PrevUp;
    if h[n].Switch? { MapsAreHistory(s, h, n); }
  }

  // A pid has a pending timestamp exactly when the history says so, and it is
  // the most recent one not yet consumed or removed.
  lemma {:induction false} PendingIsHistory(s: State, h: seq<Event>, n: nat, pid: nat)
    requires Initial(s) && Clocked(h) && n <= |h|
    ensures pid in At(s, h, n).latency <==> exists i: nat :: PendingSince(s, h, n, pid, i)
    ensures forall i: nat | PendingSince(s, h, n, pid, i) :: At(s, h, n).latency[pid] == Since(h[i])
    decreases n, 4
  {
    if n == 0 {
    } else {
      hide Step, At, Run, Waits, ClearsAt, Positive, PendingSince;
      var e := h[n - 1];
      var before := At(s, h, n - 1);
      assert Timed(e) ==> 0 < Since(e);
      hide Clocked, Clears;
      AtPositive(s, h, n - 1);
      PendingIsHistory(s, h, n - 1, pid);
      AtNext(s, h, n - 1);
      StepLatency(before, e, pid);
      ClearsMatch(s, h, n - 1, pid);
      PendingSplit(s, h, n, pid);
      if pid in At(s, h, n).latency {
        if Waits(e, pid) {
          assert PendingSince(s, h, n, pid, n - 1);
        } else {
          var i: nat :| PendingSince(s, h, n - 1, pid, i);
          assert PendingSince(s, h, n, pid, i);
        }
      }
    }
  }

  // Pending before event n: stamped by the last event or pending before it, and
  // not removed by it.
  lemma PendingSplit(s: State, h: seq<Event>, n: nat, pid: nat)
    requires 0 < n <= |h|
    ensures forall i: nat :: PendingSince(s, h, n, pid, i) <==>
              !Clears(s, h, n - 1, pid) &&
              if Waits(h[n - 1], pid) then i == n - 1 else PendingSince(s, h, n - 1, pid, i)
  {
    hide At, Waits, ClearsAt, Clears;
  }

  // The idle task is never pending.
  lemma IdleNeverPending(s: State, h: seq<Event>)
    requires Initial(s) && Clocked(h)
    ensures 0 !in Run(s, h).latency
  {
    PendingIsHistory(s, h, |h|, 0);
    assert h[..|h|] == h;
  }

  // ------------------------------------------------------------------- histogram

  lemma BucketIsRange(c: Counter, wait: int)
    requires 0 <= wait
    ensures Within(c, wait) <==> BucketOf(wait) == c
  {
  }

  // The step counts a delay.
  predicate Samples(s: State, e: Event)
    requires e.Switch?
  {
    Reads(s, e) && e.next.pid in Stamped(s.latency, e) && NextFound(s, e)
  }

  // The outgoing task is counted: as preempted if it could still run.
  predicate CountedOut(s: State, e: Event, c: Counter) {
    e.Switch? && HostUp(s, e) && PrevUp(s, e) && CountsPrev(e) && c == if e.running then Involuntary else Voluntary
  }

  // The step adds one to this counter, of the global block and of this group.
  predicate CountsAt(s: State, e: Event, c: Counter) {
    if Latency(c) then e.Switch? && Samples(s, e) && BucketOf(SampleDelay(s, e)) == c else CountedOut(s, e, c)
  }

  lemma BumpGet(s: State, group: nat, bumped: Counter, g: nat, c: Counter)
    ensures var t := BumpBoth(s, group, bumped);
            HostOf(t).Get(c) == HostOf(s).Get(c) + Bit(c == bumped) &&
            GroupOf(t, g).Get(c) == GroupOf(s, g).Get(c) + Bit(c == bumped && g == group)
  {
  }

  // What one step adds to the global block and to a group's.
  lemma StepCounts(s: State, e: Event, g: nat, c: Counter)
    requires Positive(s) && (Timed(e) ==> 0 < Since(e))
    ensures HostOf(Step(s, e)).Get(c) == HostOf(s).Get(c) + Bit(CountsAt(s, e, c))
    ensures GroupOf(Step(s, e), g).Get(c) ==
              if e == FreeGroup(g) then 0
              else GroupOf(s, g).Get(c) + Bit(CountsAt(s, e, c) && ChargedGroup(e, c) == g)
  {
    if e.Switch? {
      SwitchCounts(s, e, g, c);
    }
  }

  // What counting the outgoing task adds ...
  lemma LeavingCounts(s: State, e: Event, g: nat, c: Counter)
    requires e.Switch?
    ensures var p := CountPrev(Opened(s, e), e);
            var counted := CountsPrev(e) && c == if e.running then Involuntary else Voluntary;
            HostOf(p).Get(c) == HostOf(s).Get(c) + Bit(counted) &&
            GroupOf(p, g).Get(c) == GroupOf(s, g).Get(c) + Bit(counted && g == e.prev.group)
  {
    hide BumpBoth, Stamped;
    var b := Opened(s, e);
    assert HostOf(b) == HostOf(s) && GroupOf(b, g) == GroupOf(s, g);
    BumpGet(b, e.prev.group, if e.running then Involuntary else Voluntary, g, c);
  }

  // ... and what counting the incoming one's delay adds.
  lemma EnteringCounts(p: State, e: Event, g: nat, c: Counter)
    requires e.Switch?
    ensures var counted := Consumes(p, e) && NextUp(p, e) && BucketOf(Delay(p, e)) == c;
            HostOf(SwitchIn(p, e)).Get(c) == HostOf(p).Get(c) + Bit(counted) &&
            GroupOf(SwitchIn(p, e), g).Get(c) == GroupOf(p, g).Get(c) + Bit(counted && g == e.next.group)
  {
    hide BumpBoth, BucketOf, Delay, NextUp;
    if Consumes(p, e) {
      var t := p.(latency := p.latency - {e.next.pid});
      assert HostOf(t) == HostOf(p) && GroupOf(t, g) == GroupOf(p, g);
      BumpGet(t, e.next.group, BucketOf(Delay(p, e)), g, c);
    }
  }

  lemma SwitchCounts(s: State, e: Event, g: nat, c: Counter)
    requires e.Switch? && Positive(s) && 0 < Since(e)
    ensures HostOf(Step(s, e)).Get(c) == HostOf(s).Get(c) + Bit(CountsAt(s, e, c))
    ensures GroupOf(Step(s, e), g).Get(c) == GroupOf(s, g).Get(c) + Bit(CountsAt(s, e, c) && ChargedGroup(e, c) == g)
  {
    hide Step, BucketOf, Delay, NextUp, NextFound, SampleDelay, Stamped, Positive, HostUp, PrevUp, SwitchIn;
    hide CountPrev, CountsPrev;
    SwitchShape(s, e);
    assert !HostUp(s, e) || !PrevUp(s, e) ==> HostOf(Step(s, e)) == HostOf(s) && Step(s, e).groups == s.groups;
    hide HostOf, GroupOf, Opened;
    var p := CountPrev(Opened(s, e), e);
    LeavingCounts(s, e, g, c);
    EnteringCounts(p, e, g, c);
    if Consumes(p, e) { BucketIsLatency(Delay(p, e)); }
  }

  lemma BucketIsLatency(delta: int)
    ensures Latency(BucketOf(delta))
  {
  }

  lemma StampBefore(h: seq<Event>, n: nat, i: nat, pid: nat)
    requires Clocked(h) && i <= n < |h| && h[n].Switch? && Waits(h[i], pid)
    ensures 0 <= h[n].readAt - Since(h[i]) < TWO64
  {
    assert Timed(h[i]) && Timed(h[n]);
    assert 0 < Since(h[i]) <= Last(h[i]) && 0 < Since(h[n]) <= Last(h[n]) < TWO64;
  }

  lemma {:induction false} SinceIsSample(s: State, h: seq<Event>, n: nat, i: nat, c: Counter)
    requires Initial(s) && Clocked(h) && n < |h| && CountedSince(s, h, n, i)
    ensures Samples(At(s, h, n), h[n]) && SampleDelay(At(s, h, n), h[n]) == h[n].readAt - Since(h[i])
    ensures Within(c, h[n].readAt - Since(h[i])) <==> BucketOf(SampleDelay(At(s, h, n), h[n])) == c
    decreases n, 5
  {
    hide At, BucketOf, Within, NextFound, HostUp, PrevUp, Clears, Opens, NextSeen;
    var pid := h[n].next.pid;
    MapsAreHistory(s, h, n);
    PendingIsHistory(s, h, n, pid);
    StampBefore(h, n, i, pid);
    hide Clocked, Initial;
    BucketIsRange(c, h[n].readAt - Since(h[i]));
    if i < n { assert PendingSince(s, h, n, pid, i); }
  }

  lemma {:induction false} SampleSince(s: State, h: seq<Event>, n: nat) returns (i: nat)
    requires Initial(s) && Clocked(h) && n < |h| && h[n].Switch? && Samples(At(s, h, n), h[n])
    ensures CountedSince(s, h, n, i)
    decreases n, 5
  {
    hide At, NextFound, HostUp, PrevUp, Clears, Opens, NextSeen;
    var pid := h[n].next.pid;
    MapsAreHistory(s, h, n);
    PendingIsHistory(s, h, n, pid);
    hide Clocked, Initial;
    if Waits(h[n], pid) {
      i := n;
    } else {
      i :| PendingSince(s, h, n, pid, i);
    }
  }

  // Event n counts a delay in the bucket, by the state, exactly when it does by the history.
  lemma {:induction false} SampleIsHistory(s: State, h: seq<Event>, n: nat, c: Counter)
    requires Initial(s) && Clocked(h) && n < |h|
    ensures CountedIn(s, h, n, c) <==>
              h[n].Switch? && Samples(At(s, h, n), h[n]) && BucketOf(SampleDelay(At(s, h, n), h[n])) == c
    decreases n, 6
  {
    hide At, BucketOf, Within, Stamped, Reads, NextFound, SampleDelay, Clocked, Initial;
    forall i: nat | CountedSince(s, h, n, i)
      ensures Samples(At(s, h, n), h[n])
      ensures Within(c, h[n].readAt - Since(h[i])) <==> BucketOf(SampleDelay(At(s, h, n), h[n])) == c
    {
      SinceIsSample(s, h, n, i, c);
    }
    if h[n].Switch? && Samples(At(s, h, n), h[n]) {
      var i := SampleSince(s, h, n);
    }
  }

  // Every global bucket holds the number of counted switch-ins whose wait, from
  // the task's last unconsumed enqueue or preemption, falls in it, and the
  // switch counters the counted switch-outs; every group's block holds its own.
  lemma {:induction false} CountersRefineHistory(s: State, h: seq<Event>, n: nat, g: nat, c: Counter)
    requires Initial(s) && Clocked(h) && n <= |h|
    ensures HostOf(At(s, h, n)).Get(c) == Histogram(s, h, n, c)
    ensures GroupOf(At(s, h, n), g).Get(c) == GroupHistogram(s, h, n, g, c)
    decreases n, 0
  {
    hide Step, At, Run, CountsAt, Counts, HostOf, GroupOf, Clocked, Positive, Initial;
    if n == 0 {
      CountersStart(s, h, g, c);
    } else {
      CountersRefineHistory(s, h, n - 1, g, c);
      CountsMatch(s, h, n - 1, g, c);
    }
  }

  lemma CountersStart(s: State, h: seq<Event>, g: nat, c: Counter)
    requires Initial(s)
    ensures HostOf(At(s, h, 0)).Get(c) == 0 == GroupOf(At(s, h, 0), g).Get(c)
  {
  }

  lemma {:induction false} CountsMatch(s: State, h: seq<Event>, n: nat, g: nat, c: Counter)
    requires Initial(s) && Clocked(h) && n < |h|
    ensures HostOf(At(s, h, n + 1)).Get(c) == HostOf(At(s, h, n)).Get(c) + Bit(Counts(s, h, n, c))
    ensures GroupOf(At(s, h, n + 1), g).Get(c) ==
              if h[n] == FreeGroup(g) then 0
              else GroupOf(At(s, h, n), g).Get(c) +
                   Bit(Counts(s, h, n, c) && h[n].Switch? && ChargedGroup(h[n], c) == g)
    decreases n, 7
  {
    hide Opens;
    hide Step, At, Run, CountedIn, Samples, SampleDelay, BucketOf, HostOf, GroupOf;
    hide Positive, Initial, Stamped, HostUp, PrevUp;
    SampleIsHistory(s, h, n, c);
    if h[n].Switch? { MapsAreHistory(s, h, n); }
    AtPositive(s, h, n);
    AtNext(s, h, n);
    StepCounts(At(s, h, n), h[n], g, c);
    assert CountsAt(At(s, h, n), h[n], c) <==> Counts(s, h, n, c);
  }

  // ---------------------------------------------------------------- conservation

  ghost function Total(groups: map<nat, Stat>, c: Counter): nat
    decreases |groups|
  {
    if groups == map[] then 0
    else
      var g :| g in groups;
      groups[g].Get(c) + Total(groups - {g}, c)
  }

  lemma {:induction false} TotalRemove(groups: map<nat, Stat>, g: nat, c: Counter)
    requires g in groups
    ensures Total(groups, c) == groups[g].Get(c) + Total(groups - {g}, c)
    decreases |groups|
  {
    var k :| k in groups && Total(groups, c) == groups[k].Get(c) + Total(groups - {k}, c);
    if k != g {
      TotalRemove(groups - {k}, g, c);
      TotalRemove(groups - {g}, k, c);
      assert groups - {k} - {g} == groups - {g} - {k};
    }
  }

  lemma TotalUpdate(groups: map<nat, Stat>, g: nat, stat: Stat, c: Counter)
    ensures Total(groups[g := stat], c)
         == Total(groups, c) - (if g in groups then groups[g].Get(c) else 0) + stat.Get(c)
  {
    var more := groups[g := stat];
    TotalRemove(more, g, c);
    assert more - {g} == groups - {g};
    if g in groups {
      TotalRemove(groups, g, c);
    } else {
      assert groups - {g} == groups;
    }
  }

  // What the global block counts beyond the live groups.
  ghost function Excess(s: State, c: Counter): int {
    HostOf(s).Get(c) - Total(s.groups, c)
  }

  lemma BumpExcess(s: State, g: nat, bumped: Counter, c: Counter)
    ensures Excess(BumpBoth(s, g, bumped), c) == Excess(s, c)
  {
    TotalUpdate(s.groups, g, GroupOf(s, g).Bump(bumped), c);
  }

  // What a group being freed still held.
  function Released(s: State, e: Event, c: Counter): nat {
    if e.FreeGroup? && e.group in s.groups then s.groups[e.group].Get(c) else 0
  }

  function Freed(s: State, h: seq<Event>, n: nat, c: Counter): nat
    requires n <= |h|
  {
    if n == 0 then 0 else Freed(s, h, n - 1, c) + Released(At(s, h, n - 1), h[n - 1], c)
  }

  lemma StepExcess(s: State, e: Event, c: Counter)
    ensures Excess(Step(s, e), c) == Excess(s, c) + Released(s, e, c)
  {
    if e.FreeGroup? {
      hide BumpBoth;
      if e.group in s.groups { TotalRemove(s.groups, e.group, c); } else { assert s.groups - {e.group} == s.groups; }
    } else if e.Switch? {
      SwitchExcess(s, e, c);
    }
  }

  lemma SwitchExcess(s: State, e: Event, c: Counter)
    requires e.Switch?
    ensures Excess(Step(s, e), c) == Excess(s, c)
  {
    hide Step, BumpBoth, BucketOf, Stamped, Total, Delay, HostUp, PrevUp, NextUp;
    SwitchPath(s, e);
    var b := Opened(s, e);
    assert Excess(b, c) == Excess(s, c);
    var p := CountPrev(b, e);
    BumpExcess(b, e.prev.group, if e.running then Involuntary else Voluntary, c);
    if Consumes(p, e) {
      var t := p.(latency := p.latency - {e.next.pid});
      assert Excess(t, c) == Excess(p, c);
      BumpExcess(t, e.next.group, BucketOf(Delay(p, e)), c);
    }
  }

  // Every global counter is the sum over live groups plus what freed groups held.
  lemma {:induction false} CountersConserved(s: State, h: seq<Event>, n: nat, c: Counter)
    requires Initial(s) && n <= |h|
    ensures HostOf(At(s, h, n)).Get(c) == Total(At(s, h, n).groups, c) + Freed(s, h, n, c)
    decreases n
  {
    if n > 0 {
      CountersConserved(s, h, n - 1, c);
      AtNext(s, h, n - 1);
      StepExcess(At(s, h, n - 1), h[n - 1], c);
    }
  }

  // Where timestamps go.
  datatype Ledger = Ledger(written: nat, sampled: nat, overwritten: nat, exited: nat, uncounted: nat)

  function Entry(s: State, e: Event): Ledger {
    match e
    case Enqueue(pid, _, _) =>
      Ledger(Bit(Waits(e, pid)), 0, Bit(Waits(e, pid) && pid in s.latency), 0, 0)
    case Switch(prev, _, next, _, _, _) =>
      var taken := Reads(s, e) && next.pid in Stamped(s.latency, e);
      Ledger(Bit(Waits(e, prev.pid)), Bit(taken && NextFound(s, e)),
             Bit(Waits(e, prev.pid) && prev.pid in s.latency), 0, Bit(taken && !NextFound(s, e)))
    case Exit(pid) => Ledger(0, 0, 0, Bit(pid in s.latency), 0)
    case FreeGroup(_) => Ledger(0, 0, 0, 0, 0)
  }

  function Plus(a: Ledger, b: Ledger): Ledger {
    Ledger(a.written + b.written, a.sampled + b.sampled, a.overwritten + b.overwritten,
           a.exited + b.exited, a.uncounted + b.uncounted)
  }

  function Book(s: State, h: seq<Event>, n: nat): Ledger
    requires n <= |h|
  {
    if n == 0 then Ledger(0, 0, 0, 0, 0) else Plus(Book(s, h, n - 1), Entry(At(s, h, n - 1), h[n - 1]))
  }

  lemma StampSize(latency: map<nat, nat>, e: Event)
    requires Timed(e)
    ensures |Stamped(latency, e)| == |latency| + Bit(Waits(e, StampedPid(e)))
                                   - Bit(Waits(e, StampedPid(e)) && StampedPid(e) in latency)
  {
    if StampedPid(e) in latency {
      assert Stamped(latency, e).Keys == latency.Keys;
    }
  }

  lemma RemoveSize(latency: map<nat, nat>, pid: nat)
    ensures |latency - {pid}| == |latency| - Bit(pid in latency)
  {
    assert (latency - {pid}).Keys == latency.Keys - {pid};
  }

  lemma StepLedger(s: State, e: Event)
    requires Positive(s) && (Timed(e) ==> 0 < Since(e))
    ensures var x := Entry(s, e);
            |Step(s, e).latency| == |s.latency| + x.written - x.sampled - x.overwritten - x.exited - x.uncounted
  {
    match e
    case Enqueue(_, _, _) => StampSize(s.latency, e);
    case Switch(_, _, next, _, _, _) =>
      hide Step, BumpBoth, BucketOf, Delay, NextUp, Consumes, NextFound, SampleDelay, Stamped, Positive, CountPrev;
      SwitchShape(s, e);
      StampSize(s.latency, e);
      RemoveSize(Stamped(s.latency, e), next.pid);
      BumpLatency();
    case Exit(pid) => RemoveSize(s.latency, pid);
    case FreeGroup(_) =>
  }

  lemma BumpLatency()
    ensures forall t: State, g: nat, c: Counter :: BumpBoth(t, g, c).latency == t.latency
  {
  }

  // All the delays a block has counted, over the four ranges.
  function Delays(stat: Stat): nat {
    stat.Get(Lat01) + stat.Get(Lat02) + stat.Get(Lat03) + stat.Get(Lat04)
  }

  lemma OneBucket(delta: int)
    ensures Bit(BucketOf(delta) == Lat01) + Bit(BucketOf(delta) == Lat02)
          + Bit(BucketOf(delta) == Lat03) + Bit(BucketOf(delta) == Lat04) == 1
  {
  }

  lemma StepDelays(s: State, e: Event)
    requires Positive(s) && (Timed(e) ==> 0 < Since(e))
    ensures Delays(HostOf(Step(s, e))) == Delays(HostOf(s)) + Entry(s, e).sampled
  {
    hide Step, BucketOf, NextFound, SampleDelay, Stamped, Positive, Reads, HostOf, CountedOut;
    StepCounts(s, e, 0, Lat01);
    StepCounts(s, e, 0, Lat02);
    StepCounts(s, e, 0, Lat03);
    StepCounts(s, e, 0, Lat04);
    if e.Switch? && Samples(s, e) { OneBucket(SampleDelay(s, e)); }
  }

  lemma BookNext(s: State, h: seq<Event>, n: nat)
    requires n < |h|
    ensures Book(s, h, n + 1) == Plus(Book(s, h, n), Entry(At(s, h, n), h[n]))
  {
  }

  // Every timestamp written was sampled, overwritten, removed at exit, consumed
  // without a counted group, or is still pending; and the sampled ones are the
  // delays in the global block's four latency counters.
  lemma {:induction false} TimestampsConserved(s: State, h: seq<Event>, n: nat)
    requires Initial(s) && Clocked(h) && n <= |h|
    ensures var b := Book(s, h, n);
            b.written == b.sampled + b.overwritten + b.exited + b.uncounted + |At(s, h, n).latency|
    ensures Book(s, h, n).sampled == Delays(HostOf(At(s, h, n)))
    decreases n
  {
    if n > 0 {
      hide Step, At, Run, Entry, Book, Delays, HostOf, Positive;
      TimestampsConserved(s, h, n - 1);
      AtNext(s, h, n - 1);
      BookNext(s, h, n - 1);
      AtPositive(s, h, n - 1);
      StepLedger(At(s, h, n - 1), h[n - 1]);
      StepDelays(At(s, h, n - 1), h[n - 1]);
    }
  }
}
