/**
 * The run-queue latency tracer: a map of pending enqueue timestamps, counters
 * per task group and one global counter block, updated by scheduler events.
 * Each BPF program is one atomic step; inserting into a bounded map may fail.
 */
module RunqLat {
  import opened Options
  import opened Machine

  datatype Counter = Voluntary | Involuntary | Lat01 | Lat02 | Lat03 | Lat04

  datatype Stat = Stat(nvcsw: nat, nivcsw: nat, nlat01: nat, nlat02: nat, nlat03: nat, nlat04: nat) {
    function Get(c: Counter): nat {
      match c
      case Voluntary => nvcsw
      case Involuntary => nivcsw
      case Lat01 => nlat01
      case Lat02 => nlat02
      case Lat03 => nlat03
      case Lat04 => nlat04
    }

    function Bump(c: Counter): (s: Stat)
      ensures forall d: Counter :: s.Get(d) == Get(d) + (if d == c then 1 else 0)
    {
      match c
      case Voluntary => this.(nvcsw := nvcsw + 1)
      case Involuntary => this.(nivcsw := nivcsw + 1)
      case Lat01 => this.(nlat01 := nlat01 + 1)
      case Lat02 => this.(nlat02 := nlat02 + 1)
      case Lat03 => this.(nlat03 := nlat03 + 1)
      case Lat04 => this.(nlat04 := nlat04 + 1)
    }
  }

  const ZERO := Stat(0, 0, 0, 0, 0, 0)
  const NSEC_PER_MSEC := 1000000

  function BucketOf(delta: int): Counter {
    if delta < 10 * NSEC_PER_MSEC then Lat01
    else if delta < 20 * NSEC_PER_MSEC then Lat02
    else if delta < 50 * NSEC_PER_MSEC then Lat03
    else Lat04
  }

  // A task as the programs read it: its pid and the address of its group.
  datatype Task = Task(pid: nat, group: nat)

  // Which map inserts succeed, should they be needed.
  datatype Inserts = Inserts(stamp: bool, host: bool, prevGroup: bool, nextGroup: bool)

  datatype Event =
    | Enqueue(pid: nat, now: nat, stored: bool)
    | Switch(prev: Task, running: bool, next: Task, stampAt: nat, readAt: nat, ok: Inserts)
    | Exit(pid: nat)
    | FreeGroup(group: nat)

  datatype State = State(latency: map<nat, nat>, groups: map<nat, Stat>, host: Option<Stat>)

  // ------------------------------------------------------------------- the step

  // Does the event store a timestamp for this pid?
  predicate Stamps(e: Event, pid: nat) {
    pid != 0 &&
    match e
    case Enqueue(p, _, stored) => p == pid && stored
    case Switch(prev, running, _, _, _, ok) => prev.pid == pid && running && ok.stamp
    case _ => false
  }

  function StampTime(e: Event): nat
    requires e.Enqueue? || e.Switch?
  {
    if e.Enqueue? then e.now else e.stampAt
  }

  function StampedPid(e: Event): nat
    requires e.Enqueue? || e.Switch?
  {
    if e.Enqueue? then e.pid else e.prev.pid
  }

  function Stamped(latency: map<nat, nat>, e: Event): map<nat, nat>
    requires e.Enqueue? || e.Switch?
  {
    if Stamps(e, StampedPid(e)) then latency[StampedPid(e) := StampTime(e)] else latency
  }

  predicate HostUp(s: State, e: Event)
    requires e.Switch?
  {
    s.host.Some? || e.ok.host
  }

  function HostOf(s: State): Stat {
    if s.host.Some? then s.host.value else ZERO
  }

  function GroupOf(s: State, group: nat): Stat {
    if group in s.groups then s.groups[group] else ZERO
  }

  // Only a task with a group and a non-zero pid is counted when it leaves the CPU.
  predicate CountsPrev(e: Event)
    requires e.Switch?
  {
    e.prev.group != 0 && e.prev.pid != 0
  }

  predicate PrevUp(s: State, e: Event)
    requires e.Switch?
  {
    !CountsPrev(e) || e.prev.group in s.groups || e.ok.prevGroup
  }

  // The program gets as far as looking up the incoming task's timestamp.
  predicate Reads(s: State, e: Event)
    requires e.Switch?
  {
    HostUp(s, e) && PrevUp(s, e) && e.next.pid != 0
  }

  function BumpBoth(s: State, group: nat, c: Counter): State {
    s.(groups := s.groups[group := GroupOf(s, group).Bump(c)], host := Some(HostOf(s).Bump(c)))
  }

  function CountPrev(s: State, e: Event): State
    requires e.Switch?
  {
    if CountsPrev(e) then BumpBoth(s, e.prev.group, if e.running then Involuntary else Voluntary) else s
  }

  // After the lookup, the incoming task's timestamp is consumed and its delay counted.
  predicate Consumes(s: State, e: Event)
    requires e.Switch?
  {
    e.next.pid != 0 && e.next.pid in s.latency && s.latency[e.next.pid] != 0
  }

  predicate NextUp(s: State, e: Event)
    requires e.Switch?
  {
    e.next.group != 0 && (e.next.group in s.groups || e.ok.nextGroup)
  }

  function Delay(s: State, e: Event): int
    requires e.Switch? && e.next.pid in s.latency
  {
    (e.readAt - s.latency[e.next.pid]) % TWO64
  }

  function SwitchIn(s: State, e: Event): State
    requires e.Switch?
  {
    if !Consumes(s, e) then s
    else
      var t := s.(latency := s.latency - {e.next.pid});
      if NextUp(s, e) then BumpBoth(t, e.next.group, BucketOf(Delay(s, e))) else t
  }

  function Step(s: State, e: Event): State {
    match e
    case Enqueue(_, _, _) => s.(latency := Stamped(s.latency, e))
    case Switch(_, _, _, _, _, _) =>
      var a := s.(latency := Stamped(s.latency, e));
      if !HostUp(a, e) then a
      else
        var b := a.(host := Some(HostOf(a)));
        if !PrevUp(b, e) then b else SwitchIn(CountPrev(b, e), e)
    case Exit(pid) => s.(latency := s.latency - {pid})
    case FreeGroup(group) => s.(groups := s.groups - {group})
  }

  function Run(s: State, h: seq<Event>): State {
    if h == [] then s else Step(Run(s, h[..|h| - 1]), h[|h| - 1])
  }

  // The maps start empty; the one slot of the global array may or may not read as present.
  predicate Initial(s: State) {
    s.latency == map[] && s.groups == map[] && (s.host.Some? ==> s.host.value == ZERO)
  }

  // --------------------------------------------------------------- the programs

  class RunqTracer {
    var latency: map<nat, nat>
    var cpuTgMetric: map<nat, Stat>
    var cpuHostMetric: Option<Stat>

    ghost function Model(): State
      reads this
    {
      State(latency, cpuTgMetric, cpuHostMetric)
    }

    method TraceEnqueue(pid: nat, now: nat, stored: bool)
      modifies this
      ensures Model() == Step(old(Model()), Enqueue(pid, now, stored))
    {
      if pid == 0 {
        return;
      }
      if stored {
        latency := latency[pid := now];
      }
    }

    // Finds the group's entry, inserting a zero one if there is none, and adds
    // one to a counter there and in the global block.
    method Charge(group: nat, c: Counter, inserted: bool) returns (found: bool)
      requires cpuHostMetric.Some?
      modifies this
      ensures found <==> group in old(cpuTgMetric) || inserted
      ensures cpuHostMetric.Some?
      ensures Model() == if found then BumpBoth(old(Model()), group, c) else old(Model())
    {
      if group !in cpuTgMetric {
        if !inserted {
          return false;
        }
        cpuTgMetric := cpuTgMetric[group := ZERO];
      }
      cpuTgMetric := cpuTgMetric[group := cpuTgMetric[group].Bump(c)];
      cpuHostMetric := Some(cpuHostMetric.value.Bump(c));
      return true;
    }

    method SchedSwitch(prev: Task, running: bool, next: Task, stampAt: nat, readAt: nat, ok: Inserts)
      modifies this
      ensures Model() == Step(old(Model()), Switch(prev, running, next, stampAt, readAt, ok))
    {
      hide BumpBoth, BucketOf;
      ghost var e := Switch(prev, running, next, stampAt, readAt, ok);
      if running && prev.pid != 0 && ok.stamp {
        latency := latency[prev.pid := stampAt];
      }
      var isVoluntary := !running;
      ghost var a := Model();
      assert a == old(Model()).(latency := Stamped(old(latency), e));
      if cpuHostMetric == None {
        if !ok.host {
          return;
        }
        cpuHostMetric := Some(ZERO);
      }
      ghost var b := Model();
      assert HostUp(a, e) && b == a.(host := Some(HostOf(a)));
      if prev.group != 0 && prev.pid != 0 {
        var found := Charge(prev.group, if isVoluntary then Voluntary else Involuntary, ok.prevGroup);
        if !found {
          return;
        }
      }
      ghost var c := Model();
      assert PrevUp(b, e) && c == CountPrev(b, e);
      if next.pid == 0 {
        return;
      }
      if next.pid !in latency || latency[next.pid] == 0 {
        return;
      }
      var delta := (readAt - latency[next.pid]) % TWO64;
      latency := latency - {next.pid};
      if next.group != 0 {
        var found := Charge(next.group, BucketOf(delta), ok.nextGroup);
      }
    }

    method ProcessExit(pid: nat)
      modifies this
      ensures Model() == Step(old(Model()), Exit(pid))
    {
      if pid in latency {
        latency := latency - {pid};
      }
    }

    method FreeFairSchedGroup(group: nat)
      modifies this
      ensures Model() == Step(old(Model()), FreeGroup(group))
    {
      if group in cpuTgMetric {
        cpuTgMetric := cpuTgMetric - {group};
      }
    }
  }
}
