/**
 * Link state accounting: counts of admin and carrier transitions per interface,
 * kept from the flags of netlink link updates.
 */
module LinkEvents {
  // An interface's flag word.
  datatype Flags = Flags(bits: bv32)

  const IFF_UP: bv32 := 0x1
  const IFF_LOWER_UP: bv32 := 0x10000
  const UNCHANGED := Flags(0)

  datatype LinkStatus = Unknown | AdminUp | AdminDown | CarrierUp | CarrierDown

  predicate Up(flags: Flags) {
    flags.bits & IFF_UP != 0
  }

  predicate LowerUp(flags: Flags) {
    flags.bits & IFF_LOWER_UP != 0
  }

  function Flags2Status(flags: Flags, change: Flags): seq<LinkStatus> {
    (if Up(change) then [if Up(flags) then AdminUp else AdminDown] else []) +
    (if LowerUp(change) then [if LowerUp(flags) then CarrierUp else CarrierDown] else [])
  }

  function Diff(a: Flags, b: Flags): Flags {
    Flags(a.bits ^ b.bits)
  }

  // A bit of the exclusive or is set exactly when the two words differ there.
  lemma ChangedBits(a: Flags, b: Flags)
    ensures Up(Diff(a, b)) <==> Up(a) != Up(b)
    ensures LowerUp(Diff(a, b)) <==> LowerUp(a) != LowerUp(b)
  {
  }

  datatype Event = Event(ifname: string, flags: Flags)
  datatype Update = Error | NewLink(event: Event) | Other
  datatype Saved = Saved(ifname: string, status: seq<LinkStatus>)

  type Counts = map<LinkStatus, map<string, int>>

  function Count(counts: Counts, status: LinkStatus, ifname: string): int {
    if status in counts && ifname in counts[status] then counts[status][ifname] else 0
  }

  function Bump(counts: Counts, status: LinkStatus, ifname: string): (more: Counts)
    ensures forall s, i :: Count(more, s, i) == Count(counts, s, i) + if s == status && i == ifname then 1 else 0
  {
    var row := if status in counts then counts[status] else map[];
    counts[status := row[ifname := Count(counts, status, ifname) + 1]]
  }

  function BumpAll(counts: Counts, status: seq<LinkStatus>, ifname: string): Counts {
    if status == [] then counts
    else Bump(BumpAll(counts, status[..|status| - 1], ifname), status[|status| - 1], ifname)
  }

  lemma BumpNone(counts: Counts, ifname: string)
    ensures BumpAll(counts, [], ifname) == counts
  {
  }

  lemma BumpNext(counts: Counts, status: seq<LinkStatus>, i: nat, ifname: string)
    requires i < |status|
    ensures BumpAll(counts, status[..i + 1], ifname) == Bump(BumpAll(counts, status[..i], ifname), status[i], ifname)
  {
    assert status[..i + 1][..i] == status[..i];
  }

  // --------------------------------------------------------------------- the tracer

  datatype Net = Net(flags: map<string, Flags>, counts: Counts, saved: seq<Saved>)

  // An event of a known interface: its changes are counted and, if there are
  // any, saved.
  function Handle(n: Net, e: Event): Net
    requires e.ifname in n.flags
  {
    var status := Flags2Status(e.flags, Diff(e.flags, n.flags[e.ifname]));
    Net(n.flags[e.ifname := e.flags], BumpAll(n.counts, status, e.ifname),
        if status != [] then n.saved + [Saved(e.ifname, status)] else n.saved)
  }

  // Interfaces not seen at the start of the run are ignored.
  function Step(n: Net, u: Update): Net {
    if u.NewLink? && u.event.ifname in n.flags then Handle(n, u.event) else n
  }

  // The first error ends the run.
  function Run(n: Net, us: seq<Update>): Net
    decreases |us|
  {
    if us == [] || us[0].Error? then n else Run(Step(n, us[0]), us[1..])
  }

  function Scanned(flags: map<string, Flags>, links: seq<Event>, whitelist: set<string>): map<string, Flags> {
    if links == [] then flags
    else
      var last := links[|links| - 1];
      var before := Scanned(flags, links[..|links| - 1], whitelist);
      if last.ifname in whitelist then before[last.ifname := last.flags] else before
  }

  class NetdevTracing {
    var ifFlagsMap: map<string, Flags>
    var counts: Counts
    var saved: seq<Saved>

    ghost function Model(): Net
      reads this
    {
      Net(ifFlagsMap, counts, saved)
    }

    method Record(ifname: string, linkFlags: Flags, flagsChange: Flags, atStart: bool)
      modifies this
      ensures ifFlagsMap == old(ifFlagsMap)
      ensures var status := Flags2Status(linkFlags, flagsChange);
              counts == BumpAll(old(counts), status, ifname) &&
              saved == if !atStart && status != [] then old(saved) + [Saved(ifname, status)] else old(saved)
    {
      hide Flags2Status, Bump, BumpAll;
      var status := Flags2Status(linkFlags, flagsChange);
      BumpNone(counts, ifname);
      var linkStatus := [];
      for i := 0 to |status|
        invariant ifFlagsMap == old(ifFlagsMap) && saved == old(saved) && linkStatus == status[..i]
        invariant counts == BumpAll(old(counts), status[..i], ifname)
      {
        BumpNext(old(counts), status, i, ifname);
        counts := Bump(counts, status[i], ifname);
        linkStatus := linkStatus + [status[i]];
      }
      assert status[..|status|] == status;
      if !atStart && linkStatus != [] {
        saved := saved + [Saved(ifname, linkStatus)];
      }
    }

    method HandleEvent(ev: Event)
      requires ev.ifname in ifFlagsMap
      modifies this
      ensures Model() == Handle(old(Model()), ev)
    {
      hide Flags2Status, BumpAll, Diff;
      var currFlags := ev.flags;
      var lastFlags := ifFlagsMap[ev.ifname];
      var change := Diff(currFlags, lastFlags);
      ifFlagsMap := ifFlagsMap[ev.ifname := currFlags];
      Record(ev.ifname, currFlags, change, false);
    }

    // Notes the flags of the listed interfaces; counts and saves nothing.
    method CheckLinkStatus(links: seq<Event>, whitelist: set<string>)
      modifies this
      ensures Model() == old(Model()).(flags := Scanned(old(ifFlagsMap), links, whitelist))
    {
      for i := 0 to |links|
        invariant Model() == old(Model()).(flags := Scanned(old(ifFlagsMap), links[..i], whitelist))
      {
        assert links[..i + 1][..i] == links[..i];
        if links[i].ifname in whitelist {
          ifFlagsMap := ifFlagsMap[links[i].ifname := links[i].flags];
          NoChange(links[i].flags);
          BumpNone(counts, links[i].ifname);
          Record(links[i].ifname, links[i].flags, UNCHANGED, true);
        }
      }
      assert links[..|links|] == links;
    }

    method Start(links: seq<Event>, whitelist: set<string>, updates: seq<Update>)
      modifies this
      ensures Model() == Run(old(Model()).(flags := Scanned(old(ifFlagsMap), links, whitelist)), updates)
    {
      CheckLinkStatus(links, whitelist);
      ghost var start := Model();
      var i := 0;
      while i < |updates|
        invariant 0 <= i <= |updates|
        invariant Run(Model(), updates[i..]) == Run(start, updates)
      {
        ghost var before := Model();
        if updates[i].Error? {
          return;
        }
        if updates[i].NewLink? && updates[i].event.ifname in ifFlagsMap {
          HandleEvent(updates[i].event);
        }
        assert Model() == Step(before, updates[i]);
        assert updates[i..][1..] == updates[i + 1..];
        i := i + 1;
      }
    }
  }

  lemma NoChange(flags: Flags)
    ensures Flags2Status(flags, UNCHANGED) == []
  {
  }

  // ---------------------------------------------------------------------- accounting

  function Bit(b: bool): int {
    if b then 1 else 0
  }

  function AdminBalance(counts: Counts, ifname: string): int {
    Count(counts, AdminUp, ifname) - Count(counts, AdminDown, ifname)
  }

  function CarrierBalance(counts: Counts, ifname: string): int {
    Count(counts, CarrierUp, ifname) - Count(counts, CarrierDown, ifname)
  }

  function Occurs(status: seq<LinkStatus>, s: LinkStatus): nat {
    if status == [] then 0 else Occurs(status[..|status| - 1], s) + if status[|status| - 1] == s then 1 else 0
  }

  lemma {:induction false} BumpCount(counts: Counts, status: seq<LinkStatus>, ifname: string, s: LinkStatus, i: string)
    ensures Count(BumpAll(counts, status, ifname), s, i)
         == Count(counts, s, i) + if i == ifname then Occurs(status, s) else 0
    decreases |status|
  {
    if status != [] {
      hide Bump, Count;
      BumpCount(counts, status[..|status| - 1], ifname, s, i);
    }
  }

  // The transitions between two flag words, by their two bits.
  function Transitions(now: Flags, last: Flags): seq<LinkStatus> {
    (if Up(now) == Up(last) then [] else [if Up(now) then AdminUp else AdminDown]) +
    (if LowerUp(now) == LowerUp(last) then [] else [if LowerUp(now) then CarrierUp else CarrierDown])
  }

  // What is reported of an update is exactly its transitions.
  lemma StatusByBits(now: Flags, last: Flags)
    ensures Flags2Status(now, Diff(now, last)) == Transitions(now, last)
  {
    hide Up, LowerUp, Diff;
    ChangedBits(now, last);
  }

  // The transition this status names.
  predicate Turn(now: Flags, last: Flags, status: LinkStatus) {
    match status
    case Unknown => false
    case AdminUp => Up(now) && !Up(last)
    case AdminDown => !Up(now) && Up(last)
    case CarrierUp => LowerUp(now) && !LowerUp(last)
    case CarrierDown => !LowerUp(now) && LowerUp(last)
  }

  lemma TransitionsOccur(now: Flags, last: Flags, status: LinkStatus)
    ensures Occurs(Transitions(now, last), status) == Bit(Turn(now, last, status))
    ensures Transitions(now, last) == [] <==> Up(now) == Up(last) && LowerUp(now) == LowerUp(last)
  {
    hide Up, LowerUp, Occurs;
    var admin := if Up(now) == Up(last) then [] else [if Up(now) then AdminUp else AdminDown];
    var carrier := if LowerUp(now) == LowerUp(last) then [] else [if LowerUp(now) then CarrierUp else CarrierDown];
    OccursTwo(admin, carrier, status);
  }

  lemma {:induction false} OccursTwo(a: seq<LinkStatus>, b: seq<LinkStatus>, s: LinkStatus)
    requires |a| <= 1 && |b| <= 1
    ensures Occurs(a + b, s) == Bit(a == [s]) + Bit(b == [s])
  {
    hide Occurs;
    OccursMore([], Unknown, s);
    if a == [] {
      assert a + b == b;
    } else {
      OccursMore([], a[0], s);
      assert [] + [a[0]] == a;
    }
    if b == [] {
      assert a + b == a;
    } else {
      OccursMore(a, b[0], s);
      assert a + [b[0]] == a + b;
    }
  }

  lemma {:induction false} OccursMore(a: seq<LinkStatus>, x: LinkStatus, s: LinkStatus)
    ensures Occurs(a + [x], s) == Occurs(a, s) + Bit(x == s)
    ensures Occurs([], s) == 0
  {
    assert (a + [x])[..|a|] == a;
  }

  // One event adds one to the counters of its own transitions and to no others.
  lemma HandleCounts(n: Net, e: Event, ifname: string, status: LinkStatus)
    requires e.ifname in n.flags
    ensures Count(Handle(n, e).counts, status, ifname) == Count(n.counts, status, ifname) +
              if ifname == e.ifname then Bit(Turn(e.flags, n.flags[e.ifname], status)) else 0
  {
    hide Flags2Status, Turn, Transitions, Count, BumpAll, Occurs, Diff;
    var last := n.flags[e.ifname];
    StatusByBits(e.flags, last);
    TransitionsOccur(e.flags, last, status);
    BumpCount(n.counts, Transitions(e.flags, last), e.ifname, status, ifname);
  }

  // The update is this transition of this interface.
  predicate Turns(n: Net, u: Update, ifname: string, status: LinkStatus) {
    u.NewLink? && u.event.ifname == ifname && ifname in n.flags && Turn(u.event.flags, n.flags[ifname], status)
  }

  function Turned(n: Net, us: seq<Update>, ifname: string, status: LinkStatus): nat
    decreases |us|
  {
    if us == [] || us[0].Error? then 0
    else Bit(Turns(n, us[0], ifname, status)) + Turned(Step(n, us[0]), us[1..], ifname, status)
  }

  lemma StepCounts(n: Net, u: Update, ifname: string, status: LinkStatus)
    ensures Count(Step(n, u).counts, status, ifname)
         == Count(n.counts, status, ifname) + Bit(Turns(n, u, ifname, status))
  {
    if u.NewLink? && u.event.ifname in n.flags {
      hide Handle, Count, Turn;
      HandleCounts(n, u.event, ifname, status);
    }
  }

  // Each counter grows by the number of those transitions in the run.
  lemma {:induction false} RunCounts(n: Net, us: seq<Update>, ifname: string, status: LinkStatus)
    ensures Count(Run(n, us).counts, status, ifname)
         == Count(n.counts, status, ifname) + Turned(n, us, ifname, status)
    decreases |us|
  {
    if us != [] && !us[0].Error? {
      hide Step, Count, Turns;
      StepCounts(n, us[0], ifname, status);
      RunCounts(Step(n, us[0]), us[1..], ifname, status);
    }
  }

  // The records of a run: the interface and the transitions of every update that
  // changes one of the two bits of an interface being followed, in order.
  function Records(n: Net, us: seq<Update>): seq<Saved>
    decreases |us|
  {
    if us == [] || us[0].Error? then []
    else
      (if Changes(n, us[0])
       then [Saved(us[0].event.ifname, Transitions(us[0].event.flags, n.flags[us[0].event.ifname]))] else []) +
      Records(Step(n, us[0]), us[1..])
  }

  predicate Changes(n: Net, u: Update) {
    u.NewLink? && u.event.ifname in n.flags &&
    var last := n.flags[u.event.ifname];
    Up(u.event.flags) != Up(last) || LowerUp(u.event.flags) != LowerUp(last)
  }

  lemma StepSaves(n: Net, u: Update)
    ensures Step(n, u).saved == n.saved +
              if Changes(n, u) then [Saved(u.event.ifname, Transitions(u.event.flags, n.flags[u.event.ifname]))] else []
  {
    hide Up, LowerUp, Flags2Status, Transitions, BumpAll, Diff;
    if u.NewLink? && u.event.ifname in n.flags {
      var now, last := u.event.flags, n.flags[u.event.ifname];
      StatusByBits(now, last);
      TransitionsOccur(now, last, Unknown);
    }
  }

  lemma {:induction false} RunSaves(n: Net, us: seq<Update>)
    ensures Run(n, us).saved == n.saved + Records(n, us)
    decreases |us|
  {
    if us != [] && !us[0].Error? {
      hide Step, Changes, Transitions;
      StepSaves(n, us[0]);
      RunSaves(Step(n, us[0]), us[1..]);
    }
  }

  // The statuses among these two, in order.
  function Keep(status: seq<LinkStatus>, up: LinkStatus, down: LinkStatus): seq<LinkStatus> {
    if status == [] then []
    else (if status[0] == up || status[0] == down then [status[0]] else []) + Keep(status[1..], up, down)
  }

  // Those of one interface's records.
  function Track(records: seq<Saved>, ifname: string, up: LinkStatus, down: LinkStatus): seq<LinkStatus> {
    if records == [] then []
    else
      (if records[0].ifname == ifname then Keep(records[0].status, up, down) else []) +
      Track(records[1..], ifname, up, down)
  }

  // Each is the turn away from the state before it.
  predicate Alternates(xs: seq<LinkStatus>, up: LinkStatus, down: LinkStatus, on: bool) {
    xs == [] || (xs[0] == (if on then down else up) && Alternates(xs[1..], up, down, !on))
  }

  lemma KeepCons(x: LinkStatus, rest: seq<LinkStatus>, up: LinkStatus, down: LinkStatus)
    ensures Keep([x] + rest, up, down) == (if x == up || x == down then [x] else []) + Keep(rest, up, down)
  {
    assert ([x] + rest)[1..] == rest;
  }

  lemma KeepOne(x: LinkStatus, up: LinkStatus, down: LinkStatus)
    ensures Keep([x], up, down) == (if x == up || x == down then [x] else []) && Keep([], up, down) == []
  {
    assert [x][1..] == [];
  }

  lemma TransitionsKept(now: Flags, last: Flags)
    ensures Keep(Transitions(now, last), AdminUp, AdminDown) ==
              if Up(now) == Up(last) then [] else [if Up(now) then AdminUp else AdminDown]
    ensures Keep(Transitions(now, last), CarrierUp, CarrierDown) ==
              if LowerUp(now) == LowerUp(last) then [] else [if LowerUp(now) then CarrierUp else CarrierDown]
  {
    hide Up, LowerUp, Keep;
    var x := if Up(now) then AdminUp else AdminDown;
    var y := if LowerUp(now) then CarrierUp else CarrierDown;
    var a := if Up(now) == Up(last) then [] else [x];
    var b := if LowerUp(now) == LowerUp(last) then [] else [y];
    assert Transitions(now, last) == a + b;
    KeepOne(y, AdminUp, AdminDown);
    KeepOne(y, CarrierUp, CarrierDown);
    if a == [] {
      assert a + b == b;
    } else {
      KeepCons(x, b, AdminUp, AdminDown);
      KeepCons(x, b, CarrierUp, CarrierDown);
    }
  }

  lemma TrackCons(record: Saved, rest: seq<Saved>, ifname: string, up: LinkStatus, down: LinkStatus)
    ensures Track([record] + rest, ifname, up, down) ==
              (if record.ifname == ifname then Keep(record.status, up, down) else []) + Track(rest, ifname, up, down)
  {
    assert ([record] + rest)[1..] == rest;
  }

  lemma AlternatesCons(x: LinkStatus, xs: seq<LinkStatus>, up: LinkStatus, down: LinkStatus, on: bool)
    requires x == (if on then down else up) && Alternates(xs, up, down, !on)
    ensures Alternates([x] + xs, up, down, on)
  {
    assert ([x] + xs)[1..] == xs;
  }

  // In what is saved of an interface, ups and downs strictly alternate, for admin
  // and for carrier, from the state it was noted in.
  lemma {:induction false} RecordsAlternate(n: Net, us: seq<Update>, ifname: string)
    requires ifname in n.flags
    ensures Alternates(Track(Records(n, us), ifname, AdminUp, AdminDown), AdminUp, AdminDown, Up(n.flags[ifname]))
    ensures Alternates(Track(Records(n, us), ifname, CarrierUp, CarrierDown), CarrierUp, CarrierDown,
                       LowerUp(n.flags[ifname]))
    decreases |us|
  {
    if us != [] && !us[0].Error? {
      hide Step, Up, LowerUp, Transitions, Keep, Track, Alternates;
      var u := us[0];
      StepFlags(n, u, ifname);
      var rest := Records(Step(n, u), us[1..]);
      RecordsAlternate(Step(n, u), us[1..], ifname);
      if Changes(n, u) {
        var last := n.flags[u.event.ifname];
        var record := Saved(u.event.ifname, Transitions(u.event.flags, last));
        assert Records(n, us) == [record] + rest;
        TrackCons(record, rest, ifname, AdminUp, AdminDown);
        TrackCons(record, rest, ifname, CarrierUp, CarrierDown);
        if u.event.ifname == ifname {
          TransitionsKept(u.event.flags, last);
          AlternatesMore(Track(rest, ifname, AdminUp, AdminDown), AdminUp, AdminDown, Up(u.event.flags), Up(last));
          AlternatesMore(Track(rest, ifname, CarrierUp, CarrierDown), CarrierUp, CarrierDown,
                         LowerUp(u.event.flags), LowerUp(last));
        } else {
          assert [] + Track(rest, ifname, AdminUp, AdminDown) == Track(rest, ifname, AdminUp, AdminDown);
          assert [] + Track(rest, ifname, CarrierUp, CarrierDown) == Track(rest, ifname, CarrierUp, CarrierDown);
        }
      } else {
        assert Records(n, us) == rest;
      }
    }
  }

  lemma AlternatesMore(xs: seq<LinkStatus>, up: LinkStatus, down: LinkStatus, now: bool, last: bool)
    requires Alternates(xs, up, down, now)
    ensures Alternates((if now == last then [] else [if now then up else down]) + xs, up, down, last)
  {
    if now == last {
      assert [] + xs == xs;
    } else {
      AlternatesCons(if now then up else down, xs, up, down, last);
    }
  }

  lemma StepFlags(n: Net, u: Update, ifname: string)
    requires ifname in n.flags
    ensures ifname in Step(n, u).flags
    ensures Step(n, u).flags[ifname] ==
              if u.NewLink? && u.event.ifname == ifname then u.event.flags else n.flags[ifname]
  {
    hide BumpAll, Flags2Status, Diff;
  }

  lemma TurnsBalance(now: Flags, last: Flags)
    ensures Bit(Turn(now, last, AdminUp)) - Bit(Turn(now, last, AdminDown)) == Bit(Up(now)) - Bit(Up(last))
    ensures Bit(Turn(now, last, CarrierUp)) - Bit(Turn(now, last, CarrierDown))
         == Bit(LowerUp(now)) - Bit(LowerUp(last))
  {
    hide Up, LowerUp;
  }

  lemma StepBalances(n: Net, u: Update, ifname: string)
    requires ifname in n.flags
    ensures var m := Step(n, u);
            ifname in m.flags &&
            AdminBalance(m.counts, ifname) - Bit(Up(m.flags[ifname]))
              == AdminBalance(n.counts, ifname) - Bit(Up(n.flags[ifname])) &&
            CarrierBalance(m.counts, ifname) - Bit(LowerUp(m.flags[ifname]))
              == CarrierBalance(n.counts, ifname) - Bit(LowerUp(n.flags[ifname]))
  {
    hide Step, Up, LowerUp, Turn, Count, Bit;
    StepFlags(n, u, ifname);
    StepCounts(n, u, ifname, AdminUp);
    StepCounts(n, u, ifname, AdminDown);
    StepCounts(n, u, ifname, CarrierUp);
    StepCounts(n, u, ifname, CarrierDown);
    NoBit();
    if u.NewLink? && u.event.ifname == ifname {
      TurnsBalance(u.event.flags, n.flags[ifname]);
    }
  }

  lemma NoBit()
    ensures Bit(false) == 0
  {
  }

  // Over a whole run, for every interface: ups less downs equal the present bit
  // less the first one, for admin and for carrier, so they never differ by more
  // than one.
  lemma {:induction false} RunBalances(n: Net, us: seq<Update>, ifname: string)
    requires ifname in n.flags
    ensures var m := Run(n, us);
            ifname in m.flags &&
            AdminBalance(m.counts, ifname) - AdminBalance(n.counts, ifname)
              == Bit(Up(m.flags[ifname])) - Bit(Up(n.flags[ifname])) &&
            CarrierBalance(m.counts, ifname) - CarrierBalance(n.counts, ifname)
              == Bit(LowerUp(m.flags[ifname])) - Bit(LowerUp(n.flags[ifname]))
    decreases |us|
  {
    if us != [] && !us[0].Error? {
      hide Step, Up, LowerUp, AdminBalance, CarrierBalance;
      StepBalances(n, us[0], ifname);
      RunBalances(Step(n, us[0]), us[1..], ifname);
    }
  }

  // Interfaces not listed at the start are never counted.
  lemma {:induction false} UnlistedIgnored(n: Net, us: seq<Update>, ifname: string, status: LinkStatus)
    requires ifname !in n.flags
    ensures var m := Run(n, us);
            ifname !in m.flags && Count(m.counts, status, ifname) == Count(n.counts, status, ifname)
    decreases |us|
  {
    if us != [] && !us[0].Error? {
      hide Count, Turn, BumpAll, Flags2Status, Diff;
      StepCounts(n, us[0], ifname, status);
      UnlistedIgnored(Step(n, us[0]), us[1..], ifname, status);
    }
  }

  // ------------------------------------------------------------ which interfaces are followed

  // The last of the listings of this interface.
  predicate LastListed(links: seq<Event>, ifname: string, i: nat) {
    i < |links| && links[i].ifname == ifname && forall j | i < j < |links| :: links[j].ifname != ifname
  }

  predicate Unlisted(links: seq<Event>, ifname: string) {
    forall i | 0 <= i < |links| :: links[i].ifname != ifname
  }

  // An interface is followed exactly when it was before or is both whitelisted and
  // listed; then its flags are those of its last listing, and otherwise as before.
  lemma {:induction false} ScannedExactly(flags: map<string, Flags>, links: seq<Event>, whitelist: set<string>,
                                          ifname: string)
    ensures var noted := Scanned(flags, links, whitelist);
            (ifname in noted <==> ifname in flags || (ifname in whitelist && !Unlisted(links, ifname))) &&
            (ifname in whitelist ==>
               forall i: nat | LastListed(links, ifname, i) :: ifname in noted && noted[ifname] == links[i].flags) &&
            (ifname in flags && (ifname !in whitelist || Unlisted(links, ifname)) ==> noted[ifname] == flags[ifname])
    decreases |links|
  {
    if links != [] {
      var init := links[..|links| - 1];
      ScannedExactly(flags, init, whitelist, ifname);
      assert links == init + [links[|links| - 1]];
      if links[|links| - 1].ifname != ifname {
        assert Unlisted(links, ifname) <==> Unlisted(init, ifname);
        assert forall i: nat :: LastListed(links, ifname, i) <==> LastListed(init, ifname, i);
      }
    }
  }

  // The records added over a run are of interfaces followed at its start.
  lemma {:induction false} RecordsFollowed(n: Net, us: seq<Update>, ifname: string)
    requires ifname !in n.flags
    ensures forall r | r in Records(n, us) :: r.ifname != ifname
    decreases |us|
  {
    if us != [] && !us[0].Error? {
      hide Transitions, BumpAll, Flags2Status, Diff;
      RecordsFollowed(Step(n, us[0]), us[1..], ifname);
    }
  }

  // A tracer started anew counts and saves nothing of an interface outside the
  // whitelist, or not listed at the start.
  lemma OnlyWhitelisted(n: Net, links: seq<Event>, whitelist: set<string>, us: seq<Update>, ifname: string,
                        status: LinkStatus)
    requires ifname !in n.flags && (ifname !in whitelist || Unlisted(links, ifname))
    ensures var start := n.(flags := Scanned(n.flags, links, whitelist));
            var m := Run(start, us);
            ifname !in m.flags && Count(m.counts, status, ifname) == Count(n.counts, status, ifname) &&
            m.saved == n.saved + Records(start, us) && forall r | r in Records(start, us) :: r.ifname != ifname
  {
    hide Run, Records, Scanned, Count;
    ScannedExactly(n.flags, links, whitelist, ifname);
    var start := n.(flags := Scanned(n.flags, links, whitelist));
    UnlistedIgnored(start, us, ifname, status);
    RecordsFollowed(start, us, ifname);
    RunSaves(start, us);
  }

  // And of one that is whitelisted, its ups less downs are its present state less
  // that of its last listing.
  lemma FollowedFromListing(n: Net, links: seq<Event>, whitelist: set<string>, us: seq<Update>, ifname: string, i: nat)
    requires ifname in whitelist && LastListed(links, ifname, i)
    ensures var m := Run(n.(flags := Scanned(n.flags, links, whitelist)), us);
            ifname in m.flags &&
            AdminBalance(m.counts, ifname) - AdminBalance(n.counts, ifname)
              == Bit(Up(m.flags[ifname])) - Bit(Up(links[i].flags)) &&
            CarrierBalance(m.counts, ifname) - CarrierBalance(n.counts, ifname)
              == Bit(LowerUp(m.flags[ifname])) - Bit(LowerUp(links[i].flags))
  {
    hide Run, Scanned, AdminBalance, CarrierBalance, Up, LowerUp;
    ScannedExactly(n.flags, links, whitelist, ifname);
    RunBalances(n.(flags := Scanned(n.flags, links, whitelist)), us, ifname);
  }
}
