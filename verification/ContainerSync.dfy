/**
 * Keeping the table of containers in step with the kubelet's pod list.
 */
module ContainerSync {
  import opened Options

  datatype Status = Status(name: string, containerId: string, running: bool)

  // A pod: whether its phase is Running, its spec's container names, its statuses.
  datatype Pod = Pod(running: bool, spec: seq<string>, statuses: seq<Status>)

  class Container {
    const id: string
    var lifeResources: map<string, int>

    constructor (id: string)
      ensures this.id == id
    {
      this.id := id;
      lifeResources := map[];
    }
  }

  // ----------------------------------------------------------------- container ids

  function TrimLeft(s: string, c: char): (r: string)
    ensures |r| <= |s| && r == s[|s| - |r|..] && (r != [] ==> r[0] != c)
    ensures forall i | 0 <= i < |s| - |r| :: s[i] == c
  {
    if s != [] && s[0] == c then TrimLeft(s[1..], c) else s
  }

  function TrimRight(s: string, c: char): (r: string)
    ensures |r| <= |s| && r == s[..|r|] && (r != [] ==> r[|r| - 1] != c)
    ensures forall i | |r| <= i < |s| :: s[i] == c
  {
    if s != [] && s[|s| - 1] == c then TrimRight(s[..|s| - 1], c) else s
  }

  // The text without its quotes.
  function Unquoted(data: string): string {
    TrimRight(TrimLeft(data, '"'), '"')
  }

  // What follows the first separator, if there is one.
  function After(s: string, sep: string): Option<string> {
    if |s| < |sep| then None
    else if s[..|sep|] == sep then Some(s[|sep|..])
    else if s == [] then None
    else After(s[1..], sep)
  }

  // runtime://id, with exactly one separator once quotes are trimmed.
  function ParseContainerId(data: string): Option<string> {
    var rest := After(Unquoted(data), "://");
    if rest.None? || After(rest.value, "://").Some? then None else rest
  }

  predicate Plain(s: string) {
    forall i | 0 <= i < |s| :: s[i] != ':' && s[i] != '"'
  }

  lemma {:induction false} AfterPlain(s: string, rest: string)
    requires Plain(s)
    ensures After(s, "://") == None
    ensures After(s + "://" + rest, "://") == Some(rest)
    decreases |s|
  {
    var all := s + "://" + rest;
    if s == [] {
      assert all[..3] == "://" && all[3..] == rest;
    } else {
      AfterPlain(s[1..], rest);
      assert all[0] == s[0] != "://"[0];
      assert all[..3][0] == s[0];
      assert all[1..] == s[1..] + "://" + rest;
      if |s| >= 3 { assert s[..3][0] == s[0]; }
    }
  }

  // An id written as runtime://id reads back, quoted or not.
  lemma IdReadsBack(runtime: string, id: string)
    requires Plain(runtime) && Plain(id) && runtime != [] && id != []
    ensures var text := runtime + "://" + id;
            ParseContainerId(text) == Some(id) && ParseContainerId(['"'] + text + ['"']) == Some(id)
  {
    var text := runtime + "://" + id;
    assert text[0] == runtime[0] && text[|text| - 1] == id[|id| - 1];
    assert Unquoted(text) == text;
    var quoted := ['"'] + text + ['"'];
    var open := text + ['"'];
    assert quoted[1..] == open && open[0] == text[0] && open[..|open| - 1] == text;
    assert TrimLeft(quoted, '"') == open;
    assert TrimRight(open, '"') == text;
    AfterPlain(runtime, id);
    AfterPlain(id, "");
  }

  // The separator stands at position k.
  predicate SepAt(s: string, k: nat) {
    k + 3 <= |s| && s[k] == ':' && s[k + 1] == '/' == s[k + 2]
  }

  predicate FirstSep(s: string, k: nat) {
    SepAt(s, k) && forall j: nat | j < k :: !SepAt(s, j)
  }

  lemma SepAtStart(s: string)
    ensures SepAt(s, 0) <==> 3 <= |s| && s[..3] == "://"
  {
  }

  lemma {:induction false} AfterFirst(s: string) returns (k: nat)
    ensures After(s, "://").None? ==> forall j: nat :: !SepAt(s, j)
    ensures After(s, "://").Some? ==> FirstSep(s, k) && After(s, "://").value == s[k + 3..]
  {
    k := 0;
    SepAtStart(s);
    if 3 <= |s| && !SepAt(s, 0) {
      var rest := s[1..];
      k := AfterFirst(rest);
      k := k + 1;
      assert forall j: nat :: SepAt(s, j + 1) <==> SepAt(rest, j);
      assert forall j: nat | SepAt(s, j) :: j > 0 && SepAt(rest, j - 1);
    }
  }

  // The separator stands in the text just once, before the id.
  ghost predicate NamesId(text: string, id: string, k: nat) {
    SepAt(text, k) && id == text[k + 3..] && forall j: nat | SepAt(text, j) :: j == k
  }

  // A text is read as an id exactly when, without its quotes, it has one separator
  // and the id after it; every other text is an error.
  lemma ParsedExactly(data: string, id: string)
    ensures ParseContainerId(data) == Some(id) <==> exists k: nat :: NamesId(Unquoted(data), id, k)
  {
    hide After, Unquoted;
    var text := Unquoted(data);
    var k := AfterFirst(text);
    if After(text, "://").Some? {
      var rest := text[k + 3..];
      var _ := AfterFirst(rest);
      assert forall j: nat :: SepAt(text, k + 3 + j) <==> SepAt(rest, j);
      assert forall j: nat | SepAt(text, j) && j != k :: SepAt(rest, j - k - 3);
      assert NamesId(text, rest, k) <==> After(rest, "://").None?;
    }
  }

  // ------------------------------------------------------------------- the snapshot

  predicate AllRunning(statuses: seq<Status>) {
    forall i | 0 <= i < |statuses| :: statuses[i].running
  }

  predicate IsRunning(pod: Pod) {
    pod.running && AllRunning(pod.statuses)
  }

  // The status recorded for a container name: the last one of that name.
  function StatusOf(statuses: seq<Status>, name: string): Option<Status> {
    if statuses == [] then None
    else
      var last := statuses[|statuses| - 1];
      if last.name == name then Some(last) else StatusOf(statuses[..|statuses| - 1], name)
  }

  // The last status of that name.
  predicate LastOf(statuses: seq<Status>, name: string, k: nat) {
    k < |statuses| && statuses[k].name == name && forall j | k < j < |statuses| :: statuses[j].name != name
  }

  lemma {:induction false} StatusIsLast(statuses: seq<Status>, name: string, status: Status)
    ensures StatusOf(statuses, name) == Some(status) <==>
              exists k: nat :: LastOf(statuses, name, k) && statuses[k] == status
    decreases |statuses|
  {
    if statuses != [] {
      var n := |statuses| - 1;
      var init := statuses[..n];
      if statuses[n].name == name {
        assert LastOf(statuses, name, n);
      } else {
        StatusIsLast(init, name, status);
        assert forall k: nat :: LastOf(init, name, k) <==> LastOf(statuses, name, k);
        if k: nat :| LastOf(init, name, k) && init[k] == status {
          assert LastOf(statuses, name, k) && statuses[k] == status;
        }
      }
    }
  }

  function IdOf(pod: Pod, name: string): Option<string> {
    var status := StatusOf(pod.statuses, name);
    if status.None? then None else ParseContainerId(status.value.containerId)
  }

  // Every container of a running pod has a status with a readable id.
  predicate Readable(pod: Pod) {
    IsRunning(pod) ==> forall name | name in SpecNames(pod) :: IdOf(pod, name).Some?
  }

  // One call: the pod list, unless fetching it failed, and the ids whose
  // containers can be built.
  datatype Sync = Sync(list: Option<seq<Pod>>, buildable: set<string>)

  predicate Good(x: Sync) {
    x.list.Some? && forall i | 0 <= i < |x.list.value| :: Readable(x.list.value[i])
  }

  function SpecNames(pod: Pod): set<string> {
    set i | 0 <= i < |pod.spec| :: pod.spec[i]
  }

  function IdsOf(pod: Pod, names: set<string>): set<string> {
    set name | name in names && IdOf(pod, name).Some? :: IdOf(pod, name).value
  }

  function PodIds(pod: Pod): set<string>
    requires Readable(pod)
  {
    if IsRunning(pod) then IdsOf(pod, SpecNames(pod)) else {}
  }

  function Listed(pods: seq<Pod>): set<string>
    requires forall i | 0 <= i < |pods| :: Readable(pods[i])
  {
    if pods == [] then {} else Listed(pods[..|pods| - 1]) + PodIds(pods[|pods| - 1])
  }

  // The keys after a call.
  function KeysAfter(keys: set<string>, x: Sync): set<string> {
    if Good(x) then
      var listed := Listed(x.list.value);
      keys * listed + (listed - keys) * x.buildable
    else keys
  }

  // The status has the id after the one separator of its text.
  ghost predicate HasId(status: Status, id: string) {
    exists at: nat :: NamesId(Unquoted(status.containerId), id, at)
  }

  // The last status of that name has the id.
  ghost predicate Names(pod: Pod, name: string, k: nat, id: string) {
    LastOf(pod.statuses, name, k) && HasId(pod.statuses[k], id)
  }

  // The pod is running, and so are all its containers.
  predicate Up(pod: Pod) {
    pod.running && forall j | 0 <= j < |pod.statuses| :: pod.statuses[j].running
  }

  // It runs a container of its spec under the id.
  ghost predicate Runs(pod: Pod, id: string) {
    Up(pod) && exists name: string, k: nat :: name in pod.spec && Names(pod, name, k, id)
  }

  lemma IdOfExactly(pod: Pod, name: string, id: string)
    ensures IdOf(pod, name) == Some(id) <==> exists k: nat :: Names(pod, name, k, id)
  {
    hide StatusOf, ParseContainerId, NamesId, Unquoted;
    var status := StatusOf(pod.statuses, name);
    forall k: nat | LastOf(pod.statuses, name, k) ensures status == Some(pod.statuses[k]) {
      StatusIsLast(pod.statuses, name, pod.statuses[k]);
    }
    if status.Some? {
      StatusIsLast(pod.statuses, name, status.value);
      ParsedExactly(status.value.containerId, id);
      hide LastOf;
      if IdOf(pod, name) == Some(id) {
        var k: nat :| LastOf(pod.statuses, name, k) && pod.statuses[k] == status.value;
        assert HasId(pod.statuses[k], id);
        assert Names(pod, name, k, id);
      }
    }
  }

  lemma PodIdsExactly(pod: Pod, id: string)
    requires Readable(pod)
    ensures id in PodIds(pod) <==> Runs(pod, id)
  {
    hide Names, IdOf, Readable;
    forall name ensures IdOf(pod, name) == Some(id) <==> exists k: nat :: Names(pod, name, k, id) {
      IdOfExactly(pod, name, id);
    }
    if id in PodIds(pod) {
      var name :| name in SpecNames(pod) && IdOf(pod, name) == Some(id);
      var k: nat :| Names(pod, name, k, id);
      assert name in pod.spec;
    }
    if Runs(pod, id) {
      var name: string, k: nat :| name in pod.spec && Names(pod, name, k, id);
      assert IdOf(pod, name) == Some(id);
      assert name in SpecNames(pod);
    }
  }

  // An id is in the snapshot exactly when some pod runs a container under it.
  lemma {:induction false} ListedExactly(pods: seq<Pod>, id: string)
    requires forall i | 0 <= i < |pods| :: Readable(pods[i])
    ensures id in Listed(pods) <==> exists pod :: pod in pods && Runs(pod, id)
    decreases |pods|
  {
    if pods != [] {
      hide Readable, PodIds, Runs;
      var n := |pods| - 1;
      assert pods == pods[..n] + [pods[n]];
      ListedExactly(pods[..n], id);
      PodIdsExactly(pods[n], id);
    }
  }

  // ------------------------------------------------------------------------ the call

  // A container without a status makes the source panic on a type assertion.
  datatype Outcome = Synced | ListFailed | BadId | Panicked

  // Why a pod is not readable.
  predicate Explains(outcome: Outcome, pod: Pod) {
    IsRunning(pod) && exists name | name in SpecNames(pod) ::
      match outcome
      case Panicked => StatusOf(pod.statuses, name).None?
      case BadId => StatusOf(pod.statuses, name).Some? && IdOf(pod, name).None?
      case _ => false
  }

  class ContainerTable {
    var containers: map<string, Container>

    // The spec's containers by name, each with its status if it has one.
    method NameTable(pod: Pod) returns (m: map<string, Option<Status>>)
      ensures m.Keys == SpecNames(pod)
      ensures forall name | name in m :: m[name] == StatusOf(pod.statuses, name)
    {
      m := map[];
      for i := 0 to |pod.spec|
        invariant m.Keys == set j | 0 <= j < i :: pod.spec[j]
        invariant forall name | name in m :: m[name] == None
      {
        m := m[pod.spec[i] := None];
      }
      for i := 0 to |pod.statuses|
        invariant m.Keys == SpecNames(pod)
        invariant forall name | name in m :: m[name] == StatusOf(pod.statuses[..i], name)
      {
        var status := pod.statuses[i];
        assert pod.statuses[..i + 1][..i] == pod.statuses[..i];
        if status.name in m {
          m := m[status.name := Some(status)];
        }
      }
      assert pod.statuses[..|pod.statuses|] == pod.statuses;
    }

    // One running pod's containers, by id, in no particular order.
    method CollectPod(pod: Pod, found: map<string, Status>) returns (outcome: Outcome, more: map<string, Status>)
      ensures outcome == Synced <==> Readable(pod)
      ensures outcome != Synced ==> Explains(outcome, pod)
      ensures outcome == Synced ==> more.Keys == found.Keys + PodIds(pod)
    {
      hide SpecNames, IdsOf, StatusOf, ParseContainerId;
      more := found;
      var running := IsRunningPod(pod);
      if !running {
        return Synced, more;
      }
      var m := NameTable(pod);
      var todo := m.Keys;
      IdsOfNone(pod);
      assert m.Keys - todo == {};
      while todo != {}
        invariant todo <= m.Keys
        invariant forall name | name in m.Keys - todo :: IdOf(pod, name).Some?
        invariant more.Keys == found.Keys + IdsOf(pod, m.Keys - todo)
      {
        var name :| name in todo;
        if m[name].None? {
          return Panicked, more;
        }
        var id := ParseContainerId(m[name].value.containerId);
        if id.None? {
          return BadId, more;
        }
        IdsOfMore(pod, m.Keys - todo, name);
        assert m.Keys - (todo - {name}) == m.Keys - todo + {name};
        more := more[id.value := m[name].value];
        todo := todo - {name};
      }
      assert m.Keys - {} == m.Keys;
      outcome := Synced;
    }

    method IsRunningPod(pod: Pod) returns (running: bool)
      ensures running <==> IsRunning(pod)
    {
      if !pod.running {
        return false;
      }
      for i := 0 to |pod.statuses|
        invariant forall j | 0 <= j < i :: pod.statuses[j].running
      {
        if !pod.statuses[i].running {
          return false;
        }
      }
      return true;
    }

    method Collect(pods: seq<Pod>) returns (outcome: Outcome, found: map<string, Status>)
      ensures outcome == Synced <==> forall i | 0 <= i < |pods| :: Readable(pods[i])
      ensures outcome != Synced ==> exists i | 0 <= i < |pods| :: Explains(outcome, pods[i])
      ensures outcome == Synced ==> found.Keys == Listed(pods)
    {
      hide Explains, Readable;
      found := map[];
      for i := 0 to |pods|
        invariant forall j | 0 <= j < i :: Readable(pods[j])
        invariant found.Keys == Listed(pods[..i])
      {
        outcome, found := CollectPod(pods[i], found);
        if outcome != Synced {
          return;
        }
        assert pods[..i + 1][..i] == pods[..i];
      }
      outcome := Synced;
      assert pods[..|pods|] == pods;
    }

    // Builds the containers it can among these, none of which is in the table.
    method Build(ids: set<string>, buildable: set<string>)
      requires ids !! containers.Keys
      modifies this
      ensures containers.Keys == old(containers.Keys) + ids * buildable
      ensures forall id | id in old(containers) :: containers[id] == old(containers[id])
      ensures forall id | id in containers && id !in old(containers) ::
                fresh(containers[id]) && containers[id].id == id
    {
      var todo := ids;
      while todo != {}
        invariant todo <= ids
        invariant containers.Keys == old(containers.Keys) + (ids - todo) * buildable
        invariant forall id | id in old(containers) :: containers[id] == old(containers[id])
        invariant forall id | id in containers && id !in old(containers) ::
                    fresh(containers[id]) && containers[id].id == id
      {
        var id :| id in todo;
        todo := todo - {id};
        if id in buildable {
          var container := new Container(id);
          containers := containers[id := container];
        }
      }
    }

    // Containers still listed stay the objects they were; new ones are built
    // where possible; a failed call leaves the table alone.
    method KubeletSyncContainers(x: Sync) returns (outcome: Outcome)
      modifies this
      ensures outcome == Synced <==> Good(x)
      ensures outcome == ListFailed <==> x.list.None?
      ensures outcome == BadId || outcome == Panicked ==>
                x.list.Some? && exists i | 0 <= i < |x.list.value| :: Explains(outcome, x.list.value[i])
      ensures containers.Keys == KeysAfter(old(containers.Keys), x)
      ensures forall id | id in containers && id in old(containers) :: containers[id] == old(containers[id])
      ensures forall id | id in containers && id !in old(containers) ::
                fresh(containers[id]) && containers[id].id == id
    {
      if x.list.None? {
        return ListFailed;
      }
      hide Explains, Readable;
      var newContainers;
      outcome, newContainers := Collect(x.list.value);
      if outcome != Synced {
        return;
      }
      ghost var listed := Listed(x.list.value);
      var todo := containers.Keys;
      while todo != {}
        invariant todo <= old(containers.Keys)
        invariant containers.Keys == todo + (old(containers.Keys) - todo) * listed
        invariant newContainers.Keys == listed - (old(containers.Keys) - todo)
        invariant forall id | id in containers :: containers[id] == old(containers[id])
      {
        var k :| k in todo;
        todo := todo - {k};
        if k !in newContainers {
          containers := containers - {k};
        } else {
          newContainers := newContainers - {k};
        }
      }
      Build(newContainers.Keys, x.buildable);
      return Synced;
    }

    // Any number of calls: a container listed without a break is the same object
    // with the same life resources throughout.
    method SyncAll(xs: seq<Sync>)
      modifies this
      ensures containers.Keys == KeysAfterAll(old(containers.Keys), xs)
      ensures forall id | id in old(containers) && ListedFrom(xs, 0, id) ::
                id in containers && containers[id] == old(containers[id]) &&
                containers[id].lifeResources == old(containers[id].lifeResources)
    {
      for i := 0 to |xs|
        invariant containers.Keys == KeysAfterAll(old(containers.Keys), xs[..i])
        invariant forall id | id in old(containers) && ListedFrom(xs, 0, id) ::
                    id in containers && containers[id] == old(containers[id])
      {
        ghost var before := containers;
        var outcome := KubeletSyncContainers(xs[i]);
        assert xs[..i + 1][..i] == xs[..i];
      }
      assert xs[..|xs|] == xs;
    }
  }

  lemma IdsOfNone(pod: Pod)
    ensures IdsOf(pod, {}) == {}
  {
  }

  lemma IdsOfMore(pod: Pod, names: set<string>, name: string)
    requires IdOf(pod, name).Some?
    ensures IdsOf(pod, names + {name}) == IdsOf(pod, names) + {IdOf(pod, name).value}
  {
  }

  // --------------------------------------------------------------------------- runs

  function KeysAfterAll(keys: set<string>, xs: seq<Sync>): set<string> {
    if xs == [] then keys else KeysAfter(KeysAfterAll(keys, xs[..|xs| - 1]), xs[|xs| - 1])
  }

  // Every successful call from the i-th on lists the container.
  predicate ListedFrom(xs: seq<Sync>, i: nat, id: string) {
    forall j | i <= j < |xs| :: Good(xs[j]) ==> id in Listed(xs[j].list.value)
  }

  // The i-th call lists the container and can build it.
  predicate Built(xs: seq<Sync>, i: nat, id: string)
    requires i < |xs|
  {
    Good(xs[i]) && id in Listed(xs[i].list.value) && id in xs[i].buildable
  }

  predicate Reason(xs: seq<Sync>, id: string, i: nat)
    requires i < |xs|
  {
    Built(xs, i, id) && ListedFrom(xs, i, id)
  }

  // A container is in the table exactly when it was there at first or could be
  // built at some call, and every successful call since then has listed it.
  lemma {:induction false} PresentExactlyWhen(keys: set<string>, xs: seq<Sync>, id: string)
    ensures id in KeysAfterAll(keys, xs) <==>
              (id in keys && ListedFrom(xs, 0, id)) || exists i: nat | i < |xs| :: Reason(xs, id, i)
    decreases |xs|
  {
    if xs != [] {
      hide Good, Listed;
      var init, n := xs[..|xs| - 1], |xs| - 1;
      PresentExactlyWhen(keys, init, id);
      forall i: nat | i < n ensures Reason(xs, id, i) <==> Reason(init, id, i) && Holds(xs[n], id) {
        ListedSplit(xs, i, id);
        assert init[i] == xs[i];
      }
      ListedSplit(xs, 0, id);
      ListedSplit(xs, n, id);
      if exists i: nat | i < n :: Reason(init, id, i) && Holds(xs[n], id) {
        var i: nat :| i < n && Reason(init, id, i) && Holds(xs[n], id);
        assert Reason(xs, id, i);
      }
      if id in KeysAfterAll(keys, xs) && id !in KeysAfterAll(keys, init) {
        assert Reason(xs, id, n);
      }
    }
  }

  // A call that, if it succeeds, lists the container.
  predicate Holds(x: Sync, id: string) {
    Good(x) ==> id in Listed(x.list.value)
  }

  lemma ListedSplit(xs: seq<Sync>, i: nat, id: string)
    requires xs != [] && i < |xs|
    ensures ListedFrom(xs, i, id) <==> ListedFrom(xs[..|xs| - 1], i, id) && Holds(xs[|xs| - 1], id)
  {
    var init := xs[..|xs| - 1];
    assert forall j | 0 <= j < |init| :: init[j] == xs[j];
  }

  // After a successful call in which every listed container can be built, the
  // table is exactly the snapshot.
  lemma TracksSnapshot(keys: set<string>, x: Sync)
    requires Good(x) && Listed(x.list.value) <= x.buildable
    ensures KeysAfter(keys, x) == Listed(x.list.value)
  {
  }
}
