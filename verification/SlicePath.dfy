/**
 * The systemd form of a pod's cgroup path: one slice per level, each named by
 * the whole chain of parts above it.
 */
module SlicePath {
  // --------------------------------------------------------------------- strings

  function Split(s: string, c: char): (parts: seq<string>)
    ensures parts != []
  {
    if s == [] then [""]
    else
      var rest := Split(s[1..], c);
      if s[0] == c then [""] + rest else [[s[0]] + rest[0]] + rest[1..]
  }

  function Join(parts: seq<string>, c: char): string {
    if parts == [] then ""
    else if |parts| == 1 then parts[0]
    else parts[0] + [c] + Join(parts[1..], c)
  }

  predicate Free(s: string, c: char) {
    forall i | 0 <= i < |s| :: s[i] != c
  }

  predicate AllFree(parts: seq<string>, c: char) {
    forall i | 0 <= i < |parts| :: Free(parts[i], c)
  }

  function TrimSuffix(s: string, suffix: string): string {
    if |suffix| <= |s| && s[|s| - |suffix|..] == suffix then s[..|s| - |suffix|] else s
  }

  lemma TrimAppended(s: string, suffix: string)
    ensures TrimSuffix(s + suffix, suffix) == s
  {
    assert (s + suffix)[|s|..] == suffix && (s + suffix)[..|s|] == s;
  }

  lemma {:induction false} SplitFree(s: string, c: char, t: string)
    requires Free(s, c)
    ensures Split(s + [c] + t, c) == [s] + Split(t, c)
    ensures Split(s, c) == [s]
    decreases |s|
  {
    if s == [] {
      assert ([c] + t)[1..] == t;
      assert s + [c] + t == [c] + t;
    } else {
      SplitFree(s[1..], c, t);
      assert (s + [c] + t)[1..] == s[1..] + [c] + t;
      assert s == [s[0]] + s[1..];
    }
  }

  lemma {:induction false} SplitJoin(parts: seq<string>, c: char)
    requires parts != [] && AllFree(parts, c)
    ensures Split(Join(parts, c), c) == parts
    decreases |parts|
  {
    assert Free(parts[0], c);
    if |parts| == 1 {
      SplitFree(parts[0], c, "");
      assert parts == [parts[0]];
    } else {
      SplitFree(parts[0], c, Join(parts[1..], c));
      SplitJoin(parts[1..], c);
      assert parts == [parts[0]] + parts[1..];
    }
  }

  // ------------------------------------------------------------------- the printer

  const SUFFIX := ".slice"
  const ROOT := "kubepods"

  function EscapeSystemd(part: string): (r: string)
    ensures |r| == |part| && Free(r, '-')
    ensures Free(part, '/') ==> Free(r, '/')
  {
    seq(|part|, i requires 0 <= i < |part| => if part[i] == '-' then '_' else part[i])
  }

  function Escaped(parts: seq<string>): (r: seq<string>)
    ensures |r| == |parts| && AllFree(r, '-')
    ensures AllFree(parts, '/') ==> AllFree(r, '/')
  {
    seq(|parts|, i requires 0 <= i < |parts| => EscapeSystemd(parts[i]))
  }

  // The name of the k-th slice: the first k + 1 components chained.
  function SliceName(cs: seq<string>, k: nat): string
    requires k < |cs|
  {
    Join(cs[..k + 1], '-') + SUFFIX
  }

  // The slices of all levels, one after the other.
  function Path(cs: seq<string>, n: nat): string
    requires n <= |cs|
  {
    if n == 0 then "" else Path(cs, n - 1) + "/" + SliceName(cs, n - 1)
  }

  // Each component with the separator that follows it.
  function Chain(cs: seq<string>, n: nat): string
    requires n <= |cs|
  {
    if n == 0 then "" else Chain(cs, n - 1) + cs[n - 1] + "-"
  }

  lemma {:induction false} JoinMore(parts: seq<string>, last: string, c: char)
    requires parts != []
    ensures Join(parts + [last], c) == Join(parts, c) + [c] + last
    decreases |parts|
  {
    if |parts| == 1 {
      assert parts + [last] == [parts[0], last] && [parts[0], last][1..] == [last];
      assert Join([last], c) == last;
    } else {
      JoinMore(parts[1..], last, c);
      assert (parts + [last])[1..] == parts[1..] + [last];
    }
  }

  lemma {:induction false} ChainJoins(cs: seq<string>, n: nat)
    requires n < |cs|
    ensures Chain(cs, n) + cs[n] == Join(cs[..n + 1], '-')
    decreases n
  {
    assert cs[..n + 1] == cs[..n] + [cs[n]];
    if n > 0 {
      ChainJoins(cs, n - 1);
      JoinMore(cs[..n], cs[n], '-');
    }
  }

  // What one more component adds to the path and to the chain.
  lemma PathGrows(cs: seq<string>, k: nat, path: string, prefix: string)
    requires k <= |cs|
    ensures k == 0 ==> Path(cs, k) == "" == Chain(cs, k)
    ensures k < |cs| && path == Path(cs, k) && prefix == Chain(cs, k) ==>
              path + ("/" + prefix + cs[k] + SUFFIX) == Path(cs, k + 1) && prefix + (cs[k] + "-") == Chain(cs, k + 1)
  {
    if k < |cs| && path == Path(cs, k) && prefix == Chain(cs, k) {
      ChainJoins(cs, k);
      assert "/" + prefix + cs[k] + SUFFIX == "/" + SliceName(cs, k);
      assert path + ("/" + SliceName(cs, k)) == Path(cs, k) + "/" + SliceName(cs, k);
    }
  }

  method ExpandSystemdSlice(slice: string) returns (path: string)
    ensures var cs := Split(TrimSuffix(slice, SUFFIX), '-'); path == Path(cs, |cs|)
  {
    hide Split, TrimSuffix, Join, Path, Chain;
    var sliceName := TrimSuffix(slice, SUFFIX);
    var components := Split(sliceName, '-');
    var prefix := "";
    path := "";
    PathGrows(components, 0, "", "");
    for k := 0 to |components|
      invariant path == Path(components, k) && prefix == Chain(components, k)
    {
      PathGrows(components, k, path, prefix);
      path := path + ("/" + prefix + components[k] + SUFFIX);
      prefix := prefix + (components[k] + "-");
    }
  }

  // The printed path of a list of parts is the path of their escaped forms.
  method ToSystemd(paths: seq<string>) returns (path: string)
    ensures paths != [] ==> path == Path(Escaped(paths), |paths|)
    ensures paths == [] ==> path == "/.slice"
  {
    var newparts := [];
    for i := 0 to |paths|
      invariant newparts == Escaped(paths)[..i]
    {
      newparts := newparts + [EscapeSystemd(paths[i])];
    }
    assert newparts == Escaped(paths);
    path := ExpandSystemdSlice(Join(newparts, '-') + SUFFIX);
    TrimAppended(Join(newparts, '-'), SUFFIX);
    if paths != [] {
      SplitJoin(newparts, '-');
    } else {
      EmptyPath();
    }
  }

  lemma EmptyPath()
    ensures Split("", '-') == [""] && Path([""], 1) == "/.slice"
  {
    assert [""][..1] == [""];
    assert Path([""], 1) == "" + "/" + (Join([""], '-') + SUFFIX);
  }

  // ------------------------------------------------------------------- reading back

  // The slice names a path is made of.
  function Names(path: string): seq<string> {
    Split(path, '/')
  }

  // The components chained in the last slice name.
  function ParsePath(path: string): seq<string> {
    var names := Names(path);
    Split(TrimSuffix(names[|names| - 1], SUFFIX), '-')
  }

  lemma {:induction false} SplitLast(s: string, c: char, t: string)
    requires Free(t, c)
    ensures Split(s + [c] + t, c) == Split(s, c) + [t]
    decreases |s|
  {
    if s == [] {
      SplitFree("", c, t);
      SplitFree(t, c, "");
      assert s + [c] + t == "" + [c] + t;
    } else {
      SplitLast(s[1..], c, t);
      assert (s + [c] + t)[1..] == s[1..] + [c] + t;
    }
  }

  lemma {:induction false} JoinFree(parts: seq<string>, c: char, d: char)
    requires AllFree(parts, d) && c != d
    ensures Free(Join(parts, c), d)
    decreases |parts|
  {
    if parts != [] {
      assert Free(parts[0], d);
      if |parts| > 1 { JoinFree(parts[1..], c, d); }
    }
  }

  // One name per component, in order, each the chain of the components so far.
  lemma {:induction false} PathNames(cs: seq<string>, n: nat)
    requires n <= |cs| && AllFree(cs, '/')
    ensures var names := Names(Path(cs, n));
            |names| == n + 1 && names[0] == "" && forall k | 0 <= k < n :: names[k + 1] == SliceName(cs, k)
    decreases n
  {
    if n > 0 {
      PathNames(cs, n - 1);
      JoinFree(cs[..n], '-', '/');
      assert Free(SliceName(cs, n - 1), '/');
      SplitLast(Path(cs, n - 1), '/', SliceName(cs, n - 1));
    }
  }

  // The last name splits back into all the components.
  lemma PathParses(cs: seq<string>)
    requires cs != [] && AllFree(cs, '/') && AllFree(cs, '-')
    ensures ParsePath(Path(cs, |cs|)) == cs
  {
    hide Split, Path, Join, TrimSuffix, AllFree;
    PathNames(cs, |cs|);
    assert cs[..|cs|] == cs;
    assert Names(Path(cs, |cs|))[|cs|] == SliceName(cs, |cs| - 1);
    TrimAppended(Join(cs, '-'), SUFFIX);
    SplitJoin(cs, '-');
  }

  // Two lists of parts print alike exactly when their escaped forms agree.
  lemma PathsDetermineParts(p: seq<string>, q: seq<string>)
    requires p != [] && q != [] && AllFree(p, '/') && AllFree(q, '/')
    ensures Path(Escaped(p), |p|) == Path(Escaped(q), |q|) <==> Escaped(p) == Escaped(q)
  {
    PathParses(Escaped(p));
    PathParses(Escaped(q));
  }

  // --------------------------------------------------------------------------- pods

  datatype Qos = Guaranteed | Burstable | BestEffort

  function QosPart(qos: Qos): seq<string> {
    match qos
    case Guaranteed => []
    case Burstable => ["burstable"]
    case BestEffort => ["besteffort"]
  }

  // The parts of a pod's path; only the cgroupfs driver adds the container.
  function ContainerCgroupPath(containerId: string, qos: Qos, uid: string, systemd: bool): seq<string> {
    [ROOT] + QosPart(qos) + ["pod" + uid] + if systemd then [] else [containerId]
  }

  lemma EscapeInjective(a: string, b: string)
    requires Free(a, '_') && Free(b, '_')
    ensures EscapeSystemd(a) == EscapeSystemd(b) <==> a == b
  {
    if EscapeSystemd(a) == EscapeSystemd(b) {
      forall i | 0 <= i < |a| ensures a[i] == b[i] {
        assert EscapeSystemd(a)[i] == EscapeSystemd(b)[i];
      }
    }
  }

  lemma EscapePrefixed(a: string, b: string)
    ensures EscapeSystemd("pod" + a) == EscapeSystemd("pod" + b) <==> EscapeSystemd(a) == EscapeSystemd(b)
  {
    assert EscapeSystemd("pod" + a) == "pod" + EscapeSystemd(a);
    assert EscapeSystemd("pod" + b) == "pod" + EscapeSystemd(b);
    assert ("pod" + EscapeSystemd(a))[3..] == EscapeSystemd(a);
    assert ("pod" + EscapeSystemd(b))[3..] == EscapeSystemd(b);
  }

  function PodSlices(qos: Qos, uid: string): string {
    var parts := ContainerCgroupPath("", qos, uid, true);
    Path(Escaped(parts), |parts|)
  }

  // Pods share a systemd path exactly when they agree on the class and on the
  // escaped UID ...
  lemma PodPathsDiffer(qos: Qos, uid: string, qos': Qos, uid': string)
    requires Free(uid, '/') && Free(uid', '/')
    ensures PodSlices(qos, uid) == PodSlices(qos', uid') <==> qos == qos' && EscapeSystemd(uid) == EscapeSystemd(uid')
  {
    hide Path, Escaped, EscapeSystemd, AllFree, Free;
    var p, q := ContainerCgroupPath("", qos, uid, true), ContainerCgroupPath("", qos', uid', true);
    PartsFree(qos, uid);
    PartsFree(qos', uid');
    PathsDetermineParts(p, q);
    EscapePrefixed(uid, uid');
    PartsDetermine(qos, uid, qos', uid');
  }

  lemma PartsFree(qos: Qos, uid: string)
    requires Free(uid, '/')
    ensures AllFree(ContainerCgroupPath("", qos, uid, true), '/')
  {
    assert Free("pod" + uid, '/');
  }

  lemma PartsDetermine(qos: Qos, uid: string, qos': Qos, uid': string)
    ensures Escaped(ContainerCgroupPath("", qos, uid, true)) == Escaped(ContainerCgroupPath("", qos', uid', true)) <==>
              qos == qos' && EscapeSystemd("pod" + uid) == EscapeSystemd("pod" + uid')
  {
    var p, q := ContainerCgroupPath("", qos, uid, true), ContainerCgroupPath("", qos', uid', true);
    var a, b := Escaped(p), Escaped(q);
    assert a[|a| - 1] == EscapeSystemd("pod" + uid) && b[|b| - 1] == EscapeSystemd("pod" + uid');
    assert EscapeSystemd("burstable")[1] == 'u' && EscapeSystemd("besteffort")[1] == 'e';
    assert |p| == 3 ==> a[1] == EscapeSystemd(p[1]);
    assert |q| == 3 ==> b[1] == EscapeSystemd(q[1]);
    if qos == qos' && EscapeSystemd("pod" + uid) == EscapeSystemd("pod" + uid') {
      assert a == b;
    }
  }

  // ... so UIDs without underscores always keep pods apart.
  lemma UidsWithoutUnderscore(qos: Qos, uid: string, qos': Qos, uid': string)
    requires Free(uid, '/') && Free(uid', '/') && Free(uid, '_') && Free(uid', '_')
    ensures PodSlices(qos, uid) == PodSlices(qos', uid') <==> qos == qos' && uid == uid'
  {
    PodPathsDiffer(qos, uid, qos', uid');
    EscapeInjective(uid, uid');
  }

  // With underscores they need not be: these two UIDs print alike.
  lemma UnderscoreCollides()
    ensures EscapeSystemd("a-b") == "a_b" == EscapeSystemd("a_b")
    ensures PodSlices(Burstable, "a-b") == PodSlices(Burstable, "a_b")
  {
    assert EscapeSystemd("a-b") == EscapeSystemd("a_b");
    PodPathsDiffer(Burstable, "a-b", Burstable, "a_b");
  }

  // A slice inside a slice, written out ...
  function Nested(a: string, b: string): string {
    "/" + (a + ".slice") + "/" + (a + "-" + b + ".slice")
  }

  // ... and one more inside that.
  function NestedTwice(a: string, b: string, c: string): string {
    Nested(a, b) + "/" + (a + "-" + b + "-" + c + ".slice")
  }

  // The other driver's parts end with the container.
  lemma CgroupfsParts(containerId: string, qos: Qos, uid: string)
    ensures ContainerCgroupPath(containerId, qos, uid, false)
         == ContainerCgroupPath("", qos, uid, true) + [containerId]
  {
  }

  // The path of a pod of each class.
  lemma PodPaths(uid: string)
    ensures var pod := "pod" + EscapeSystemd(uid);
            PodSlices(Guaranteed, uid) == Nested("kubepods", pod) &&
            PodSlices(Burstable, uid) == NestedTwice("kubepods", "burstable", pod) &&
            PodSlices(BestEffort, uid) == NestedTwice("kubepods", "besteffort", pod)
  {
    var pod := "pod" + EscapeSystemd(uid);
    EscapedParts(uid);
    hide EscapeSystemd, Escaped, Nested, NestedTwice, Path, ContainerCgroupPath;
    TwoSlices("kubepods", pod);
    ThreeSlices("kubepods", "burstable", pod);
    ThreeSlices("kubepods", "besteffort", pod);
  }

  lemma EscapedParts(uid: string)
    ensures var pod := "pod" + EscapeSystemd(uid);
            Escaped(ContainerCgroupPath("", Guaranteed, uid, true)) == ["kubepods", pod] &&
            Escaped(ContainerCgroupPath("", Burstable, uid, true)) == ["kubepods", "burstable", pod] &&
            Escaped(ContainerCgroupPath("", BestEffort, uid, true)) == ["kubepods", "besteffort", pod]
    ensures |ContainerCgroupPath("", Guaranteed, uid, true)| == 2
    ensures |ContainerCgroupPath("", Burstable, uid, true)| == 3 == |ContainerCgroupPath("", BestEffort, uid, true)|
  {
    assert EscapeSystemd("pod" + uid) == "pod" + EscapeSystemd(uid);
    Unescaped("kubepods");
    Unescaped("burstable");
    Unescaped("besteffort");
    hide EscapeSystemd;
  }

  lemma Unescaped(part: string)
    requires Free(part, '-')
    ensures EscapeSystemd(part) == part
  {
  }

  lemma PathNext(cs: seq<string>, n: nat)
    requires n < |cs|
    ensures Path(cs, n + 1) == Path(cs, n) + "/" + (Join(cs[..n + 1], '-') + ".slice")
    ensures Path(cs, 0) == ""
  {
  }

  lemma TwoSlices(a: string, b: string)
    ensures Path([a, b], 2) == Nested(a, b)
  {
    JoinTwo(a, b);
    hide Join, Path;
    var cs := [a, b];
    assert cs[..1] == [a] && cs[..2] == cs;
    PathNext(cs, 0);
    PathNext(cs, 1);
    assert "" + "/" + (a + ".slice") == "/" + (a + ".slice");
  }

  lemma ThreeSlices(a: string, b: string, c: string)
    ensures Path([a, b, c], 3) == NestedTwice(a, b, c)
  {
    TwoSlices(a, b);
    JoinThree(a, b, c);
    hide Join, Path, Nested;
    var cs := [a, b, c];
    assert [a, b] + [c] == cs && cs[..3] == cs;
    PathPrefix([a, b], c, 2);
    PathNext(cs, 2);
  }

  lemma JoinThree(a: string, b: string, c: string)
    ensures Join([a, b, c], '-') == a + "-" + b + "-" + c
  {
    JoinTwo(a, b);
    JoinMore([a, b], c, '-');
    hide Join;
    assert [a, b] + [c] == [a, b, c];
  }

  lemma {:induction false} PathPrefix(cs: seq<string>, last: string, n: nat)
    requires n <= |cs|
    ensures Path(cs + [last], n) == Path(cs, n)
  {
    if n > 0 {
      PathPrefix(cs, last, n - 1);
      assert (cs + [last])[..n] == cs[..n];
    }
  }

  lemma JoinTwo(a: string, b: string)
    ensures Join([a], '-') == a && Join([a, b], '-') == a + "-" + b
  {
    assert [a, b][1..] == [b];
  }
}
