/**
 * The flamebearer format and its decoding, on values.
 *
 * A level is a flat array holding four numbers per bar: the start relative to
 * the end of the previous bar, the width, the self value and a name index.
 * `Scan` is the greedy pass over one level, `Build` the level-by-level
 * construction of the tree, `Encode` the writer the format defines.
 */
module FlameGraph {
  import opened Machine

  datatype Bar = Bar(start: Int64, value: Int64, self: Int64, level: nat, name: string) {
    function End(): Int64 {
      Add64(start, value)
    }

    // The bounds check that makes `child` a child of this bar.
    predicate Holds(child: Bar) {
      child.start >= start && child.End() <= End()
    }
  }

  datatype Tree = Node(bar: Bar, nodes: seq<Tree>)

  type Level = seq<Int64>

  // The bar written at the front of `values`, its start made absolute.
  function BarAt(values: Level, offset: Int64, level: nat, names: seq<string>): Bar
    requires |values| >= 4
  {
    Bar(Add64(values[0], offset), values[1], values[2], level,
        if 0 <= values[3] < |names| then names[values[3]] else "")
  }

  // ---------------------------------------------------------------- sequences

  function Flatten<T>(groups: seq<seq<T>>): seq<T> {
    if groups == [] then [] else groups[0] + Flatten(groups[1..])
  }

  function Roots(forest: seq<Tree>): (bars: seq<Bar>)
    ensures |bars| == |forest|
    ensures forall i | 0 <= i < |forest| :: bars[i] == forest[i].bar
  {
    seq(|forest|, i requires 0 <= i < |forest| => forest[i].bar)
  }

  function Kids(forest: seq<Tree>): seq<Tree> {
    if forest == [] then [] else forest[0].nodes + Kids(forest[1..])
  }

  // The child bars of each tree of the forest.
  function Groups(forest: seq<Tree>): (groups: seq<seq<Bar>>)
    ensures |groups| == |forest|
    ensures forall i | 0 <= i < |forest| :: groups[i] == Roots(forest[i].nodes)
  {
    seq(|forest|, i requires 0 <= i < |forest| => Roots(forest[i].nodes))
  }

  lemma RootsAppend(a: seq<Tree>, b: seq<Tree>)
    ensures Roots(a + b) == Roots(a) + Roots(b)
  {
  }

  lemma {:induction false} FlattenGroups(forest: seq<Tree>)
    ensures Flatten(Groups(forest)) == Roots(Kids(forest))
  {
    if forest != [] {
      FlattenGroups(forest[1..]);
      assert Groups(forest)[1..] == Groups(forest[1..]);
      RootsAppend(forest[0].nodes, Kids(forest[1..]));
    }
  }

  // ------------------------------------------------------------------ decoding

  // Exactly the indexing that the pass over one level performs stays in range.
  predicate ScanSafe(parents: seq<Bar>, values: Level, offset: Int64, names: seq<string>)
    decreases |parents| + |values|
  {
    parents == [] || values == [] ||
    (|values| >= 3 &&
     var start := Add64(values[0], offset);
     var end := Add64(start, values[1]);
     if start >= parents[0].start && end <= parents[0].End() then
       |values| >= 4 && 0 <= values[3] < |names| && ScanSafe(parents, values[4..], end, names)
     else
       ScanSafe(parents[1..], values, offset, names))
  }

  // One group of children per parent: a bar goes to the first parent, from the
  // current one on, that holds it; when no parent is left the rest is dropped.
  function Scan(parents: seq<Bar>, values: Level, offset: Int64, level: nat, names: seq<string>)
    : (groups: seq<seq<Bar>>)
    requires ScanSafe(parents, values, offset, names)
    ensures |groups| == |parents|
    decreases |parents| + |values|
  {
    if parents == [] then []
    else if values == [] then [[]] + Scan(parents[1..], [], offset, level, names)
    else
      var start := Add64(values[0], offset);
      var end := Add64(start, values[1]);
      if start >= parents[0].start && end <= parents[0].End() then
        var bar := BarAt(values, offset, level, names);
        var rest := Scan(parents, values[4..], end, level, names);
        [[bar] + rest[0]] + rest[1..]
      else
        [[]] + Scan(parents[1..], values, offset, level, names)
  }

  predicate BuildSafe(parents: seq<Bar>, levels: seq<Level>, level: nat, names: seq<string>)
    decreases |levels|
  {
    parents == [] || levels == [] ||
    (ScanSafe(parents, levels[0], 0, names) &&
     BuildSafe(Flatten(Scan(parents, levels[0], 0, level, names)), levels[1..], level + 1, names))
  }

  // Hands the trees of the next level back to the parents their bars went to.
  function Attach(parents: seq<Bar>, groups: seq<seq<Bar>>, kids: seq<Tree>): (forest: seq<Tree>)
    requires |groups| == |parents|
    requires |kids| == |Flatten(groups)|
    ensures |forest| == |parents|
    decreases |parents|
  {
    if parents == [] then []
    else
      var n := |groups[0]|;
      assert |Flatten(groups)| == n + |Flatten(groups[1..])|;
      [Node(parents[0], kids[..n])] + Attach(parents[1..], groups[1..], kids[n..])
  }

  // The subtrees grown under `parents` by the remaining levels.
  function Build(parents: seq<Bar>, levels: seq<Level>, level: nat, names: seq<string>): (forest: seq<Tree>)
    requires BuildSafe(parents, levels, level, names)
    ensures |forest| == |parents|
    decreases |levels|
  {
    if parents == [] || levels == [] then
      seq(|parents|, i requires 0 <= i < |parents| => Node(parents[i], []))
    else
      var groups := Scan(parents, levels[0], 0, level, names);
      Attach(parents, groups, Build(Flatten(groups), levels[1..], level + 1, names))
  }

  // The source names the root by the number in its start slot.
  predicate RootSafe(levels: seq<Level>, names: seq<string>) {
    levels != [] && |levels[0]| >= 3 && 0 <= levels[0][0] < |names|
  }

  function Root(levels: seq<Level>, names: seq<string>): Bar
    requires RootSafe(levels, names)
  {
    Bar(0, levels[0][1], levels[0][2], 0, names[levels[0][0]])
  }

  predicate DecodeSafe(levels: seq<Level>, names: seq<string>) {
    RootSafe(levels, names) && BuildSafe([Root(levels, names)], levels[1..], 1, names)
  }

  function Decode(levels: seq<Level>, names: seq<string>): Tree
    requires DecodeSafe(levels, names)
  {
    Build([Root(levels, names)], levels[1..], 1, names)[0]
  }

  // ------------------------------------------------------------------ encoding

  function NameIndex(index: map<string, Int64>, name: string): Int64 {
    if name in index then index[name] else -1
  }

  function EncodeLevel(bars: seq<Bar>, offset: Int64, index: map<string, Int64>): Level {
    if bars == [] then []
    else
      [Sub64(bars[0].start, offset), bars[0].value, bars[0].self, NameIndex(index, bars[0].name)]
      + EncodeLevel(bars[1..], bars[0].End(), index)
  }

  // The first n levels of the forest.
  function Encode(forest: seq<Tree>, n: nat, index: map<string, Int64>): (levels: seq<Level>)
    ensures |levels| == n
    decreases n
  {
    if n == 0 then []
    else [EncodeLevel(Roots(forest), 0, index)] + Encode(Kids(forest), n - 1, index)
  }

  // The forest has no more than n levels.
  predicate Complete(forest: seq<Tree>, n: nat)
    decreases n
  {
    if n == 0 then forest == [] else Complete(Kids(forest), n - 1)
  }

  // Within n levels, every bar records its depth and has a name in the table.
  predicate Labelled(forest: seq<Tree>, n: nat, level: nat, index: map<string, Int64>)
    decreases n
  {
    n == 0 ||
    (BarsLabelled(Roots(forest), level, index) && Labelled(Kids(forest), n - 1, level + 1, index))
  }

  predicate BarsLabelled(bars: seq<Bar>, level: nat, index: map<string, Int64>) {
    forall i | 0 <= i < |bars| :: bars[i].level == level && bars[i].name in index
  }

  predicate Resolves(index: map<string, Int64>, names: seq<string>) {
    forall name | name in index :: 0 <= index[name] < |names| && names[index[name]] == name
  }

  // ------------------------------------------ decode after encode, exactly when

  // Every bar lies inside its own parent, and no parent could have claimed the
  // next bar that belongs to a later one.
  predicate Canonical(parents: seq<Bar>, groups: seq<seq<Bar>>)
    requires |groups| == |parents|
    decreases |parents|
  {
    parents == [] ||
    ((forall i | 0 <= i < |groups[0]| :: parents[0].Holds(groups[0][i])) &&
     (var later := Flatten(groups[1..]); later != [] ==> !parents[0].Holds(later[0])) &&
     Canonical(parents[1..], groups[1..]))
  }

  predicate CanonicalForest(forest: seq<Tree>, n: nat)
    decreases n
  {
    n == 0 || (Canonical(Roots(forest), Groups(forest)) && CanonicalForest(Kids(forest), n - 1))
  }

  lemma EncodedHead(bars: seq<Bar>, offset: Int64, level: nat, index: map<string, Int64>, names: seq<string>)
    requires bars != [] && BarsLabelled(bars, level, index) && Resolves(index, names)
    ensures var values := EncodeLevel(bars, offset, index);
            |values| >= 4 && 0 <= values[3] < |names|
            && BarAt(values, offset, level, names) == bars[0]
            && values[4..] == EncodeLevel(bars[1..], bars[0].End(), index)
  {
    assert bars[0].level == level && bars[0].name in index;
  }

  // The pass on a written level whose first bar the current parent holds.
  lemma ScanTakes(parents: seq<Bar>, bars: seq<Bar>, offset: Int64, level: nat,
                  index: map<string, Int64>, names: seq<string>)
    requires parents != [] && bars != [] && parents[0].Holds(bars[0])
    requires BarsLabelled(bars, level, index) && Resolves(index, names)
    requires ScanSafe(parents, EncodeLevel(bars[1..], bars[0].End(), index), bars[0].End(), names)
    ensures ScanSafe(parents, EncodeLevel(bars, offset, index), offset, names)
    ensures var rest := Scan(parents, EncodeLevel(bars[1..], bars[0].End(), index), bars[0].End(), level, names);
            Scan(parents, EncodeLevel(bars, offset, index), offset, level, names) == [[bars[0]] + rest[0]] + rest[1..]
  {
    EncodedHead(bars, offset, level, index, names);
  }

  // The pass on a written level when the current parent does not hold the next bar.
  lemma ScanSkips(parents: seq<Bar>, bars: seq<Bar>, offset: Int64, level: nat,
                  index: map<string, Int64>, names: seq<string>)
    requires parents != [] && (bars != [] ==> !parents[0].Holds(bars[0]))
    requires BarsLabelled(bars, level, index) && Resolves(index, names)
    requires ScanSafe(parents[1..], EncodeLevel(bars, offset, index), offset, names)
    ensures ScanSafe(parents, EncodeLevel(bars, offset, index), offset, names)
    ensures Scan(parents, EncodeLevel(bars, offset, index), offset, level, names)
         == [[]] + Scan(parents[1..], EncodeLevel(bars, offset, index), offset, level, names)
  {
    if bars != [] {
      EncodedHead(bars, offset, level, index, names);
    }
  }

  // `groups` without its very first bar.
  function Behead<T>(groups: seq<seq<T>>): (rest: seq<seq<T>>)
    requires groups != [] && groups[0] != []
    ensures |rest| == |groups|
  {
    [groups[0][1..]] + groups[1..]
  }

  lemma BeheadFlatten<T>(groups: seq<seq<T>>)
    requires groups != [] && groups[0] != []
    ensures Flatten(groups) != [] && Flatten(groups)[0] == groups[0][0]
    ensures Flatten(Behead(groups)) == Flatten(groups)[1..]
    ensures groups == [[groups[0][0]] + Behead(groups)[0]] + Behead(groups)[1..]
  {
    var rest := Behead(groups);
    assert rest[1..] == groups[1..];
    assert groups[0] == [groups[0][0]] + rest[0];
    assert groups == [groups[0]] + groups[1..];
  }

  lemma CanonicalTail(parents: seq<Bar>, groups: seq<seq<Bar>>)
    requires |groups| == |parents| && Canonical(parents, groups)
    requires parents != [] && groups[0] != []
    ensures Canonical(parents, Behead(groups))
  {
    var rest := Behead(groups);
    assert rest[1..] == groups[1..];
    forall i | 0 <= i < |rest[0]| ensures parents[0].Holds(rest[0][i]) {
      assert rest[0][i] == groups[0][i + 1];
    }
  }

  // The pass recovers canonical groups from the written level ...
  lemma {:induction false} ScanRecovers(parents: seq<Bar>, groups: seq<seq<Bar>>, offset: Int64, level: nat,
                                        index: map<string, Int64>, names: seq<string>)
    requires |groups| == |parents| && Canonical(parents, groups)
    requires BarsLabelled(Flatten(groups), level, index) && Resolves(index, names)
    ensures var values := EncodeLevel(Flatten(groups), offset, index);
            ScanSafe(parents, values, offset, names) && Scan(parents, values, offset, level, names) == groups
    decreases |parents|, |Flatten(groups)|
  {
    if parents == [] {
      hide Canonical, EncodeLevel, Flatten;
    } else if groups[0] == [] {
      hide Scan, ScanSafe, EncodeLevel, BarsLabelled, Resolves;
      assert Flatten(groups) == Flatten(groups[1..]);
      assert groups == [[]] + groups[1..];
      hide Canonical, Flatten;
      ScanRecovers(parents[1..], groups[1..], offset, level, index, names);
      ScanSkips(parents, Flatten(groups), offset, level, index, names);
    } else {
      assert parents[0].Holds(groups[0][0]);
      hide Scan, ScanSafe, EncodeLevel, Canonical, Flatten, Behead, Resolves;
      var bars := Flatten(groups);
      BeheadFlatten(groups);
      CanonicalTail(parents, groups);
      ScanRecovers(parents, Behead(groups), bars[0].End(), level, index, names);
      ScanTakes(parents, bars, offset, level, index, names);
    }
  }

  // ... and whatever it produces, from any input, is canonical.
  lemma {:induction false} ScanIsCanonical(parents: seq<Bar>, values: Level, offset: Int64, level: nat,
                                           names: seq<string>)
    requires ScanSafe(parents, values, offset, names)
    ensures Canonical(parents, Scan(parents, values, offset, level, names))
    ensures var all := Flatten(Scan(parents, values, offset, level, names));
            all != [] ==> |values| >= 4 && all[0] == BarAt(values, offset, level, names)
    decreases |parents| + |values|
  {
    if parents == [] {
    } else if values == [] {
      ScanIsCanonical(parents[1..], [], offset, level, names);
    } else {
      var bar := if |values| >= 4 then BarAt(values, offset, level, names) else Bar(0, 0, 0, 0, "");
      var start := Add64(values[0], offset);
      var end := Add64(start, values[1]);
      var groups := Scan(parents, values, offset, level, names);
      if start >= parents[0].start && end <= parents[0].End() {
        ScanIsCanonical(parents, values[4..], end, level, names);
        var rest := Scan(parents, values[4..], end, level, names);
        assert groups[1..] == rest[1..];
        assert groups[0][1..] == rest[0];
        forall i | 0 <= i < |groups[0]| ensures parents[0].Holds(groups[0][i]) {
          if i > 0 { assert groups[0][i] == rest[0][i - 1]; }
        }
      } else {
        ScanIsCanonical(parents[1..], values, offset, level, names);
        assert groups[1..] == Scan(parents[1..], values, offset, level, names);
      }
    }
  }

  lemma {:induction false} NoKids(forest: seq<Tree>)
    requires Kids(forest) == []
    ensures forall i | 0 <= i < |forest| :: forest[i].nodes == []
  {
    if forest != [] {
      NoKids(forest[1..]);
      forall i | 0 <= i < |forest| ensures forest[i].nodes == [] {
        if i > 0 { assert forest[i] == forest[1..][i - 1]; }
      }
    }
  }

  lemma {:induction false} BuildRoots(parents: seq<Bar>, levels: seq<Level>, level: nat, names: seq<string>)
    requires BuildSafe(parents, levels, level, names)
    ensures Roots(Build(parents, levels, level, names)) == parents
  {
    if parents != [] && levels != [] {
      var groups := Scan(parents, levels[0], 0, level, names);
      AttachRoots(parents, groups, Build(Flatten(groups), levels[1..], level + 1, names));
    }
  }

  lemma {:induction false} AttachStep(parents: seq<Bar>, groups: seq<seq<Bar>>, kids: seq<Tree>)
    requires |groups| == |parents| && |kids| == |Flatten(groups)| && parents != []
    ensures var n := |groups[0]|;
            n <= |kids| && |kids[n..]| == |Flatten(groups[1..])| &&
            Attach(parents, groups, kids) ==
              [Node(parents[0], kids[..n])] + Attach(parents[1..], groups[1..], kids[n..])
  {
  }

  lemma {:induction false} ForestCons(t: Tree, rest: seq<Tree>)
    ensures Roots([t] + rest) == [t.bar] + Roots(rest)
    ensures Groups([t] + rest) == [Roots(t.nodes)] + Groups(rest)
    ensures Kids([t] + rest) == t.nodes + Kids(rest)
  {
    assert ([t] + rest)[1..] == rest;
  }

  lemma {:induction false} GroupsCons(groups: seq<seq<Bar>>, kids: seq<Tree>)
    requires groups != [] && Roots(kids) == Flatten(groups)
    ensures var n := |groups[0]|;
            n <= |kids| && Roots(kids[..n]) == groups[0] && Roots(kids[n..]) == Flatten(groups[1..])
  {
    var n := |groups[0]|;
    assert Flatten(groups) == groups[0] + Flatten(groups[1..]);
    assert Roots(kids[..n]) == Roots(kids)[..n];
    assert Roots(kids[n..]) == Roots(kids)[n..];
  }

  lemma {:induction false} AttachRoots(parents: seq<Bar>, groups: seq<seq<Bar>>, kids: seq<Tree>)
    requires |groups| == |parents| && |kids| == |Flatten(groups)|
    ensures Roots(Attach(parents, groups, kids)) == parents
    ensures Kids(Attach(parents, groups, kids)) == kids
    decreases |parents|
  {
    if parents != [] {
      hide Attach, Flatten, Kids, Roots, Groups;
      var n := |groups[0]|;
      AttachStep(parents, groups, kids);
      AttachRoots(parents[1..], groups[1..], kids[n..]);
      ForestCons(Node(parents[0], kids[..n]), Attach(parents[1..], groups[1..], kids[n..]));
      assert kids == kids[..n] + kids[n..];
      assert parents == [parents[0]] + parents[1..];
    }
  }

  lemma {:induction false} AttachKeepsGroups(parents: seq<Bar>, groups: seq<seq<Bar>>, kids: seq<Tree>)
    requires |groups| == |parents| && |kids| == |Flatten(groups)| && Roots(kids) == Flatten(groups)
    ensures Groups(Attach(parents, groups, kids)) == groups
    decreases |parents|
  {
    if parents != [] {
      hide Attach, Flatten, Kids, Roots, Groups;
      var n := |groups[0]|;
      AttachStep(parents, groups, kids);
      GroupsCons(groups, kids);
      AttachKeepsGroups(parents[1..], groups[1..], kids[n..]);
      ForestCons(Node(parents[0], kids[..n]), Attach(parents[1..], groups[1..], kids[n..]));
      assert groups == [groups[0]] + groups[1..];
    }
  }

  lemma {:induction false} AttachGroups(forest: seq<Tree>)
    ensures |Kids(forest)| == |Flatten(Groups(forest))|
    ensures Attach(Roots(forest), Groups(forest), Kids(forest)) == forest
  {
    FlattenGroups(forest);
    if forest != [] {
      AttachGroups(forest[1..]);
      var n := |forest[0].nodes|;
      assert Roots(forest)[1..] == Roots(forest[1..]);
      assert Groups(forest)[1..] == Groups(forest[1..]);
      assert Kids(forest)[..n] == forest[0].nodes && Kids(forest)[n..] == Kids(forest[1..]);
      assert forest == [Node(forest[0].bar, forest[0].nodes)] + forest[1..];
    }
  }

  lemma {:induction false} BuildLeaves(forest: seq<Tree>, level: nat, names: seq<string>)
    requires Kids(forest) == []
    ensures BuildSafe(Roots(forest), [], level, names) && Build(Roots(forest), [], level, names) == forest
  {
    NoKids(forest);
    assert forall i | 0 <= i < |forest| :: forest[i] == Node(forest[i].bar, []);
  }

  // The construction unfolded by one level.
  lemma {:induction false} BuildUnfold(parents: seq<Bar>, levels: seq<Level>, level: nat, names: seq<string>)
    requires levels != [] && ScanSafe(parents, levels[0], 0, names)
    requires BuildSafe(Flatten(Scan(parents, levels[0], 0, level, names)), levels[1..], level + 1, names)
    ensures BuildSafe(parents, levels, level, names)
    ensures var groups := Scan(parents, levels[0], 0, level, names);
            Build(parents, levels, level, names)
              == Attach(parents, groups, Build(Flatten(groups), levels[1..], level + 1, names))
  {
  }

  lemma {:induction false} SafeStep(parents: seq<Bar>, levels: seq<Level>, level: nat, names: seq<string>)
    requires levels != [] && BuildSafe(parents, levels, level, names)
    ensures ScanSafe(parents, levels[0], 0, names)
    ensures BuildSafe(Flatten(Scan(parents, levels[0], 0, level, names)), levels[1..], level + 1, names)
  {
  }

  // A canonical forest grows back from its own levels ...
  lemma {:induction false} BuildRecovers(forest: seq<Tree>, n: nat, level: nat,
                                         index: map<string, Int64>, names: seq<string>)
    requires Complete(Kids(forest), n) && Labelled(Kids(forest), n, level, index) && Resolves(index, names)
    requires CanonicalForest(forest, n)
    ensures var levels := Encode(Kids(forest), n, index);
            BuildSafe(Roots(forest), levels, level, names) && Build(Roots(forest), levels, level, names) == forest
    decreases n
  {
    hide Scan, ScanSafe, EncodeLevel, Attach, Canonical, Build, BuildSafe, Kids, Flatten, Roots, Groups, Resolves;
    var levels := Encode(Kids(forest), n, index);
    if n == 0 {
      BuildLeaves(forest, level, names);
    } else {
      FlattenGroups(forest);
      ScanRecovers(Roots(forest), Groups(forest), 0, level, index, names);
      BuildRecovers(Kids(forest), n - 1, level + 1, index, names);
      assert levels[1..] == Encode(Kids(Kids(forest)), n - 1, index);
      BuildUnfold(Roots(forest), levels, level, names);
      AttachGroups(forest);
    }
  }

  // ... and only a canonical one does.
  lemma {:induction false} BuildImpliesCanonical(forest: seq<Tree>, n: nat, level: nat,
                                                 index: map<string, Int64>, names: seq<string>)
    requires var levels := Encode(Kids(forest), n, index);
             BuildSafe(Roots(forest), levels, level, names) && Build(Roots(forest), levels, level, names) == forest
    ensures CanonicalForest(forest, n)
    decreases n
  {
    var levels := Encode(Kids(forest), n, index);
    if n == 0 {
    } else if forest == [] {
      BuildImpliesCanonical([], n - 1, level, index, names);
    } else {
      var parents := Roots(forest);
      var groups := Scan(parents, levels[0], 0, level, names);
      ScanIsCanonical(parents, levels[0], 0, level, names);
      BuildRoots(Flatten(groups), levels[1..], level + 1, names);
      AttachRoots(parents, groups, Build(Flatten(groups), levels[1..], level + 1, names));
      AttachKeepsGroups(parents, groups, Build(Flatten(groups), levels[1..], level + 1, names));
      assert levels[1..] == Encode(Kids(Kids(forest)), n - 1, index);
      BuildImpliesCanonical(Kids(forest), n - 1, level + 1, index, names);
    }
  }

  // Decoding inverts encoding for exactly the canonical trees whose root starts
  // at zero and carries the first name of the table.
  lemma DecodeInvertsEncode(t: Tree, n: nat, index: map<string, Int64>, names: seq<string>)
    requires Complete([t], n) && Labelled([t], n, 0, index) && Resolves(index, names)
    ensures var levels := Encode([t], n, index);
            (DecodeSafe(levels, names) && Decode(levels, names) == t)
            <==>
            (t.bar.start == 0 && t.bar.name == names[0] && CanonicalForest([t], n - 1))
  {
    hide Build, BuildSafe, CanonicalForest;
    var levels := Encode([t], n, index);
    assert Roots([t])[0] == t.bar;
    assert Kids([t]) == t.nodes + Kids([]) == t.nodes;
    assert levels[1..] == Encode(t.nodes, n - 1, index);
    EncodedHead([t.bar], 0, 0, index, names);
    assert Roots([t]) == [t.bar];
    if t.bar.start == 0 && t.bar.name == names[0] && CanonicalForest([t], n - 1) {
      BuildRecovers([t], n - 1, 1, index, names);
      assert Root(levels, names) == t.bar;
    }
    if DecodeSafe(levels, names) && Decode(levels, names) == t {
      BuildRoots([Root(levels, names)], levels[1..], 1, names);
      var built := Build([Root(levels, names)], levels[1..], 1, names);
      assert built == [t];
      assert Roots(built)[0] == t.bar;
      BuildImpliesCanonical([t], n - 1, 1, index, names);
    }
  }
}
