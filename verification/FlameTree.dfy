/**
 * The decoder as the source runs it: tree nodes on the heap, gaining children
 * by append while the levels are scanned.
 */
module FlameTree {
  import opened Machine
  import opened FlameGraph

  class ProfileTree {
    const start: Int64
    const value: Int64
    const self: Int64
    const level: nat
    const name: string
    var nodes: seq<ProfileTree>

    constructor (start: Int64, value: Int64, self: Int64, level: nat, name: string)
      ensures AsBar() == Bar(start, value, self, level, name) && nodes == []
    {
      this.start, this.value, this.self, this.level, this.name := start, value, self, level, name;
      nodes := [];
    }

    function AsBar(): Bar {
      Bar(start, value, self, level, name)
    }
  }

  // The heap node `n` is the root of the tree `t`, all of it inside `repr`.
  ghost predicate Represents(n: ProfileTree, t: Tree, repr: set<ProfileTree>)
    reads repr
    decreases t
  {
    n in repr && n.AsBar() == t.bar && |n.nodes| == |t.nodes| &&
    forall i | 0 <= i < |t.nodes| :: Represents(n.nodes[i], t.nodes[i], repr)
  }

  function Bars(ns: seq<ProfileTree>): (bars: seq<Bar>)
    ensures |bars| == |ns|
    ensures forall i | 0 <= i < |ns| :: bars[i] == ns[i].AsBar()
  {
    seq(|ns|, i requires 0 <= i < |ns| => ns[i].AsBar())
  }

  ghost predicate Distinct(ns: seq<ProfileTree>) {
    forall i, j | 0 <= i < j < |ns| :: ns[i] != ns[j]
  }

  // Each parent's children, and how their bars come out of the level.
  ghost predicate Linked(parents: seq<ProfileTree>, kids: seq<seq<ProfileTree>>)
    reads parents
  {
    |kids| == |parents| && forall i | 0 <= i < |parents| :: parents[i].nodes == kids[i]
  }

  predicate Grouped(kids: seq<seq<ProfileTree>>, groups: seq<seq<Bar>>) {
    |kids| == |groups| && forall i | 0 <= i < |kids| :: Bars(kids[i]) == groups[i]
  }

  lemma {:induction false} FlattenAppend<T>(kids: seq<seq<T>>, at: nat, item: T)
    requires at < |kids| && forall i | at < i < |kids| :: kids[i] == []
    ensures Flatten(kids[at := kids[at] + [item]]) == Flatten(kids) + [item]
    decreases |kids|
  {
    var more := kids[at := kids[at] + [item]];
    if at == 0 {
      assert more[1..] == kids[1..];
      FlattenNothing(kids[1..]);
    } else {
      assert more[1..] == kids[1..][at - 1 := kids[at] + [item]];
      FlattenAppend(kids[1..], at - 1, item);
    }
  }

  lemma {:induction false} FlattenNothing<T>(kids: seq<seq<T>>)
    requires forall i | 0 <= i < |kids| :: kids[i] == []
    ensures Flatten(kids) == []
  {
    if kids != [] { FlattenNothing(kids[1..]); }
  }

  // What the pass still has to attach, from parent `at` and position `item` on,
  // completes what it has attached so far to the full result.
  predicate Remains(kids: seq<seq<ProfileTree>>, at: nat, parents: seq<Bar>, values: Level, offset: Int64,
                    level: nat, names: seq<string>, full: seq<seq<Bar>>)
  {
    at < |parents| == |kids| == |full| &&
    (forall i | at < i < |kids| :: kids[i] == []) &&
    ScanSafe(parents[at..], values, offset, names) &&
    var rest := Scan(parents[at..], values, offset, level, names);
    (forall i | 0 <= i < at :: Bars(kids[i]) == full[i]) &&
    full[at] == Bars(kids[at]) + rest[0] &&
    forall i | at < i < |full| :: full[i] == rest[i - at]
  }

  lemma RemainsStart(kids: seq<seq<ProfileTree>>, parents: seq<Bar>, values: Level,
                     level: nat, names: seq<string>, full: seq<seq<Bar>>)
    requires parents != [] && kids == seq(|parents|, _ => [])
    requires ScanSafe(parents, values, 0, names) && full == Scan(parents, values, 0, level, names)
    ensures Flatten(kids) == [] && Remains(kids, 0, parents, values, 0, level, names, full)
  {
    FlattenNothing(kids);
    assert parents[0..] == parents;
    assert Bars(kids[0]) == [];
  }

  lemma RemainsTake(kids: seq<seq<ProfileTree>>, at: nat, parents: seq<Bar>, values: Level, offset: Int64,
                    level: nat, names: seq<string>, full: seq<seq<Bar>>, item: ProfileTree)
    requires Remains(kids, at, parents, values, offset, level, names, full)
    requires |values| >= 4 && item.AsBar() == BarAt(values, offset, level, names) && parents[at].Holds(item.AsBar())
    ensures Remains(kids[at := kids[at] + [item]], at, parents, values[4..], item.AsBar().End(), level, names, full)
  {
    assert parents[at..][0] == parents[at];
    var more := kids[at := kids[at] + [item]];
    assert Bars(more[at]) == Bars(kids[at]) + [item.AsBar()];
  }

  lemma ParentSkips(parents: seq<Bar>, values: Level, offset: Int64, level: nat, names: seq<string>)
    requires ScanSafe(parents, values, offset, names) && parents != [] && |values| >= 3
    requires var start := Add64(values[0], offset);
             !(start >= parents[0].start && Add64(start, values[1]) <= parents[0].End())
    ensures ScanSafe(parents[1..], values, offset, names)
    ensures Scan(parents, values, offset, level, names) == [[]] + Scan(parents[1..], values, offset, level, names)
  {
  }

  lemma RemainsSkip(kids: seq<seq<ProfileTree>>, at: nat, parents: seq<Bar>, values: Level, offset: Int64,
                    level: nat, names: seq<string>, full: seq<seq<Bar>>)
    requires Remains(kids, at, parents, values, offset, level, names, full)
    requires |values| >= 3
    requires var start := Add64(values[0], offset);
             !(start >= parents[at].start && Add64(start, values[1]) <= parents[at].End())
    ensures at + 1 == |parents| ==> Grouped(kids, full)
    ensures at + 1 < |parents| ==> Remains(kids, at + 1, parents, values, offset, level, names, full)
  {
    hide Scan, ScanSafe, Add64;
    var here := parents[at..];
    assert here[0] == parents[at] && here[1..] == parents[at + 1..];
    var rest := Scan(here, values, offset, level, names);
    ParentSkips(here, values, offset, level, names);
    assert full[at] == Bars(kids[at]);
    if at + 1 < |parents| {
      var later := Scan(here[1..], values, offset, level, names);
      assert Bars(kids[at + 1]) == [];
      assert full[at + 1] == rest[1] == later[0];
    }
  }

  lemma RemainsEnd(kids: seq<seq<ProfileTree>>, at: nat, parents: seq<Bar>, offset: Int64,
                   level: nat, names: seq<string>, full: seq<seq<Bar>>)
    requires Remains(kids, at, parents, [], offset, level, names, full)
    ensures Grouped(kids, full)
  {
    ScanNothing(parents[at..], offset, level, names);
    forall i | 0 <= i < |kids| ensures Bars(kids[i]) == full[i] {
      if i > at { assert Bars(kids[i]) == []; }
    }
  }

  lemma {:induction false} ScanNothing(parents: seq<Bar>, offset: Int64, level: nat, names: seq<string>)
    ensures forall i | 0 <= i < |parents| :: Scan(parents, [], offset, level, names)[i] == []
  {
    if parents != [] { ScanNothing(parents[1..], offset, level, names); }
  }

  // The numbers of the next bar are there to be read.
  lemma RemainsReadable(kids: seq<seq<ProfileTree>>, at: nat, parents: seq<Bar>, values: Level, offset: Int64,
                        level: nat, names: seq<string>, full: seq<seq<Bar>>)
    requires Remains(kids, at, parents, values, offset, level, names, full) && values != []
    ensures at < |kids| && forall i | at < i < |kids| :: kids[i] == []
    ensures |values| >= 3
    ensures var start := Add64(values[0], offset);
            start >= parents[at].start && Add64(start, values[1]) <= parents[at].End() ==>
              |values| >= 4 && 0 <= values[3] < |names|
  {
    assert parents[at..][0] == parents[at];
  }

  // Nodes that can serve as the parents of a level: distinct and childless.
  ghost predicate Frontier(ns: seq<ProfileTree>)
    reads ns
  {
    Distinct(ns) && forall i | 0 <= i < |ns| :: ns[i].nodes == []
  }

  lemma FrontierStart(parents: seq<ProfileTree>, kids: seq<seq<ProfileTree>>)
    requires Frontier(parents) && kids == seq(|parents|, _ => [])
    ensures Linked(parents, kids) && Distinct(parents) && Frontier([])
  {
  }

  // Adds the item to its parent and to the parents of the next level.
  method Adopt(parents: seq<ProfileTree>, ghost at: nat, currentParent: ProfileTree, treeItem: ProfileTree,
               nextParents: seq<ProfileTree>, ghost kids: seq<seq<ProfileTree>>)
    returns (next: seq<ProfileTree>)
    requires Distinct(parents) && at < |parents| && currentParent == parents[at] && Linked(parents, kids)
    requires Frontier(nextParents) && treeItem !in nextParents && treeItem.nodes == []
    requires currentParent !in nextParents && currentParent != treeItem
    modifies currentParent
    ensures Linked(parents, kids[at := kids[at] + [treeItem]])
    ensures next == nextParents + [treeItem] && Frontier(next)
  {
    currentParent.nodes := currentParent.nodes + [treeItem];
    next := nextParents + [treeItem];
  }

  // The pass over the bars of one level: children are appended to `parents`,
  // and become the parents of the next level.
  method FillLevel(parents: seq<ProfileTree>, values: Level, currentLevel: nat, names: seq<string>)
    returns (nextParents: seq<ProfileTree>, ghost kids: seq<seq<ProfileTree>>)
    requires parents != [] && Frontier(parents)
    requires ScanSafe(Bars(parents), values, 0, names)
    modifies parents
    ensures fresh(nextParents) && Frontier(nextParents)
    ensures forall n | n in nextParents :: n.level == currentLevel
    ensures |kids| == |parents| && Linked(parents, kids) && Flatten(kids) == nextParents
    ensures Grouped(kids, Scan(Bars(parents), values, 0, currentLevel, names))
  {
    hide Remains, Scan, ScanSafe, Flatten, Grouped, Linked, Frontier, Distinct, Add64;
    nextParents := [];
    var currentParent := parents[0];
    var parentsStack := parents[1..];
    var itemIndex := 0;
    var offset: Int64 := 0;
    ghost var bars := Bars(parents);
    ghost var full := Scan(bars, values, 0, currentLevel, names);
    ghost var at := 0;
    kids := seq(|parents|, _ => []);
    RemainsStart(kids, bars, values, currentLevel, names, full);
    assert values[0..] == values;
    FrontierStart(parents, kids);
    while itemIndex < |values|
      invariant 0 <= itemIndex <= |values|
      invariant at < |parents| && currentParent == parents[at] && parentsStack == parents[at + 1..]
      invariant |kids| == |parents| && Linked(parents, kids) && Flatten(kids) == nextParents
      invariant fresh(nextParents) && Frontier(nextParents)
      invariant forall n | n in nextParents :: n.level == currentLevel
      invariant Remains(kids, at, bars, values[itemIndex..], offset, currentLevel, names, full)
      decreases |values| - itemIndex + |parentsStack|
    {
      ghost var rest := values[itemIndex..];
      RemainsReadable(kids, at, bars, rest, offset, currentLevel, names, full);
      var itemStart := Add64(values[itemIndex], offset);
      var itemValue := values[itemIndex + 1];
      var selfValue := values[itemIndex + 2];
      var itemEnd := Add64(itemStart, itemValue);
      var parentEnd := Add64(currentParent.start, currentParent.value);
      if itemStart >= currentParent.start && itemEnd <= parentEnd {
        var treeItem := new ProfileTree(itemStart, itemValue, selfValue, currentLevel, names[values[itemIndex + 3]]);
        RemainsTake(kids, at, bars, rest, offset, currentLevel, names, full, treeItem);
        FlattenAppend(kids, at, treeItem);
        assert rest[4..] == values[itemIndex + 4..];
        nextParents := Adopt(parents, at, currentParent, treeItem, nextParents, kids);
        kids := kids[at := kids[at] + [treeItem]];
        itemIndex := itemIndex + 4;
        offset := itemEnd;
      } else {
        RemainsSkip(kids, at, bars, rest, offset, currentLevel, names, full);
        if |parentsStack| == 0 {
          break;
        }
        currentParent := parentsStack[0];
        parentsStack := parentsStack[1..];
        at := at + 1;
      }
    }
    if itemIndex >= |values| {
      assert values[itemIndex..] == [];
      RemainsEnd(kids, at, bars, offset, currentLevel, names, full);
    }
  }

  // ------------------------------------------------------------- whole decoding

  // Layer k + 1 holds the children of layer k, placed as the pass over its
  // level places them.  No later append changes any of this.
  ghost predicate Placed(layers: seq<seq<ProfileTree>>, links: seq<seq<seq<ProfileTree>>>, levels: seq<Level>,
                         names: seq<string>, repr: set<ProfileTree>)
  {
    |layers| == |links| + 1 <= |levels| &&
    (forall k | 0 <= k < |layers| :: forall n | n in layers[k] :: n in repr && n.level == k) &&
    forall k | 0 <= k < |links| ::
      |links[k]| == |layers[k]| && Flatten(links[k]) == layers[k + 1] &&
      ScanSafe(Bars(layers[k]), levels[k + 1], 0, names) &&
      Grouped(links[k], Scan(Bars(layers[k]), levels[k + 1], 0, k + 1, names))
  }

  // `links[k][i]` are the children of the i-th node of layer k.
  ghost predicate AllLinked(layers: seq<seq<ProfileTree>>, links: seq<seq<seq<ProfileTree>>>, repr: set<ProfileTree>)
    requires |links| <= |layers|
    requires forall k | 0 <= k < |layers| :: forall n | n in layers[k] :: n in repr
    reads repr
  {
    forall k | 0 <= k < |links| :: Linked(layers[k], links[k])
  }

  lemma PlacedNext(layers: seq<seq<ProfileTree>>, links: seq<seq<seq<ProfileTree>>>, levels: seq<Level>,
                   names: seq<string>, repr: set<ProfileTree>, next: seq<ProfileTree>, kids: seq<seq<ProfileTree>>)
    requires Placed(layers, links, levels, names, repr) && |layers| < |levels|
    requires forall n | n in next :: n.level == |layers|
    requires |kids| == |layers[|links|]| && Flatten(kids) == next
    requires ScanSafe(Bars(layers[|links|]), levels[|layers|], 0, names)
    requires Grouped(kids, Scan(Bars(layers[|links|]), levels[|layers|], 0, |layers|, names))
    ensures Placed(layers + [next], links + [kids], levels, names, repr + set n | n in next)
  {
    hide Scan, ScanSafe, Flatten, Grouped;
  }

  lemma {:induction false} FlattenBars(kids: seq<seq<ProfileTree>>, groups: seq<seq<Bar>>)
    requires Grouped(kids, groups)
    ensures Flatten(groups) == Bars(Flatten(kids))
  {
    if kids != [] {
      FlattenBars(kids[1..], groups[1..]);
    }
  }

  lemma {:induction false} AttachRepresents(ns: seq<ProfileTree>, kids: seq<seq<ProfileTree>>, groups: seq<seq<Bar>>,
                                            trees: seq<Tree>, repr: set<ProfileTree>)
    requires Linked(ns, kids) && Grouped(kids, groups) && |trees| == |Flatten(kids)| == |Flatten(groups)|
    requires forall i | 0 <= i < |ns| :: ns[i] in repr
    requires forall i | 0 <= i < |trees| :: Represents(Flatten(kids)[i], trees[i], repr)
    ensures var forest := Attach(Bars(ns), groups, trees);
            forall i | 0 <= i < |ns| :: Represents(ns[i], forest[i], repr)
  {
    if ns != [] {
      var n := |groups[0]|;
      var bars := Bars(ns);
      FlattenBars(kids, groups);
      FlattenBars(kids[1..], groups[1..]);
      assert bars[1..] == Bars(ns[1..]);
      assert Flatten(kids) == kids[0] + Flatten(kids[1..]);
      forall i | 0 <= i < |trees| - n ensures Represents(Flatten(kids[1..])[i], trees[n..][i], repr) {
        assert Flatten(kids)[n + i] == Flatten(kids[1..])[i];
      }
      AttachRepresents(ns[1..], kids[1..], groups[1..], trees[n..], repr);
      var forest := Attach(bars, groups, trees);
      assert forest == [Node(bars[0], trees[..n])] + Attach(bars[1..], groups[1..], trees[n..]);
      forall i | 0 <= i < n ensures Represents(ns[0].nodes[i], trees[..n][i], repr) {
        assert Flatten(kids)[i] == kids[0][i];
      }
      forall i | 0 <= i < |ns| ensures Represents(ns[i], forest[i], repr) {
        if i > 0 { assert ns[i] == ns[1..][i - 1] && forest[i] == forest[1..][i - 1]; }
      }
    }
  }

  // The nodes of layer k are the roots of what the specification builds there.
  lemma {:induction false} LayerRepresents(layers: seq<seq<ProfileTree>>, links: seq<seq<seq<ProfileTree>>>,
                                           levels: seq<Level>, names: seq<string>, repr: set<ProfileTree>, k: nat)
    requires Placed(layers, links, levels, names, repr) && AllLinked(layers, links, repr) && k < |layers|
    requires var last := layers[|links|];
             Frontier(last) && (last == [] || |layers| == |levels|)
    ensures BuildSafe(Bars(layers[k]), levels[k + 1..], k + 1, names)
    ensures var forest := Build(Bars(layers[k]), levels[k + 1..], k + 1, names);
            forall i | 0 <= i < |layers[k]| :: Represents(layers[k][i], forest[i], repr)
    decreases |layers| - k
  {
    hide Scan, ScanSafe, Flatten, Attach, Linked, Grouped, Represents, Frontier, Build, BuildSafe;
    if k == |links| {
      LeavesRepresent(layers[k], levels[k + 1..], k + 1, names, repr);
    } else {
      var groups := Scan(Bars(layers[k]), levels[k + 1], 0, k + 1, names);
      LayerRepresents(layers, links, levels, names, repr, k + 1);
      FlattenBars(links[k], groups);
      assert levels[k + 1..][1..] == levels[k + 2..];
      BuildUnfold(Bars(layers[k]), levels[k + 1..], k + 1, names);
      AttachRepresents(layers[k], links[k], groups, Build(Bars(layers[k + 1]), levels[k + 2..], k + 2, names), repr);
    }
  }

  lemma LeavesRepresent(ns: seq<ProfileTree>, levels: seq<Level>, level: nat, names: seq<string>,
                        repr: set<ProfileTree>)
    requires Frontier(ns) && (ns == [] || levels == [])
    requires forall n | n in ns :: n in repr
    ensures BuildSafe(Bars(ns), levels, level, names)
    ensures forall i | 0 <= i < |ns| :: Represents(ns[i], Build(Bars(ns), levels, level, names)[i], repr)
  {
  }

  lemma RootLayer(root: ProfileTree)
    requires root.nodes == []
    ensures Frontier([root]) && Bars([root]) == [root.AsBar()]
  {
  }

  // One round of the outer loop, with the layers so far as witnesses.
  method NextLayer(parentsStack: seq<ProfileTree>, levels: seq<Level>, currentLevel: nat, names: seq<string>,
                   ghost layers: seq<seq<ProfileTree>>, ghost links: seq<seq<seq<ProfileTree>>>,
                   ghost repr: set<ProfileTree>)
    returns (nextParents: seq<ProfileTree>, ghost kids: seq<seq<ProfileTree>>)
    requires 1 <= currentLevel == |layers| < |levels| && |links| == |layers| - 1
    requires layers[|links|] == parentsStack && parentsStack != [] && Frontier(parentsStack)
    requires Placed(layers, links, levels, names, repr) && AllLinked(layers, links, repr)
    requires BuildSafe(Bars(parentsStack), levels[currentLevel..], currentLevel, names)
    modifies parentsStack
    ensures fresh(set n | n in nextParents) && Frontier(nextParents)
    ensures Placed(layers + [nextParents], links + [kids], levels, names, repr + set n | n in nextParents)
    ensures AllLinked(layers + [nextParents], links + [kids], repr + set n | n in nextParents)
    ensures BuildSafe(Bars(nextParents), levels[currentLevel + 1..], currentLevel + 1, names)
  {
    hide Build, BuildSafe, Scan, ScanSafe, Flatten, Grouped, Frontier, Bars;
    SafeStep(Bars(parentsStack), levels[currentLevel..], currentLevel, names);
    nextParents, kids := FillLevel(parentsStack, levels[currentLevel], currentLevel, names);
    FlattenBars(kids, Scan(Bars(parentsStack), levels[currentLevel], 0, currentLevel, names));
    PlacedNext(layers, links, levels, names, repr, nextParents, kids);
    assert levels[currentLevel..][1..] == levels[currentLevel + 1..];
  }

  // The tree on the heap is the one the level-by-level specification builds.
  method LevelsToTree(levels: seq<Level>, names: seq<string>) returns (tree: ProfileTree?, ghost repr: set<ProfileTree>)
    requires levels != [] ==> DecodeSafe(levels, names)
    ensures tree == null <==> levels == []
    ensures tree != null ==> fresh(repr) && Represents(tree, Decode(levels, names), repr)
  {
    hide Build, BuildSafe, Scan, ScanSafe, Flatten, Represents, Grouped, Linked, Frontier, Bars;
    repr := {};
    if |levels| == 0 {
      return null, repr;
    }
    var root := new ProfileTree(0, levels[0][1], levels[0][2], 0, names[levels[0][0]]);
    tree := root;
    var parentsStack := [root];
    var currentLevel := 1;
    repr := {root};
    ghost var layers := [[root]];
    ghost var links := [];
    RootLayer(root);
    assert [root.AsBar()] == [Root(levels, names)];
    while currentLevel < |levels| && |parentsStack| != 0
      invariant 1 <= currentLevel == |layers| <= |levels| && |links| == |layers| - 1
      invariant layers[0] == [root] && layers[|links|] == parentsStack
      invariant fresh(repr) && Frontier(parentsStack)
      invariant Placed(layers, links, levels, names, repr) && AllLinked(layers, links, repr)
      invariant BuildSafe(Bars(parentsStack), levels[currentLevel..], currentLevel, names)
    {
      var nextParents, kids := NextLayer(parentsStack, levels, currentLevel, names, layers, links, repr);
      layers := layers + [nextParents];
      links := links + [kids];
      repr := repr + set n | n in nextParents;
      parentsStack := nextParents;
      currentLevel := currentLevel + 1;
    }
    LayerRepresents(layers, links, levels, names, repr, 0);
  }
}
