/**
 * The nested-set frame: the rows a tree is flattened to and what they determine.
 */
module FlameFrame {
  import opened Machine
  import opened FlameGraph
  import opened FlameNesting

  datatype Row = Row(level: nat, value: Int64, self: Int64, name: string)

  function RowOf(bar: Bar): Row {
    Row(bar.level, bar.value, bar.self, bar.name)
  }

  // The rows of the forest, depth first.
  function Rows(forest: seq<Tree>): seq<Row> {
    if forest == [] then []
    else [RowOf(forest[0].bar)] + Rows(forest[0].nodes) + Rows(forest[1..])
  }

  function Size(forest: seq<Tree>): nat {
    if forest == [] then 0 else 1 + Size(forest[0].nodes) + Size(forest[1..])
  }

  lemma {:induction false} RowsCons(t: Tree, rest: seq<Tree>)
    ensures Rows([t] + rest) == [RowOf(t.bar)] + Rows(t.nodes) + Rows(rest)
    ensures Size([t] + rest) == 1 + Size(t.nodes) + Size(rest)
  {
    assert ([t] + rest)[1..] == rest;
  }

  lemma {:induction false} RowsAppend(a: seq<Tree>, b: seq<Tree>)
    ensures Rows(a + b) == Rows(a) + Rows(b)
    ensures Size(a + b) == Size(a) + Size(b)
    decreases |a|
  {
    hide Rows, Size;
    if a == [] {
      assert a + b == b;
      RowsEmpty();
    } else {
      RowsAppend(a[1..], b);
      RowsCons(a[0], a[1..]);
      RowsCons(a[0], a[1..] + b);
      assert a == [a[0]] + a[1..];
      assert a + b == [a[0]] + (a[1..] + b);
      var head, rest, more := [RowOf(a[0].bar)] + Rows(a[0].nodes), Rows(a[1..]), Rows(b);
      assert head + (rest + more) == head + rest + more;
    }
  }

  lemma RowsEmpty()
    ensures Rows([]) == [] && Size([]) == 0
  {
  }

  // ------------------------------------------------------------ reconstruction

  // A tree without the positions of its bars.
  datatype Shape = Shape(row: Row, nodes: seq<Shape>)

  function Shapes(forest: seq<Tree>): seq<Shape> {
    if forest == [] then []
    else [Shape(RowOf(forest[0].bar), Shapes(forest[0].nodes))] + Shapes(forest[1..])
  }

  // Reads back the siblings at depth d; returns them and the rows left over.
  function Rebuild(rows: seq<Row>, d: nat): (r: (seq<Shape>, seq<Row>))
    ensures |r.1| <= |rows|
    decreases |rows|
  {
    if rows == [] || rows[0].level != d then ([], rows)
    else
      var kids := Rebuild(rows[1..], d + 1);
      var siblings := Rebuild(kids.1, d);
      ([Shape(rows[0], kids.0)] + siblings.0, siblings.1)
  }

  predicate LevelsFrom(forest: seq<Tree>, d: nat) {
    forest == [] ||
    (forest[0].bar.level == d && LevelsFrom(forest[0].nodes, d + 1) && LevelsFrom(forest[1..], d))
  }

  lemma {:induction false} RowsHead(forest: seq<Tree>, tail: seq<Row>)
    requires forest != []
    ensures var rows := Rows(forest) + tail;
            rows != [] && rows[0] == RowOf(forest[0].bar)
            && rows[1..] == Rows(forest[0].nodes) + (Rows(forest[1..]) + tail)
  {
    var head, kids, rest := RowOf(forest[0].bar), Rows(forest[0].nodes), Rows(forest[1..]);
    assert Rows(forest) == [head] + kids + rest;
    hide Rows;
    assert [head] + kids + rest + tail == [head] + (kids + (rest + tail));
  }

  lemma RowsLevel(forest: seq<Tree>, d: nat)
    requires LevelsFrom(forest, d)
    ensures Rows(forest) != [] ==> Rows(forest)[0].level == d
    ensures Rows(forest) == [] <==> forest == []
  {
  }

  lemma {:induction false} RebuildInverts(forest: seq<Tree>, d: nat, tail: seq<Row>)
    requires LevelsFrom(forest, d)
    requires tail != [] ==> tail[0].level < d
    ensures Rebuild(Rows(forest) + tail, d) == (Shapes(forest), tail)
    decreases forest
  {
    if forest == [] {
      assert [] + tail == tail;
    } else {
      var rows := Rows(forest) + tail;
      var rest := Rows(forest[1..]) + tail;
      RowsHead(forest, tail);
      RowsLevel(forest[1..], d);
      RebuildInverts(forest[0].nodes, d + 1, rest);
      RebuildInverts(forest[1..], d, tail);
    }
  }

  // The rows of two trees agree exactly when the trees agree up to positions.
  lemma RowsDetermineShape(a: Tree, b: Tree)
    requires LevelsFrom([a], 0) && LevelsFrom([b], 0)
    ensures Rows([a]) == Rows([b]) <==> Agree([a], [b])
    ensures Rebuild(Rows([a]), 0).0 == Shapes([a])
  {
    RebuildInverts([a], 0, []);
    RebuildInverts([b], 0, []);
    assert Rows([a]) + [] == Rows([a]) && Rows([b]) + [] == Rows([b]);
    ShapesDetermineRows([a], [b]);
    ShapesAgree([a], [b]);
  }

  // The same trees bar by bar, but for where the bars start.
  predicate Agree(a: seq<Tree>, b: seq<Tree>) {
    |a| == |b| &&
    (a == [] ||
     (a[0].bar.(start := 0) == b[0].bar.(start := 0) && Agree(a[0].nodes, b[0].nodes) && Agree(a[1..], b[1..])))
  }

  lemma {:induction false} ShapesAgree(a: seq<Tree>, b: seq<Tree>)
    ensures Shapes(a) == Shapes(b) <==> Agree(a, b)
    decreases a
  {
    ShapesSize(a);
    ShapesSize(b);
    if a != [] && b != [] {
      ShapesAgree(a[0].nodes, b[0].nodes);
      ShapesAgree(a[1..], b[1..]);
      RowsKeep(a[0].bar, b[0].bar);
      assert Shapes(a)[0] == Shape(RowOf(a[0].bar), Shapes(a[0].nodes)) && Shapes(a)[1..] == Shapes(a[1..]);
      assert Shapes(b)[0] == Shape(RowOf(b[0].bar), Shapes(b[0].nodes)) && Shapes(b)[1..] == Shapes(b[1..]);
      assert Shapes(a) == [Shapes(a)[0]] + Shapes(a)[1..] && Shapes(b) == [Shapes(b)[0]] + Shapes(b)[1..];
    }
  }

  lemma {:induction false} ShapesSize(forest: seq<Tree>)
    ensures |Shapes(forest)| == |forest|
  {
    if forest != [] { ShapesSize(forest[1..]); }
  }

  // A row keeps all of its bar but the start.
  lemma RowsKeep(a: Bar, b: Bar)
    ensures RowOf(a) == RowOf(b) <==> a.(start := 0) == b.(start := 0)
  {
  }

  lemma {:induction false} ShapesDetermineRows(a: seq<Tree>, b: seq<Tree>)
    ensures Shapes(a) == Shapes(b) ==> Rows(a) == Rows(b)
    decreases a
  {
    if a != [] && b != [] && Shapes(a) == Shapes(b) {
      assert Shapes(a)[0] == Shapes(b)[0];
      assert Shapes(a)[1..] == Shapes(a[1..]) && Shapes(b)[1..] == Shapes(b[1..]);
      ShapesDetermineRows(a[0].nodes, b[0].nodes);
      ShapesDetermineRows(a[1..], b[1..]);
    }
  }

  // Positions are lost: two levels that differ in a gap give the same rows.
  lemma RowsLoseStarts()
    ensures var names := ["all"];
            var left: seq<Level> := [[0, 2, 1, 0], [0, 1, 1, 0]];
            var right: seq<Level> := [[0, 2, 1, 0], [1, 1, 1, 0]];
            DecodeSafe(left, names) && DecodeSafe(right, names)
            && Decode(left, names) != Decode(right, names)
            && Rows([Decode(left, names)]) == Rows([Decode(right, names)])
  {
    var names := ["all"];
    var a := OneChild(0, names);
    var b := OneChild(1, names);
    assert Rows([a]) == [RowOf(a.bar)] + Rows(a.nodes) + Rows([]);
    assert Rows([b]) == [RowOf(b.bar)] + Rows(b.nodes) + Rows([]);
    assert Rows(a.nodes) == [RowOf(a.nodes[0].bar)] + Rows([]) + Rows([]);
    assert Rows(b.nodes) == [RowOf(b.nodes[0].bar)] + Rows([]) + Rows([]);
    assert RowOf(a.nodes[0].bar) == RowOf(b.nodes[0].bar);
  }

  lemma OneChild(gap: Int64, names: seq<string>) returns (t: Tree)
    requires 0 <= gap <= 1 && names == ["all"]
    ensures var levels: seq<Level> := [[0, 2, 1, 0], [gap, 1, 1, 0]];
            DecodeSafe(levels, names) && Decode(levels, names) == t
    ensures t == Node(Bar(0, 2, 1, 0, "all"), [Node(Bar(gap, 1, 1, 1, "all"), [])])
  {
    hide Decode, DecodeSafe, Encode;
    var child := Node(Bar(gap, 1, 1, 1, "all"), []);
    t := Node(Bar(0, 2, 1, 0, "all"), [child]);
    var index: map<string, Int64> := map["all" := 0];
    OneChildLevels(t, child, index);
    assert Labelled([child], 1, 1, index);
    assert Disjoint([], gap + 1, 2) && [child.bar][1..] == [];
    assert WellNested(child);
    assert WellNested(t);
    WellNestedRoundTrip(t, 2, index, names);
  }

  lemma OneChildLevels(t: Tree, child: Tree, index: map<string, Int64>)
    requires 0 <= child.bar.start <= 1 && child == Node(Bar(child.bar.start, 1, 1, 1, "all"), [])
    requires t == Node(Bar(0, 2, 1, 0, "all"), [child]) && index == map["all" := 0]
    ensures Encode([t], 2, index) == [[0, 2, 1, 0], [child.bar.start, 1, 1, 0]]
    ensures Roots([t]) == [t.bar] && Roots([child]) == [child.bar] && Kids([t]) == [child] && Kids([child]) == []
    ensures Complete([t], 2)
  {
    assert Kids([t]) == [child] + Kids([]) == [child];
    assert Kids([child]) == [] + Kids([]) == [];
    assert Roots([t]) == [t.bar] && Roots([child]) == [child.bar];
    hide Kids;
    var none: seq<Bar> := [];
    assert [t.bar][1..] == none && [child.bar][1..] == none;
    var a := EncodeLevel([t.bar], 0, index);
    var b := EncodeLevel([child.bar], 0, index);
    assert a == [0, 2, 1, 0] by { assert a == [0, 2, 1, 0] + EncodeLevel(none, 2, index); }
    assert b == [child.bar.start, 1, 1, 0] by {
      assert b == [child.bar.start, 1, 1, 0] + EncodeLevel(none, child.bar.End(), index);
    }
    hide EncodeLevel;
    EncodeStep([child], 1, index);
    EncodeStep([t], 2, index);
    assert Encode([t], 2, index) == [a] + ([b] + []);
    assert Complete([child], 1);
  }

  // Every decoded tree records its depths, so its rows determine its shape.
  lemma {:induction false} BuildLevels(parents: seq<Bar>, levels: seq<Level>, level: nat, names: seq<string>)
    requires BuildSafe(parents, levels, level, names) && level > 0
    requires forall i | 0 <= i < |parents| :: parents[i].level == level - 1
    ensures LevelsFrom(Build(parents, levels, level, names), level - 1)
    decreases |levels|
  {
    var forest := Build(parents, levels, level, names);
    if parents == [] || levels == [] {
      LeavesFrom(forest, level - 1);
    } else {
      hide ScanSafe, Attach, LevelsFrom;
      var groups := Scan(parents, levels[0], 0, level, names);
      ScanLevels(parents, levels[0], 0, level, names);
      BuildLevels(Flatten(groups), levels[1..], level + 1, names);
      BuildStep(parents, levels, level, names);
      KidsLevels(forest, level - 1);
    }
  }

  lemma {:induction false} LeavesFrom(forest: seq<Tree>, d: nat)
    requires forall i | 0 <= i < |forest| :: forest[i].bar.level == d && forest[i].nodes == []
    ensures LevelsFrom(forest, d)
  {
    if forest != [] { LeavesFrom(forest[1..], d); }
  }

  lemma {:induction false} LevelsAppend(a: seq<Tree>, b: seq<Tree>, d: nat)
    requires LevelsFrom(a + b, d)
    ensures LevelsFrom(a, d) && LevelsFrom(b, d)
    decreases |a|
  {
    if a == [] {
      assert a + b == b;
    } else {
      assert (a + b)[1..] == a[1..] + b;
      LevelsAppend(a[1..], b, d);
    }
  }

  lemma {:induction false} KidsLevels(forest: seq<Tree>, d: nat)
    requires forall i | 0 <= i < |forest| :: Roots(forest)[i].level == d
    requires LevelsFrom(Kids(forest), d + 1)
    ensures LevelsFrom(forest, d)
  {
    if forest != [] {
      assert Roots(forest)[0].level == d;
      LevelsAppend(forest[0].nodes, Kids(forest[1..]), d + 1);
      assert forall i | 0 <= i < |forest| - 1 :: Roots(forest[1..])[i] == Roots(forest)[i + 1];
      KidsLevels(forest[1..], d);
    }
  }

  lemma {:induction false} ScanLevels(parents: seq<Bar>, values: Level, offset: Int64, level: nat, names: seq<string>)
    requires ScanSafe(parents, values, offset, names)
    ensures forall i | 0 <= i < |Flatten(Scan(parents, values, offset, level, names))| ::
              Flatten(Scan(parents, values, offset, level, names))[i].level == level
  {
    ScanTakesPrefix(parents, values, offset, level, names);
    BarLevels(values, offset, level, names);
  }

  lemma {:induction false} BarLevels(values: Level, offset: Int64, level: nat, names: seq<string>)
    ensures forall i | 0 <= i < |LevelBars(values, offset, level, names)| ::
              LevelBars(values, offset, level, names)[i].level == level
    decreases |values|
  {
    if |values| >= 4 {
      BarLevels(values[4..], BarAt(values, offset, level, names).End(), level, names);
    }
  }

  lemma FrameDeterminesShape(levels: seq<Level>, names: seq<string>)
    requires DecodeSafe(levels, names)
    ensures var t := Decode(levels, names);
            LevelsFrom([t], 0) && Rebuild(Rows([t]), 0).0 == Shapes([t])
    ensures Rows([Decode(levels, names)])[..1] == [Row(0, levels[0][1], levels[0][2], names[levels[0][0]])]
  {
    BuildLevels([Root(levels, names)], levels[1..], 1, names);
    var t := Decode(levels, names);
    assert [t] == Build([Root(levels, names)], levels[1..], 1, names);
    RowsDetermineShape(t, t);
    BuildRoots([Root(levels, names)], levels[1..], 1, names);
    assert Roots([t])[0] == Root(levels, names);
    RowsHead([t], []);
    assert Rows([t]) + [] == Rows([t]);
  }
}
