/**
 * What the decoder does on well-nested data: trees of positive-width bars come
 * back unchanged and nested levels lose and reorder nothing.  Also what holds of
 * it on arbitrary input.
 */
module FlameNesting {
  import opened Machine
  import opened FlameGraph

  // ------------------------------------------- trees with positive-width bars

  // Bars of positive width, left to right and disjoint, inside [lo, hi].
  predicate Disjoint(bars: seq<Bar>, lo: int, hi: int) {
    if bars == [] then lo <= hi
    else
      lo <= bars[0].start && 0 < bars[0].value && bars[0].start + bars[0].value <= hi < TWO63 &&
      Disjoint(bars[1..], bars[0].start + bars[0].value, hi)
  }

  // The children lie left to right and disjoint inside the bar, at every node.
  predicate WellNested(t: Tree) {
    Disjoint(Roots(t.nodes), t.bar.start, t.bar.start + t.bar.value) &&
    forall i | 0 <= i < |t.nodes| :: WellNested(t.nodes[i])
  }

  predicate AllWellNested(forest: seq<Tree>) {
    forall i | 0 <= i < |forest| :: WellNested(forest[i])
  }

  lemma {:induction false} DisjointAppend(a: seq<Bar>, b: seq<Bar>, lo: int, mid: int, hi: int)
    requires Disjoint(a, lo, mid) && Disjoint(b, mid, hi) && mid <= hi < TWO63
    ensures Disjoint(a + b, lo, hi)
  {
    if a == [] {
      assert a + b == b;
      if b != [] { assert Disjoint(b[1..], b[0].start + b[0].value, hi); }
    } else {
      DisjointAppend(a[1..], b, a[0].start + a[0].value, mid, hi);
      assert (a + b)[1..] == a[1..] + b;
    }
  }

  lemma {:induction false} DisjointInside(bars: seq<Bar>, lo: int, hi: int)
    requires Disjoint(bars, lo, hi)
    ensures lo <= hi
    ensures forall i | 0 <= i < |bars| ::
              lo <= bars[i].start && 0 < bars[i].value && bars[i].start + bars[i].value <= hi
  {
    if bars != [] {
      DisjointInside(bars[1..], bars[0].start + bars[0].value, hi);
      forall i | 0 <= i < |bars|
        ensures lo <= bars[i].start && 0 < bars[i].value && bars[i].start + bars[i].value <= hi
      {
        if i > 0 { assert bars[i] == bars[1..][i - 1]; }
      }
    }
  }

  // The next level of a well-nested forest is again disjoint and well nested.
  lemma {:induction false} KidsDisjoint(forest: seq<Tree>, lo: int, hi: int)
    requires Disjoint(Roots(forest), lo, hi) && hi < TWO63 && AllWellNested(forest)
    ensures Disjoint(Roots(Kids(forest)), lo, hi) && AllWellNested(Kids(forest))
  {
    if forest != [] {
      var bar := forest[0].bar;
      var end := bar.start + bar.value;
      assert Roots(forest)[0] == bar;
      assert Roots(forest)[1..] == Roots(forest[1..]);
      assert WellNested(forest[0]);
      KidsDisjoint(forest[1..], end, hi);
      DisjointInside(Roots(forest[1..]), end, hi);
      var kids := Roots(forest[0].nodes);
      assert Disjoint([], lo, bar.start);
      DisjointAppend([], kids, lo, bar.start, end);
      assert [] + kids == kids;
      DisjointAppend(kids, Roots(Kids(forest[1..])), lo, end, hi);
      RootsAppend(forest[0].nodes, Kids(forest[1..]));
    }
  }

  lemma {:induction false} DisjointCanonical(forest: seq<Tree>, lo: int, hi: int)
    requires Disjoint(Roots(forest), lo, hi) && hi < TWO63 && AllWellNested(forest)
    ensures Canonical(Roots(forest), Groups(forest))
  {
    if forest != [] {
      var bar := forest[0].bar;
      var end := bar.start + bar.value;
      assert Roots(forest)[0] == bar;
      assert Roots(forest)[1..] == Roots(forest[1..]);
      assert Groups(forest)[1..] == Groups(forest[1..]);
      assert WellNested(forest[0]);
      assert AllWellNested(forest[1..]);
      hide Disjoint, WellNested, Kids, Flatten;
      DisjointCanonical(forest[1..], end, hi);
      FirstHolds(forest[0], hi);
      LaterMisses(bar, forest[1..], hi);
    }
  }

  lemma FirstHolds(t: Tree, hi: int)
    requires WellNested(t) && t.bar.start + t.bar.value <= hi < TWO63
    ensures forall k | 0 <= k < |t.nodes| :: t.bar.Holds(Roots(t.nodes)[k])
  {
    DisjointInside(Roots(t.nodes), t.bar.start, t.bar.start + t.bar.value);
  }

  lemma LaterMisses(bar: Bar, forest: seq<Tree>, hi: int)
    requires 0 < bar.value && bar.start + bar.value <= hi < TWO63
    requires Disjoint(Roots(forest), bar.start + bar.value, hi) && AllWellNested(forest)
    ensures var later := Flatten(Groups(forest)); later != [] ==> !bar.Holds(later[0])
  {
    var end := bar.start + bar.value;
    FlattenGroups(forest);
    KidsDisjoint(forest, end, hi);
    DisjointInside(Roots(Kids(forest)), end, hi);
  }

  lemma {:induction false} DisjointCanonicalForest(forest: seq<Tree>, n: nat, lo: int, hi: int)
    requires Disjoint(Roots(forest), lo, hi) && hi < TWO63 && AllWellNested(forest)
    ensures CanonicalForest(forest, n)
    decreases n
  {
    if n > 0 {
      DisjointCanonical(forest, lo, hi);
      KidsDisjoint(forest, lo, hi);
      DisjointCanonicalForest(Kids(forest), n - 1, lo, hi);
    }
  }

  // Any well-nested tree of positive-width bars, rooted at 0 under the first
  // name, is decoded from its own levels exactly as it was.
  lemma WellNestedRoundTrip(t: Tree, n: nat, index: map<string, Int64>, names: seq<string>)
    requires Complete([t], n) && Labelled([t], n, 0, index) && Resolves(index, names)
    requires WellNested(t) && 0 < t.bar.value
    requires t.bar.start == 0 && |names| > 0 && t.bar.name == names[0]
    ensures var levels := Encode([t], n, index);
            DecodeSafe(levels, names) && Decode(levels, names) == t
  {
    hide Encode, Decode, DecodeSafe, Labelled, WellNested, CanonicalForest, Resolves;
    AloneDisjoint(t);
    DisjointCanonicalForest([t], n - 1, 0, t.bar.value);
    DecodeInvertsEncode(t, n, index, names);
  }

  lemma AloneDisjoint(t: Tree)
    requires WellNested(t) && 0 < t.bar.value && t.bar.start == 0
    ensures Disjoint(Roots([t]), 0, t.bar.value) && AllWellNested([t])
  {
    hide WellNested;
    var none: seq<Bar> := [];
    assert Roots([t]) == [t.bar] && [t.bar][1..] == none;
    assert Disjoint(none, t.bar.value, t.bar.value);
  }

  // The first name is where it starts: a root under another name is renamed.
  lemma RootRenamed()
    ensures var t := Node(Bar(0, 1, 1, 0, "b"), []);
            var names := ["a", "b"];
            var levels := Encode([t], 1, map["a" := 0, "b" := 1]);
            DecodeSafe(levels, names) && Decode(levels, names) == Node(Bar(0, 1, 1, 0, "a"), [])
  {
    var t := Node(Bar(0, 1, 1, 0, "b"), []);
    var names := ["a", "b"];
    var index: map<string, Int64> := map["a" := 0, "b" := 1];
    RootLevel(t.bar, index);
    assert Roots([t]) == [t.bar];
    var levels := Encode([t], 1, index);
    assert levels == [[0, 1, 1, 1]] && levels[1..] == [];
    assert BuildSafe([Root(levels, names)], [], 1, names);
  }

  // Width zero is where it stops: the second sibling's empty child, at its left
  // edge, is claimed by the first sibling.
  lemma ZeroWidthMoves()
    ensures var child := Node(Bar(1, 0, 0, 2, "c"), []);
            var left := Bar(0, 1, 1, 1, "a");
            var right := Bar(1, 1, 1, 1, "b");
            var names := ["all", "a", "b", "c"];
            var index := map["all" := 0, "a" := 1, "b" := 2, "c" := 3];
            var t := Node(Bar(0, 2, 0, 0, "all"), [Node(left, []), Node(right, [child])]);
            var levels := Encode([t], 3, index);
            DecodeSafe(levels, names) &&
            Decode(levels, names) == Node(t.bar, [Node(left, [child]), Node(right, [])])
  {
    var child := Node(Bar(1, 0, 0, 2, "c"), []);
    var left := Bar(0, 1, 1, 1, "a");
    var right := Bar(1, 1, 1, 1, "b");
    var names := ["all", "a", "b", "c"];
    var index: map<string, Int64> := map["all" := 0, "a" := 1, "b" := 2, "c" := 3];
    var t := Node(Bar(0, 2, 0, 0, "all"), [Node(left, []), Node(right, [child])]);
    var moved := Node(t.bar, [Node(left, [child]), Node(right, [])]);
    SameLevels(t, moved, left, right, child, index);
    MovedIsCanonical(moved, left, right, child, index, names);
    DecodeInvertsEncode(moved, 3, index, names);
  }

  lemma TwoParents(t: Tree, a: Tree, b: Tree)
    requires t.nodes == [a, b]
    ensures Kids([t]) == [a, b] && Roots([a, b]) == [a.bar, b.bar]
    ensures Kids([a, b]) == a.nodes + b.nodes
    ensures Groups([a, b]) == [Roots(a.nodes), Roots(b.nodes)]
    ensures Groups([t]) == [[a.bar, b.bar]] && Roots([t]) == [t.bar]
  {
    assert [t][1..] == [] && [a, b][1..] == [b] && [b][1..] == [];
    assert Kids([b]) == b.nodes + Kids([]) == b.nodes;
  }

  lemma SameLevels(t: Tree, moved: Tree, left: Bar, right: Bar, child: Tree, index: map<string, Int64>)
    requires t.bar == moved.bar && child.nodes == []
    requires t.nodes == [Node(left, []), Node(right, [child])]
    requires moved.nodes == [Node(left, [child]), Node(right, [])]
    ensures Encode([t], 3, index) == Encode([moved], 3, index)
    ensures Kids(moved.nodes) == [child] && Complete([moved], 3)
  {
    TwoParents(t, Node(left, []), Node(right, [child]));
    TwoParents(moved, Node(left, [child]), Node(right, []));
    assert [] + [child] == [child] == [child] + [];
    assert Kids([child]) == child.nodes + Kids([]) == [];
    assert Encode(t.nodes, 2, index) == Encode(moved.nodes, 2, index) by {
      assert Encode(Kids(t.nodes), 1, index) == Encode(Kids(moved.nodes), 1, index);
    }
  }

  lemma MovedIsCanonical(moved: Tree, left: Bar, right: Bar, child: Tree, index: map<string, Int64>, names: seq<string>)
    requires left == Bar(0, 1, 1, 1, "a") && right == Bar(1, 1, 1, 1, "b")
    requires child == Node(Bar(1, 0, 0, 2, "c"), [])
    requires moved == Node(Bar(0, 2, 0, 0, "all"), [Node(left, [child]), Node(right, [])])
    requires index == map["all" := 0, "a" := 1, "b" := 2, "c" := 3] && names == ["all", "a", "b", "c"]
    requires Kids(moved.nodes) == [child]
    ensures CanonicalForest([moved], 2) && Labelled([moved], 3, 0, index) && Resolves(index, names)
  {
    var a, b := Node(left, [child]), Node(right, []);
    TwoParents(moved, a, b);
    assert Roots([child]) == [child.bar];
    assert Groups([a, b])[1..] == [[]] && Groups([a, b])[1..][1..] == [];
    assert Flatten(Groups([a, b])[1..]) == [] + Flatten(Groups([a, b])[1..][1..]);
    assert Canonical([right], [[]]) by {
      var none: seq<seq<Bar>> := [];
      assert [[]][1..] == none && Flatten(none) == [];
    }
    assert Roots([a, b])[1..] == [right];
    assert Canonical(Roots([a, b]), Groups([a, b]));
    assert Groups([moved])[1..] == [];
    assert Canonical(Roots([moved]), Groups([moved]));
    assert CanonicalForest([a, b], 1);
    assert Labelled([child], 1, 2, index);
    assert Labelled([a, b], 2, 1, index);
  }

  // ------------------------------------------------------------ arbitrary input

  // All bars of a level with absolute starts.
  function LevelBars(values: Level, offset: Int64, level: nat, names: seq<string>): seq<Bar>
    decreases |values|
  {
    if |values| < 4 then []
    else
      var bar := BarAt(values, offset, level, names);
      [bar] + LevelBars(values[4..], bar.End(), level, names)
  }

  // One step of the pass, on the flattened result.
  lemma {:induction false} ScanFlat(parents: seq<Bar>, values: Level, offset: Int64, level: nat, names: seq<string>)
    requires ScanSafe(parents, values, offset, names) && parents != [] && values != []
    ensures |values| >= 3
    ensures var start := Add64(values[0], offset);
            var end := Add64(start, values[1]);
            if start >= parents[0].start && end <= parents[0].End() then
              |values| >= 4 && ScanSafe(parents, values[4..], end, names) &&
              Flatten(Scan(parents, values, offset, level, names))
                == [BarAt(values, offset, level, names)] + Flatten(Scan(parents, values[4..], end, level, names))
            else
              ScanSafe(parents[1..], values, offset, names) &&
              Flatten(Scan(parents, values, offset, level, names))
                == Flatten(Scan(parents[1..], values, offset, level, names))
  {
    hide Flatten;
    var start := Add64(values[0], offset);
    var end := Add64(start, values[1]);
    if start >= parents[0].start && end <= parents[0].End() {
      FlattenTake(BarAt(values, offset, level, names), Scan(parents, values[4..], end, level, names));
    } else {
      FlattenSkip(Scan(parents[1..], values, offset, level, names));
    }
  }

  lemma {:induction false} FlattenTake(bar: Bar, rest: seq<seq<Bar>>)
    requires rest != []
    ensures Flatten([[bar] + rest[0]] + rest[1..]) == [bar] + Flatten(rest)
  {
    assert ([[bar] + rest[0]] + rest[1..])[1..] == rest[1..];
  }

  lemma {:induction false} FlattenSkip(rest: seq<seq<Bar>>)
    ensures Flatten([[]] + rest) == Flatten(rest)
  {
    assert ([[]] + rest)[1..] == rest;
  }

  // On any input the pass attaches a prefix of the level's bars, each once and in order.
  lemma {:induction false} ScanTakesPrefix(parents: seq<Bar>, values: Level, offset: Int64, level: nat,
                                           names: seq<string>)
    requires ScanSafe(parents, values, offset, names)
    ensures Flatten(Scan(parents, values, offset, level, names)) <= LevelBars(values, offset, level, names)
    decreases |parents| + |values|
  {
    if parents == [] {
    } else if values == [] {
      NoBars(parents, offset, level, names);
    } else {
      hide Scan, ScanSafe, Flatten;
      ScanFlat(parents, values, offset, level, names);
      var start := Add64(values[0], offset);
      var end := Add64(start, values[1]);
      if start >= parents[0].start && end <= parents[0].End() {
        ScanTakesPrefix(parents, values[4..], end, level, names);
      } else {
        ScanTakesPrefix(parents[1..], values, offset, level, names);
      }
    }
  }

  // Every child lies inside its parent.
  predicate Inside(t: Tree) {
    forall i | 0 <= i < |t.nodes| :: t.bar.Holds(t.nodes[i].bar) && Inside(t.nodes[i])
  }

  lemma {:induction false} CanonicalHolds(forest: seq<Tree>)
    requires Canonical(Roots(forest), Groups(forest))
    ensures forall i, k | 0 <= i < |forest| && 0 <= k < |forest[i].nodes| :: forest[i].bar.Holds(forest[i].nodes[k].bar)
  {
    if forest != [] {
      assert Roots(forest)[1..] == Roots(forest[1..]);
      assert Groups(forest)[1..] == Groups(forest[1..]);
      CanonicalHolds(forest[1..]);
      forall i, k | 0 <= i < |forest| && 0 <= k < |forest[i].nodes|
        ensures forest[i].bar.Holds(forest[i].nodes[k].bar)
      {
        if i == 0 {
          assert Groups(forest)[0][k] == forest[0].nodes[k].bar;
        } else {
          assert forest[i] == forest[1..][i - 1];
        }
      }
    }
  }

  lemma {:induction false} KidsInside(forest: seq<Tree>, i: nat, k: nat)
    requires i < |forest| && k < |forest[i].nodes|
    ensures forest[i].nodes[k] in Kids(forest)
  {
    if i > 0 {
      assert forest[i] == forest[1..][i - 1];
      KidsInside(forest[1..], i - 1, k);
    }
  }

  lemma {:induction false} BuildInside(parents: seq<Bar>, levels: seq<Level>, level: nat, names: seq<string>)
    requires BuildSafe(parents, levels, level, names)
    ensures forall t | t in Build(parents, levels, level, names) :: Inside(t)
    decreases |levels|
  {
    if parents != [] && levels != [] {
      hide Scan, ScanSafe, Canonical, Attach;
      var groups := Scan(parents, levels[0], 0, level, names);
      var sub := Build(Flatten(groups), levels[1..], level + 1, names);
      var forest := Attach(parents, groups, sub);
      ScanIsCanonical(parents, levels[0], 0, level, names);
      BuildRoots(Flatten(groups), levels[1..], level + 1, names);
      AttachRoots(parents, groups, sub);
      AttachKeepsGroups(parents, groups, sub);
      CanonicalHolds(forest);
      BuildInside(Flatten(groups), levels[1..], level + 1, names);
      forall i | 0 <= i < |forest| ensures Inside(forest[i]) {
        forall k | 0 <= k < |forest[i].nodes| ensures Inside(forest[i].nodes[k]) {
          KidsInside(forest, i, k);
        }
      }
    }
  }

  // Whatever the levels hold, every bar of the decoded tree lies inside its parent.
  lemma DecodeInside(levels: seq<Level>, names: seq<string>)
    requires DecodeSafe(levels, names)
    ensures Inside(Decode(levels, names))
  {
    BuildInside([Root(levels, names)], levels[1..], 1, names);
  }

  // -------------------------------------------------------------- nested levels

  // Four numbers per bar, every name index in range.
  predicate WellFormed(values: Level, names: seq<string>) {
    |values| % 4 == 0 && forall i | 0 <= i < |values| && i % 4 == 3 :: 0 <= values[i] < |names|
  }

  lemma WellFormedTail(values: Level, names: seq<string>)
    requires WellFormed(values, names) && values != []
    ensures |values| >= 4 && 0 <= values[3] < |names| && WellFormed(values[4..], names)
  {
    assert 3 % 4 == 3;
    forall i | 0 <= i < |values| - 4 && i % 4 == 3 ensures 0 <= values[4..][i] < |names| {
      assert values[4..][i] == values[i + 4] && (i + 4) % 4 == 3;
    }
  }

  lemma {:induction false} ScanWellFormed(parents: seq<Bar>, values: Level, offset: Int64, names: seq<string>)
    requires WellFormed(values, names)
    ensures ScanSafe(parents, values, offset, names)
    decreases |parents| + |values|
  {
    if parents != [] && values != [] {
      WellFormedTail(values, names);
      var end := Add64(Add64(values[0], offset), values[1]);
      ScanWellFormed(parents, values[4..], end, names);
      ScanWellFormed(parents[1..], values, offset, names);
    }
  }

  lemma {:induction false} BuildWellFormed(parents: seq<Bar>, levels: seq<Level>, level: nat, names: seq<string>)
    requires forall k | 0 <= k < |levels| :: WellFormed(levels[k], names)
    ensures BuildSafe(parents, levels, level, names)
    decreases |levels|
  {
    if parents != [] && levels != [] {
      ScanWellFormed(parents, levels[0], 0, names);
      BuildWellFormed(Flatten(Scan(parents, levels[0], 0, level, names)), levels[1..], level + 1, names);
    }
  }

  // Well-formed levels, whatever numbers they hold, are decoded without any
  // index going out of range; the root's start slot must also be a name.
  lemma DecodeWellFormed(levels: seq<Level>, names: seq<string>)
    requires RootSafe(levels, names) && forall k | 1 <= k < |levels| :: WellFormed(levels[k], names)
    ensures DecodeSafe(levels, names)
  {
    BuildWellFormed([Root(levels, names)], levels[1..], 1, names);
  }

  // Non-negative gaps and widths, running from `lo` without overflow.
  predicate Forward(bars: seq<Bar>, lo: int) {
    bars == [] || (lo <= bars[0].start <= bars[0].End() && Forward(bars[1..], bars[0].End()))
  }

  lemma {:induction false} ForwardAll(bars: seq<Bar>, lo: int)
    requires Forward(bars, lo)
    ensures forall i | 0 <= i < |bars| :: lo <= bars[i].start <= bars[i].End()
    ensures Apart(bars)
  {
    if bars != [] {
      ForwardAll(bars[1..], bars[0].End());
      forall i | 0 <= i < |bars| ensures lo <= bars[i].start <= bars[i].End() {
        if i > 0 { assert bars[i] == bars[1..][i - 1]; }
      }
      forall i, j | 0 <= i < j < |bars| ensures bars[i].End() <= bars[j].start {
        assert bars[j] == bars[1..][j - 1];
        if i > 0 { assert bars[i] == bars[1..][i - 1]; }
      }
    }
  }

  // No bar starts before an earlier one ends.
  predicate Apart(bars: seq<Bar>) {
    forall i, j | 0 <= i < j < |bars| :: bars[i].End() <= bars[j].start
  }

  // Every bar lies inside some bar of the level above.
  predicate Covered(bars: seq<Bar>, parents: seq<Bar>) {
    forall i | 0 <= i < |bars| :: HeldBySome(bars[i], parents)
  }

  predicate HeldBySome(bar: Bar, parents: seq<Bar>) {
    exists j | 0 <= j < |parents| :: parents[j].Holds(bar)
  }

  // Once a bar has passed the first parent, no later bar needs that parent.
  lemma HeldLater(first: Bar, bar: Bar, parents: seq<Bar>)
    requires parents != [] && Apart(parents)
    requires HeldBySome(first, parents) && !parents[0].Holds(first) && HeldBySome(bar, parents)
    requires first == bar || first.start <= first.End() <= bar.start <= bar.End()
    ensures HeldBySome(bar, parents[1..])
  {
    var i :| 0 <= i < |parents| && parents[i].Holds(first);
    var j :| 0 <= j < |parents| && parents[j].Holds(bar);
    assert parents[0].End() <= parents[i].start;
    if j == 0 {
      assert false;
    }
    assert parents[1..][j - 1].Holds(bar);
  }

  // How many bars are held by some parent before the first that none holds.
  function Taken(bars: seq<Bar>, parents: seq<Bar>): (k: nat)
    ensures k <= |bars|
  {
    if bars == [] || !HeldBySome(bars[0], parents) then 0 else 1 + Taken(bars[1..], parents)
  }

  lemma {:induction false} TakenHeld(bars: seq<Bar>, parents: seq<Bar>)
    ensures Covered(bars[..Taken(bars, parents)], parents)
    ensures Taken(bars, parents) == |bars| <==> Covered(bars, parents)
  {
    hide HeldBySome;
    if bars != [] {
      if !HeldBySome(bars[0], parents) {
        assert !Covered(bars, parents);
      } else {
        TakenHeld(bars[1..], parents);
        CoveredCons(bars, parents);
        var k := Taken(bars, parents);
        assert bars[..k][1..] == bars[1..][..k - 1];
        CoveredCons(bars[..k], parents);
      }
    }
  }

  lemma CoveredCons(bars: seq<Bar>, parents: seq<Bar>)
    requires bars != []
    ensures Covered(bars, parents) <==> HeldBySome(bars[0], parents) && Covered(bars[1..], parents)
  {
    hide HeldBySome;
    forall i | 0 < i < |bars| ensures bars[i] == bars[1..][i - 1] {
    }
  }

  // Once the first bar has passed a parent, that parent takes none of the bars.
  lemma {:induction false} TakenLater(first: Bar, bars: seq<Bar>, parents: seq<Bar>)
    requires parents != [] && Apart(parents) && first.start <= first.End() && Forward(bars, first.End())
    requires HeldBySome(first, parents) && !parents[0].Holds(first)
    ensures Taken(bars, parents) == Taken(bars, parents[1..])
    decreases |bars|
  {
    if bars != [] {
      hide HeldBySome, Apart, Forward;
      ForwardAll(bars, first.End());
      ForwardFirst(bars, first.End());
      if HeldBySome(bars[0], parents) {
        HeldLater(first, bars[0], parents);
        TakenLater(first, bars[1..], parents);
      } else if HeldBySome(bars[0], parents[1..]) {
        HeldByLater(bars[0], parents);
      }
    }
  }

  lemma ForwardFirst(bars: seq<Bar>, lo: int)
    requires bars != [] && Forward(bars, lo)
    ensures lo <= bars[0].start <= bars[0].End() && Forward(bars[1..], bars[0].End()) && Forward(bars[1..], lo)
  {
  }

  lemma HeldByLater(bar: Bar, parents: seq<Bar>)
    requires parents != [] && HeldBySome(bar, parents[1..])
    ensures HeldBySome(bar, parents)
  {
    var j :| 0 <= j < |parents[1..]| && parents[1..][j].Holds(bar);
    assert parents[j + 1].Holds(bar);
  }

  lemma NoParents(bars: seq<Bar>, values: Level, offset: Int64, level: nat, names: seq<string>)
    ensures ScanSafe([], values, offset, names) && Flatten(Scan([], values, offset, level, names)) == []
    ensures Taken(bars, []) == 0
  {
  }

  lemma TakenNext(bars: seq<Bar>, parents: seq<Bar>)
    requires bars != [] && parents != []
    ensures parents[0].Holds(bars[0]) ==> Taken(bars, parents) == 1 + Taken(bars[1..], parents)
  {
  }

  // A level with non-negative gaps and widths: the pass attaches exactly the bars
  // before the first that no parent holds.
  lemma {:induction false} ScanTakesCovered(parents: seq<Bar>, values: Level, offset: Int64, level: nat,
                                            names: seq<string>)
    requires WellFormed(values, names) && Apart(parents)
    requires Forward(LevelBars(values, offset, level, names), offset)
    ensures ScanSafe(parents, values, offset, names)
    ensures var bars := LevelBars(values, offset, level, names);
            Flatten(Scan(parents, values, offset, level, names)) == bars[..Taken(bars, parents)]
    decreases |parents| + |values|
  {
    hide Scan, ScanSafe, Flatten, WellFormed, Taken, Apart, Forward;
    var bars := LevelBars(values, offset, level, names);
    ScanWellFormed(parents, values, offset, names);
    if values == [] {
      NoBars(parents, offset, level, names);
    } else if parents == [] {
      NoParents(bars, values, offset, level, names);
    } else {
      WellFormedTail(values, names);
      var bar := BarAt(values, offset, level, names);
      assert bars[0] == bar && bars[1..] == LevelBars(values[4..], bar.End(), level, names);
      ForwardFirst(bars, offset);
      ScanFlat(parents, values, offset, level, names);
      if parents[0].Holds(bar) {
        TakenNext(bars, parents);
        ScanTakesCovered(parents, values[4..], bar.End(), level, names);
        assert bars == [bar] + bars[1..];
      } else {
        ApartTail(parents);
        ScanTakesCovered(parents[1..], values, offset, level, names);
        TakenSkips(bars, offset, parents);
      }
    }
  }

  lemma ApartTail(bars: seq<Bar>)
    requires bars != [] && Apart(bars)
    ensures Apart(bars[1..])
  {
  }

  lemma TakenSkips(bars: seq<Bar>, lo: int, parents: seq<Bar>)
    requires bars != [] && Forward(bars, lo) && parents != [] && Apart(parents) && !parents[0].Holds(bars[0])
    ensures Taken(bars, parents) == Taken(bars, parents[1..])
  {
    hide HeldBySome, Apart, Forward;
    ForwardFirst(bars, lo);
    if HeldBySome(bars[0], parents) {
      HeldLater(bars[0], bars[0], parents);
      TakenLater(bars[0], bars[1..], parents);
    } else if HeldBySome(bars[0], parents[1..]) {
      HeldByLater(bars[0], parents);
    }
  }

  // The greedy pass attaches every bar of a nested level, once and in order.
  lemma ScanKeepsAll(parents: seq<Bar>, values: Level, offset: Int64, level: nat, names: seq<string>)
    requires WellFormed(values, names) && Apart(parents)
    requires Forward(LevelBars(values, offset, level, names), offset)
    requires Covered(LevelBars(values, offset, level, names), parents)
    ensures ScanSafe(parents, values, offset, names)
    ensures Flatten(Scan(parents, values, offset, level, names)) == LevelBars(values, offset, level, names)
  {
    hide Scan, ScanSafe, Flatten, Covered, WellFormed, LevelBars, Apart, Forward;
    ScanTakesCovered(parents, values, offset, level, names);
    TakenHeld(LevelBars(values, offset, level, names), parents);
  }

  lemma {:induction false} NoBars(parents: seq<Bar>, offset: Int64, level: nat, names: seq<string>)
    ensures ScanSafe(parents, [], offset, names) && Flatten(Scan(parents, [], offset, level, names)) == []
  {
    if parents != [] {
      NoBars(parents[1..], offset, level, names);
    }
  }

  // Each level is well formed, with non-negative gaps and widths.
  predicate ForwardInput(levels: seq<Level>, level: nat, names: seq<string>)
    decreases |levels|
  {
    levels == [] ||
    (WellFormed(levels[0], names) && Forward(LevelBars(levels[0], 0, level, names), 0) &&
     ForwardInput(levels[1..], level + 1, names))
  }

  // Every bar of each level lies inside some bar of the level above it.
  predicate CoveredInput(parents: seq<Bar>, levels: seq<Level>, level: nat, names: seq<string>)
    decreases |levels|
  {
    levels == [] ||
    (var bars := LevelBars(levels[0], 0, level, names);
     Covered(bars, parents) && CoveredInput(bars, levels[1..], level + 1, names))
  }

  predicate NestedInput(parents: seq<Bar>, levels: seq<Level>, level: nat, names: seq<string>) {
    ForwardInput(levels, level, names) && CoveredInput(parents, levels, level, names)
  }

  // The table is searched back to the index a bar was written with.
  predicate Inverse(index: map<string, Int64>, names: seq<string>) {
    forall i | 0 <= i < |names| :: names[i] in index && index[names[i]] == i
  }

  lemma {:induction false} ReencodeLevel(values: Level, offset: Int64, level: nat, names: seq<string>,
                                         index: map<string, Int64>)
    requires WellFormed(values, names) && Inverse(index, names)
    ensures EncodeLevel(LevelBars(values, offset, level, names), offset, index) == values
    decreases |values|
  {
    if values != [] {
      WellFormedTail(values, names);
      var bar := BarAt(values, offset, level, names);
      ReencodeLevel(values[4..], bar.End(), level, names, index);
      assert values == [values[0], values[1], values[2], values[3]] + values[4..];
      assert LevelBars(values, offset, level, names)[1..] == LevelBars(values[4..], bar.End(), level, names);
    }
  }

  // One level of the construction: the next level's trees are the children.
  lemma BuildStep(parents: seq<Bar>, levels: seq<Level>, level: nat, names: seq<string>)
    requires levels != [] && ScanSafe(parents, levels[0], 0, names)
    requires BuildSafe(Flatten(Scan(parents, levels[0], 0, level, names)), levels[1..], level + 1, names)
    ensures BuildSafe(parents, levels, level, names)
    ensures var groups := Scan(parents, levels[0], 0, level, names);
            var forest := Build(parents, levels, level, names);
            Kids(forest) == Build(Flatten(groups), levels[1..], level + 1, names) && Roots(forest) == parents
            && Groups(forest) == groups
  {
    var groups := Scan(parents, levels[0], 0, level, names);
    BuildRoots(Flatten(groups), levels[1..], level + 1, names);
    if parents != [] {
      AttachRoots(parents, groups, Build(Flatten(groups), levels[1..], level + 1, names));
      AttachKeepsGroups(parents, groups, Build(Flatten(groups), levels[1..], level + 1, names));
    }
  }

  lemma EncodeStep(forest: seq<Tree>, n: nat, index: map<string, Int64>)
    requires n > 0
    ensures Encode(forest, n, index) == [EncodeLevel(Roots(forest), 0, index)] + Encode(Kids(forest), n - 1, index)
  {
  }

  lemma BuildNoLevels(parents: seq<Bar>, level: nat, names: seq<string>)
    ensures BuildSafe(parents, [], level, names)
    ensures Roots(Build(parents, [], level, names)) == parents
    ensures forall t | t in Build(parents, [], level, names) :: t.nodes == []
  {
  }

  lemma {:induction false} BuildKeepsAll(parents: seq<Bar>, levels: seq<Level>, level: nat, names: seq<string>,
                                         index: map<string, Int64>)
    requires NestedInput(parents, levels, level, names) && Apart(parents) && Inverse(index, names)
    ensures BuildSafe(parents, levels, level, names)
    ensures Encode(Kids(Build(parents, levels, level, names)), |levels|, index) == levels
    decreases |levels|
  {
    hide ScanSafe, Scan, Build, BuildSafe, Encode, EncodeLevel, Kids, Flatten, Inverse, Forward, LevelBars, Apart;
    hide Covered, WellFormed;
    if levels == [] {
      BuildNoLevels(parents, level, names);
    } else {
      var bars := LevelBars(levels[0], 0, level, names);
      ScanKeepsAll(parents, levels[0], 0, level, names);
      ForwardAll(bars, 0);
      BuildKeepsAll(bars, levels[1..], level + 1, names, index);
      ReencodeLevel(levels[0], 0, level, names, index);
      BuildRoots(bars, levels[1..], level + 1, names);
      BuildStep(parents, levels, level, names);
      EncodeStep(Build(bars, levels[1..], level + 1, names), |levels|, index);
      assert levels == [levels[0]] + levels[1..];
    }
  }

  lemma {:induction false} LevelSizes(values: Level, offset: Int64, level: nat, names: seq<string>)
    ensures 4 * |LevelBars(values, offset, level, names)| == |values| - |values| % 4
    decreases |values|
  {
    if |values| >= 4 {
      LevelSizes(values[4..], BarAt(values, offset, level, names).End(), level, names);
    }
  }

  lemma {:induction false} EncodedSize(bars: seq<Bar>, offset: Int64, index: map<string, Int64>)
    ensures |EncodeLevel(bars, offset, index)| == 4 * |bars|
    decreases |bars|
  {
    if bars != [] {
      EncodedSize(bars[1..], bars[0].End(), index);
    }
  }

  // Whatever the pass attaches lies inside some parent.
  lemma {:induction false} CanonicalCovers(parents: seq<Bar>, groups: seq<seq<Bar>>)
    requires |groups| == |parents| && Canonical(parents, groups)
    ensures Covered(Flatten(groups), parents)
    decreases |parents|
  {
    if parents != [] {
      CanonicalCovers(parents[1..], groups[1..]);
      var rest := Flatten(groups[1..]);
      forall i | 0 <= i < |Flatten(groups)| ensures HeldBySome(Flatten(groups)[i], parents) {
        if i < |groups[0]| {
          assert parents[0].Holds(groups[0][i]);
        } else {
          HeldByLater(rest[i - |groups[0]|], parents);
        }
      }
    }
  }

  // A level that comes back whole was covered.
  lemma LevelCovered(parents: seq<Bar>, values: Level, level: nat, names: seq<string>, index: map<string, Int64>)
    requires WellFormed(values, names) && ScanSafe(parents, values, 0, names)
    requires EncodeLevel(Flatten(Scan(parents, values, 0, level, names)), 0, index) == values
    ensures Flatten(Scan(parents, values, 0, level, names)) == LevelBars(values, 0, level, names)
    ensures Covered(LevelBars(values, 0, level, names), parents)
  {
    hide Scan, ScanSafe, Flatten, Canonical, EncodeLevel, LevelBars, Covered;
    ScanTakesPrefix(parents, values, 0, level, names);
    EncodedSize(Flatten(Scan(parents, values, 0, level, names)), 0, index);
    LevelSizes(values, 0, level, names);
    ScanIsCanonical(parents, values, 0, level, names);
    CanonicalCovers(parents, Scan(parents, values, 0, level, names));
  }

  lemma {:induction false} BuildCovers(parents: seq<Bar>, levels: seq<Level>, level: nat, names: seq<string>,
                                       index: map<string, Int64>)
    requires ForwardInput(levels, level, names) && BuildSafe(parents, levels, level, names)
    requires Encode(Kids(Build(parents, levels, level, names)), |levels|, index) == levels
    ensures CoveredInput(parents, levels, level, names)
    decreases |levels|
  {
    hide ScanSafe, Scan, Build, BuildSafe, Encode, EncodeLevel, Kids, Flatten, Forward, LevelBars, Covered, WellFormed;
    if levels != [] {
      SafeStep(parents, levels, level, names);
      var bars := Flatten(Scan(parents, levels[0], 0, level, names));
      BuildStep(parents, levels, level, names);
      BuildRoots(bars, levels[1..], level + 1, names);
      EncodeStep(Build(bars, levels[1..], level + 1, names), |levels|, index);
      assert levels[0] == EncodeLevel(bars, 0, index);
      LevelCovered(parents, levels[0], level, names, index);
      BuildCovers(bars, levels[1..], level + 1, names, index);
    }
  }

  lemma {:induction false} ForwardWellFormed(levels: seq<Level>, level: nat, names: seq<string>)
    requires ForwardInput(levels, level, names)
    ensures forall k | 0 <= k < |levels| :: WellFormed(levels[k], names)
    decreases |levels|
  {
    if levels != [] {
      ForwardWellFormed(levels[1..], level + 1, names);
    }
  }

  // Nothing is dropped or reordered exactly when every bar is covered: for
  // levels with non-negative gaps and widths, writing the decoded tree out again
  // gives every level back if and only if every bar lies inside some bar of the
  // level above and the first level is one bar at 0 under the first name.
  lemma EncodeInvertsDecode(levels: seq<Level>, names: seq<string>, index: map<string, Int64>)
    requires RootSafe(levels, names) && Inverse(index, names)
    requires ForwardInput(levels[1..], 1, names)
    ensures DecodeSafe(levels, names)
    ensures Encode([Decode(levels, names)], |levels|, index) == levels <==>
              levels[0] == [0, levels[0][1], levels[0][2], 0] &&
              CoveredInput([Root(levels, names)], levels[1..], 1, names)
  {
    hide Build, BuildSafe, Kids, ForwardInput, CoveredInput, Encode, Roots;
    var root := Root(levels, names);
    ForwardWellFormed(levels[1..], 1, names);
    BuildWellFormed([root], levels[1..], 1, names);
    var t := Decode(levels, names);
    assert [t] == Build([root], levels[1..], 1, names);
    BuildRoots([root], levels[1..], 1, names);
    EncodeStep([t], |levels|, index);
    RootLevel(root, index);
    assert levels == [levels[0]] + levels[1..];
    if Encode([t], |levels|, index) == levels {
      BuildCovers([root], levels[1..], 1, names, index);
    }
    if CoveredInput([root], levels[1..], 1, names) {
      BuildKeepsAll([root], levels[1..], 1, names, index);
    }
  }

  lemma RootLevel(root: Bar, index: map<string, Int64>)
    requires root.start == 0 && root.name in index
    ensures EncodeLevel([root], 0, index) == [0, root.value, root.self, index[root.name]]
  {
    var none: seq<Bar> := [];
    assert [root][1..] == none && EncodeLevel(none, root.End(), index) == [];
  }

  // A bar wider than everything above it is dropped.
  lemma UncoveredBarDropped()
    ensures var names := ["all"];
            var levels: seq<Level> := [[0, 1, 1, 0], [0, 2, 2, 0]];
            DecodeSafe(levels, names) && Decode(levels, names) == Node(Bar(0, 1, 1, 0, "all"), [])
  {
    var names := ["all"];
    var wide: Level := [0, 2, 2, 0];
    var levels: seq<Level> := [[0, 1, 1, 0], wide];
    var root := Root(levels, names);
    assert levels[1..] == [wide] && [root][1..] == [] && [wide][1..] == [];
    assert ScanSafe([], wide, 0, names) && ScanSafe([root], wide, 0, names);
    assert Scan([root], wide, 0, 1, names) == [[]] + Scan([], wide, 0, 1, names);
    var none: seq<seq<Bar>> := [];
    assert [[]][1..] == none && Flatten<Bar>([[]]) == [] + Flatten(none);
    assert BuildSafe([root], [wide], 1, names);
    assert Build([root], [wide], 1, names) == Attach([root], [[]], Build([], [], 2, names));
    assert Attach([root], [[]], []) == [Node(root, [])] + Attach([], [], []);
  }
}
