/**
 * Samples through the whole decoding: from levels in which every bar's samples
 * are its own plus those of the bars inside it, how many of them the tree and
 * the self column of its rows keep, and exactly when they keep all.
 */
module FlameSamples {
  import opened Machine
  import opened FlameGraph
  import opened FlameNesting
  import opened FlameFrame

  // ------------------------------------------------------------------------- sums

  function ValueSum(bars: seq<Bar>): int {
    if bars == [] then 0 else bars[0].value + ValueSum(bars[1..])
  }

  function OwnSum(bars: seq<Bar>): int {
    if bars == [] then 0 else bars[0].self + OwnSum(bars[1..])
  }

  // The samples of the bars of a level that lie inside `parent`.
  function HeldSum(parent: Bar, bars: seq<Bar>): int {
    if bars == [] then 0
    else (if parent.Holds(bars[0]) then bars[0].value else 0) + HeldSum(parent, bars[1..])
  }

  // The same over all parents.
  function HeldSums(parents: seq<Bar>, bars: seq<Bar>): int {
    if parents == [] then 0 else HeldSum(parents[0], bars) + HeldSums(parents[1..], bars)
  }

  // Every bar's samples are its own plus those of the next-level bars inside it.
  predicate Balanced(parents: seq<Bar>, levels: seq<Level>, level: nat, names: seq<string>)
    decreases |levels|
  {
    if levels == [] then forall i | 0 <= i < |parents| :: parents[i].value == parents[i].self
    else
      var bars := LevelBars(levels[0], 0, level, names);
      (forall i | 0 <= i < |parents| :: parents[i].value == parents[i].self + HeldSum(parents[i], bars)) &&
      Balanced(bars, levels[1..], level + 1, names)
  }

  // What the construction loses: at each level, what the parents it has reached
  // hold of the bars from the first one on that none of them holds.
  function Lost(parents: seq<Bar>, levels: seq<Level>, level: nat, names: seq<string>): int
    decreases |levels|
  {
    if levels == [] then 0
    else
      var bars := LevelBars(levels[0], 0, level, names);
      var k := Taken(bars, parents);
      HeldSums(parents, bars[k..]) + Lost(bars[..k], levels[1..], level + 1, names)
  }

  // From the k-th on, every bar that some parent holds is empty.
  predicate Spares(parents: seq<Bar>, bars: seq<Bar>, k: nat) {
    forall i | k <= i < |bars| :: HeldBySome(bars[i], parents) ==> bars[i].value == 0
  }

  // At each level, every bar behind one that no reached parent holds is itself
  // outside them all, or empty.
  predicate NothingLost(parents: seq<Bar>, levels: seq<Level>, level: nat, names: seq<string>)
    decreases |levels|
  {
    levels == [] ||
    (var bars := LevelBars(levels[0], 0, level, names);
     var k := Taken(bars, parents);
     Spares(parents, bars, k) && NothingLost(bars[..k], levels[1..], level + 1, names))
  }

  lemma {:induction false} HeldSumAppend(parent: Bar, a: seq<Bar>, b: seq<Bar>)
    ensures HeldSum(parent, a + b) == HeldSum(parent, a) + HeldSum(parent, b)
  {
    if a == [] {
      assert a + b == b;
    } else {
      HeldSumAppend(parent, a[1..], b);
      assert (a + b)[1..] == a[1..] + b;
    }
  }

  lemma {:induction false} HeldSumsAppend(parents: seq<Bar>, a: seq<Bar>, b: seq<Bar>)
    ensures HeldSums(parents, a + b) == HeldSums(parents, a) + HeldSums(parents, b)
  {
    if parents != [] {
      HeldSumAppend(parents[0], a, b);
      HeldSumsAppend(parents[1..], a, b);
    }
  }

  // A bar's samples, once for each parent that holds it.
  function Claims(parents: seq<Bar>, bar: Bar): int {
    if parents == [] then 0
    else (if parents[0].Holds(bar) then bar.value else 0) + Claims(parents[1..], bar)
  }

  lemma {:induction false} HeldSumsCons(parents: seq<Bar>, bars: seq<Bar>)
    requires bars != []
    ensures HeldSums(parents, bars) == Claims(parents, bars[0]) + HeldSums(parents, bars[1..])
  {
    if parents != [] {
      HeldSumsCons(parents[1..], bars);
    }
  }

  lemma {:induction false} HeldSumsNone(parents: seq<Bar>)
    ensures HeldSums(parents, []) == 0
  {
    if parents != [] { HeldSumsNone(parents[1..]); }
  }

  lemma HeldBySomeCons(bar: Bar, parents: seq<Bar>)
    requires parents != []
    ensures HeldBySome(bar, parents) <==> parents[0].Holds(bar) || HeldBySome(bar, parents[1..])
  {
    if HeldBySome(bar, parents) && !parents[0].Holds(bar) {
      var j :| 0 <= j < |parents| && parents[j].Holds(bar);
      assert parents[1..][j - 1].Holds(bar);
    }
    if HeldBySome(bar, parents[1..]) { HeldByLater(bar, parents); }
  }

  lemma {:induction false} ClaimsSign(parents: seq<Bar>, bar: Bar)
    requires 0 <= bar.value
    ensures 0 <= Claims(parents, bar)
    ensures Claims(parents, bar) == 0 <==> bar.value == 0 || !HeldBySome(bar, parents)
  {
    if parents != [] {
      ClaimsSign(parents[1..], bar);
      HeldBySomeCons(bar, parents);
      hide HeldBySome;
    }
  }

  // A bar held by two parents has no width.
  lemma HeldTwice(parents: seq<Bar>, i: nat, j: nat, bar: Bar)
    requires Apart(parents) && i < |parents| && j < |parents| && i != j
    requires parents[i].Holds(bar) && parents[j].Holds(bar) && bar.start <= bar.End()
    ensures bar.value == 0
  {
    if i < j {
      assert parents[i].End() <= parents[j].start;
    } else {
      assert parents[j].End() <= parents[i].start;
    }
  }

  // So a bar that is held counts once.
  lemma {:induction false} ClaimedOnce(parents: seq<Bar>, bar: Bar)
    requires Apart(parents) && 0 <= bar.value && bar.start <= bar.End() && HeldBySome(bar, parents)
    ensures Claims(parents, bar) == bar.value
  {
    HeldBySomeCons(bar, parents);
    ApartTail(parents);
    if parents[0].Holds(bar) {
      ClaimsSign(parents[1..], bar);
      if HeldBySome(bar, parents[1..]) {
        var j :| 0 <= j < |parents[1..]| && parents[1..][j].Holds(bar);
        HeldTwice(parents, 0, j + 1, bar);
      }
    } else {
      hide HeldBySome, Apart;
      ClaimedOnce(parents[1..], bar);
    }
  }

  // Bars with a non-negative width, as a level without overflow has.
  predicate Widths(bars: seq<Bar>) {
    forall i | 0 <= i < |bars| :: 0 <= bars[i].value && bars[i].start <= bars[i].End()
  }

  lemma ForwardWidths(bars: seq<Bar>)
    requires Forward(bars, 0)
    ensures Widths(bars) && Apart(bars)
  {
    hide Forward;
    ForwardAll(bars, 0);
  }

  lemma {:induction false} HeldSumsAll(parents: seq<Bar>, bars: seq<Bar>)
    requires Apart(parents) && Widths(bars) && Covered(bars, parents)
    ensures HeldSums(parents, bars) == ValueSum(bars)
    decreases |bars|
  {
    hide HeldBySome, Apart, HeldSums;
    if bars == [] {
      HeldSumsNone(parents);
    } else {
      HeldSumsCons(parents, bars);
      CoveredCons(bars, parents);
      ClaimedOnce(parents, bars[0]);
      HeldSumsAll(parents, bars[1..]);
    }
  }

  lemma {:induction false} HeldSumsSign(parents: seq<Bar>, bars: seq<Bar>)
    requires Widths(bars)
    ensures 0 <= HeldSums(parents, bars)
    ensures HeldSums(parents, bars) == 0 <==> Spares(parents, bars, 0)
    decreases |bars|
  {
    hide HeldBySome, HeldSums;
    if bars == [] {
      HeldSumsNone(parents);
    } else {
      HeldSumsCons(parents, bars);
      ClaimsSign(parents, bars[0]);
      HeldSumsSign(parents, bars[1..]);
      assert forall i | 0 < i < |bars| :: bars[i] == bars[1..][i - 1];
    }
  }

  lemma SparesDrop(parents: seq<Bar>, bars: seq<Bar>, k: nat)
    requires k <= |bars|
    ensures Spares(parents, bars, k) <==> Spares(parents, bars[k..], 0)
  {
    hide HeldBySome;
    assert forall i | k <= i < |bars| :: bars[i] == bars[k..][i - k];
    forall i | 0 <= i < |bars| - k ensures bars[k..][i] == bars[k + i] {
    }
  }

  lemma WidthsDrop(bars: seq<Bar>, k: nat)
    requires k <= |bars| && Widths(bars)
    ensures Widths(bars[k..]) && Widths(bars[..k])
  {
  }

  // The construction loses nothing exactly when the condition on its input holds.
  lemma {:induction false} LostExactly(parents: seq<Bar>, levels: seq<Level>, level: nat, names: seq<string>)
    requires ForwardInput(levels, level, names)
    ensures 0 <= Lost(parents, levels, level, names)
    ensures Lost(parents, levels, level, names) == 0 <==> NothingLost(parents, levels, level, names)
    decreases |levels|
  {
    if levels != [] {
      hide HeldSums, LevelBars, Forward, WellFormed, Taken, Spares, Widths;
      var bars := LevelBars(levels[0], 0, level, names);
      var k := Taken(bars, parents);
      ForwardWidths(bars);
      WidthsDrop(bars, k);
      HeldSumsSign(parents, bars[k..]);
      SparesDrop(parents, bars, k);
      LostExactly(bars[..k], levels[1..], level + 1, names);
    }
  }

  lemma {:induction false} CoveredLosesNothing(parents: seq<Bar>, levels: seq<Level>, level: nat, names: seq<string>)
    requires CoveredInput(parents, levels, level, names)
    ensures NothingLost(parents, levels, level, names)
    decreases |levels|
  {
    if levels != [] {
      hide HeldBySome, LevelBars, Taken, Covered;
      var bars := LevelBars(levels[0], 0, level, names);
      TakenHeld(bars, parents);
      assert bars[..|bars|] == bars;
      CoveredLosesNothing(bars, levels[1..], level + 1, names);
    }
  }

  // ------------------------------------------------------------------- the self column

  function SelfSum(rows: seq<Row>): int {
    if rows == [] then 0 else rows[0].self + SelfSum(rows[1..])
  }

  lemma {:induction false} SelfSumAppend(a: seq<Row>, b: seq<Row>)
    ensures SelfSum(a + b) == SelfSum(a) + SelfSum(b)
  {
    if a == [] {
      assert a + b == b;
    } else {
      SelfSumAppend(a[1..], b);
      assert (a + b)[1..] == a[1..] + b;
    }
  }

  lemma SelfSumCons(t: Tree, rest: seq<Tree>)
    ensures SelfSum(Rows([t] + rest)) == t.bar.self + SelfSum(Rows(t.nodes)) + SelfSum(Rows(rest))
  {
    RowsCons(t, rest);
    hide Rows;
    var head := [RowOf(t.bar)];
    SelfSumAppend(head, Rows(t.nodes));
    SelfSumAppend(head + Rows(t.nodes), Rows(rest));
    assert SelfSum(head) == t.bar.self;
  }

  // The roots' own samples and those of everything below them.
  lemma {:induction false} SelfSumByLevel(forest: seq<Tree>)
    ensures SelfSum(Rows(forest)) == OwnSum(Roots(forest)) + SelfSum(Rows(Kids(forest)))
  {
    hide Rows, SelfSum;
    if forest == [] {
      RowsEmpty();
      NoSamples();
    } else {
      assert forest == [forest[0]] + forest[1..];
      SelfSumCons(forest[0], forest[1..]);
      SelfSumByLevel(forest[1..]);
      assert Roots(forest)[1..] == Roots(forest[1..]);
      RowsAppend(forest[0].nodes, Kids(forest[1..]));
      SelfSumAppend(Rows(forest[0].nodes), Rows(Kids(forest[1..])));
    }
  }

  lemma NoSamples()
    ensures SelfSum([]) == 0
  {
  }

  lemma {:induction false} LeavesOwn(parents: seq<Bar>)
    requires forall i | 0 <= i < |parents| :: parents[i].value == parents[i].self
    ensures OwnSum(parents) == ValueSum(parents)
  {
    if parents != [] { LeavesOwn(parents[1..]); }
  }

  lemma {:induction false} BalancedSum(parents: seq<Bar>, bars: seq<Bar>)
    requires forall i | 0 <= i < |parents| :: parents[i].value == parents[i].self + HeldSum(parents[i], bars)
    ensures ValueSum(parents) == OwnSum(parents) + HeldSums(parents, bars)
    decreases |parents|
  {
    if parents != [] {
      hide HeldSum;
      assert forall i | 0 <= i < |parents| - 1 :: parents[1..][i] == parents[i + 1];
      BalancedSum(parents[1..], bars);
    }
  }

  lemma BalancedPrefix(parents: seq<Bar>, k: nat, levels: seq<Level>, level: nat, names: seq<string>)
    requires k <= |parents| && Balanced(parents, levels, level, names)
    ensures Balanced(parents[..k], levels, level, names)
  {
    hide HeldSum, LevelBars;
  }

  // The samples the bars taken from a level leave to their parents, and the rest.
  lemma LevelSamples(parents: seq<Bar>, bars: seq<Bar>)
    requires Apart(parents) && Widths(bars)
    ensures var k := Taken(bars, parents);
            HeldSums(parents, bars) == ValueSum(bars[..k]) + HeldSums(parents, bars[k..])
  {
    hide HeldBySome, Apart, HeldSums, Taken;
    var k := Taken(bars, parents);
    TakenHeld(bars, parents);
    HeldSumsAll(parents, bars[..k]);
    HeldSumsAppend(parents, bars[..k], bars[k..]);
    assert bars == bars[..k] + bars[k..];
  }

  lemma LeavesSamples(parents: seq<Bar>, level: nat, names: seq<string>)
    requires forall i | 0 <= i < |parents| :: parents[i].value == parents[i].self
    ensures BuildSafe(parents, [], level, names)
    ensures SelfSum(Rows(Build(parents, [], level, names))) == ValueSum(parents)
  {
    BuildNoLevels(parents, level, names);
    hide Build, BuildSafe, Rows, SelfSum;
    var forest := Build(parents, [], level, names);
    SelfSumByLevel(forest);
    LeafKids(forest);
    RowsEmpty();
    NoSamples();
    LeavesOwn(parents);
  }

  lemma {:induction false} LeafKids(forest: seq<Tree>)
    requires forall t | t in forest :: t.nodes == []
    ensures Kids(forest) == []
  {
    if forest != [] {
      assert forest[0] in forest;
      LeafKids(forest[1..]);
    }
  }

  // The samples the rows keep are those of the roots less those lost.
  lemma {:induction false} BuildLoses(parents: seq<Bar>, levels: seq<Level>, level: nat, names: seq<string>)
    requires ForwardInput(levels, level, names) && Apart(parents) && Balanced(parents, levels, level, names)
    ensures BuildSafe(parents, levels, level, names)
    ensures SelfSum(Rows(Build(parents, levels, level, names)))
         == ValueSum(parents) - Lost(parents, levels, level, names)
    decreases |levels|
  {
    hide Scan, ScanSafe, Build, BuildSafe, Kids, Flatten, Forward, LevelBars, WellFormed, Rows, SelfSum;
    hide HeldSum, HeldSums, ValueSum, OwnSum, Taken, Apart;
    if levels == [] {
      LeavesSamples(parents, level, names);
    } else {
      var bars := LevelBars(levels[0], 0, level, names);
      var k := Taken(bars, parents);
      ScanTakesCovered(parents, levels[0], 0, level, names);
      ForwardWidths(bars);
      ApartPrefix(bars, k);
      BalancedPrefix(bars, k, levels[1..], level + 1, names);
      BuildLoses(bars[..k], levels[1..], level + 1, names);
      BuildStep(parents, levels, level, names);
      SelfSumByLevel(Build(parents, levels, level, names));
      BalancedSum(parents, bars);
      LevelSamples(parents, bars);
    }
  }

  lemma ApartPrefix(bars: seq<Bar>, k: nat)
    requires k <= |bars| && Apart(bars)
    ensures Apart(bars[..k])
  {
  }

  // For balanced levels with non-negative gaps and widths: the self column sums to
  // the root's value less what is lost, so to the root's value exactly when
  // nothing is.
  lemma SamplesConserved(levels: seq<Level>, names: seq<string>)
    requires RootSafe(levels, names) && ForwardInput(levels[1..], 1, names)
    requires Balanced([Root(levels, names)], levels[1..], 1, names)
    ensures DecodeSafe(levels, names)
    ensures SelfSum(Rows([Decode(levels, names)]))
         == levels[0][1] - Lost([Root(levels, names)], levels[1..], 1, names)
    ensures SelfSum(Rows([Decode(levels, names)])) == levels[0][1] <==>
              NothingLost([Root(levels, names)], levels[1..], 1, names)
  {
    hide Build, BuildSafe, Rows, SelfSum, Lost, NothingLost, Balanced, ForwardInput;
    var root := Root(levels, names);
    BuildLoses([root], levels[1..], 1, names);
    assert [Decode(levels, names)] == Build([root], levels[1..], 1, names);
    assert ValueSum([root]) == root.value + ValueSum([root][1..]);
    LostExactly([root], levels[1..], 1, names);
  }

  // ------------------------------------------------------------------- node by node

  predicate Conserves(t: Tree) {
    t.bar.value == t.bar.self + ValueSum(Roots(t.nodes)) &&
    forall i | 0 <= i < |t.nodes| :: Conserves(t.nodes[i])
  }

  // The self column of the rows of any conserving forest sums to the values of
  // its roots; every subtree is such a forest.
  lemma {:induction false} SelfColumn(forest: seq<Tree>)
    requires forall i | 0 <= i < |forest| :: Conserves(forest[i])
    ensures SelfSum(Rows(forest)) == ValueSum(Roots(forest))
    decreases forest
  {
    hide Rows, SelfSum;
    if forest == [] {
      RowsEmpty();
      NoSamples();
    } else {
      assert Conserves(forest[0]);
      SelfColumn(forest[0].nodes);
      SelfColumn(forest[1..]);
      assert forest == [forest[0]] + forest[1..];
      SelfSumCons(forest[0], forest[1..]);
      assert Roots(forest)[1..] == Roots(forest[1..]);
    }
  }
  lemma {:induction false} HeldAll(parent: Bar, bars: seq<Bar>)
    requires forall k | 0 <= k < |bars| :: parent.Holds(bars[k])
    ensures HeldSum(parent, bars) == ValueSum(bars)
  {
    if bars != [] {
      forall k | 0 <= k < |bars| - 1 ensures parent.Holds(bars[1..][k]) {
        assert bars[1..][k] == bars[k + 1];
      }
      HeldAll(parent, bars[1..]);
    }
  }

  lemma {:induction false} HeldNone(parent: Bar, bars: seq<Bar>)
    requires forall k | 0 <= k < |bars| :: parent.Holds(bars[k]) ==> bars[k].value == 0
    ensures HeldSum(parent, bars) == 0
  {
    if bars != [] {
      forall k | 0 <= k < |bars| - 1 ensures parent.Holds(bars[1..][k]) ==> bars[1..][k].value == 0 {
        assert bars[1..][k] == bars[k + 1];
      }
      HeldNone(parent, bars[1..]);
    }
  }

  lemma {:induction false} HeldSumIsGroup(parent: Bar, groups: seq<seq<Bar>>, i: nat)
    requires i < |groups|
    requires forall k | 0 <= k < |groups[i]| :: parent.Holds(groups[i][k])
    requires forall j, k | 0 <= j < |groups| && j != i && 0 <= k < |groups[j]| ::
               parent.Holds(groups[j][k]) ==> groups[j][k].value == 0
    ensures HeldSum(parent, Flatten(groups)) == ValueSum(groups[i])
  {
    HeldSumAppend(parent, groups[0], Flatten(groups[1..]));
    if i == 0 {
      HeldAll(parent, groups[0]);
      HeldNoGroup(parent, groups[1..]);
    } else {
      HeldNone(parent, groups[0]);
      HeldSumIsGroup(parent, groups[1..], i - 1);
    }
  }

  lemma {:induction false} HeldNoGroup(parent: Bar, groups: seq<seq<Bar>>)
    requires forall j, k | 0 <= j < |groups| && 0 <= k < |groups[j]| ::
               parent.Holds(groups[j][k]) ==> groups[j][k].value == 0
    ensures HeldSum(parent, Flatten(groups)) == 0
  {
    if groups != [] {
      HeldNone(parent, groups[0]);
      HeldNoGroup(parent, groups[1..]);
      HeldSumAppend(parent, groups[0], Flatten(groups[1..]));
    }
  }

  lemma {:induction false} FlattenContains<T>(groups: seq<seq<T>>, j: nat, k: nat)
    requires j < |groups| && k < |groups[j]|
    ensures groups[j][k] in Flatten(groups)
  {
    if j > 0 {
      assert groups[1..][j - 1] == groups[j];
      FlattenContains(groups[1..], j - 1, k);
    }
  }

  lemma GroupSums(forest: seq<Tree>, bars: seq<Bar>, i: nat)
    requires Canonical(Roots(forest), Groups(forest)) && Apart(Roots(forest))
    requires bars == Flatten(Groups(forest)) && Widths(bars) && i < |forest|
    ensures HeldSum(forest[i].bar, bars) == ValueSum(Roots(forest[i].nodes))
  {
    var groups := Groups(forest);
    CanonicalHolds(forest);
    forall j, k | 0 <= j < |groups| && j != i && 0 <= k < |groups[j]| && forest[i].bar.Holds(groups[j][k])
      ensures groups[j][k].value == 0
    {
      FlattenContains(groups, j, k);
      assert forest[j].bar.Holds(forest[j].nodes[k].bar);
      HeldTwice(Roots(forest), i, j, groups[j][k]);
    }
    HeldSumIsGroup(forest[i].bar, groups, i);
  }

  // A parent holds nothing, save empty bars, of what is left out.
  lemma HeldOfTaken(parents: seq<Bar>, bars: seq<Bar>, k: nat, i: nat)
    requires k <= |bars| && i < |parents|
    requires Spares(parents, bars, k)
    ensures HeldSum(parents[i], bars) == HeldSum(parents[i], bars[..k])
  {
    forall j | 0 <= j < |bars| - k ensures parents[i].Holds(bars[k..][j]) ==> bars[k..][j].value == 0 {
      assert bars[k..][j] == bars[k + j];
    }
    HeldNone(parents[i], bars[k..]);
    HeldSumAppend(parents[i], bars[..k], bars[k..]);
    assert bars == bars[..k] + bars[k..];
  }

  lemma {:induction false} BuildConserves(parents: seq<Bar>, levels: seq<Level>, level: nat, names: seq<string>)
    requires ForwardInput(levels, level, names) && Apart(parents) && Balanced(parents, levels, level, names)
    requires NothingLost(parents, levels, level, names)
    ensures BuildSafe(parents, levels, level, names)
    ensures forall t | t in Build(parents, levels, level, names) :: Conserves(t)
    decreases |levels|
  {
    hide ScanSafe, Scan, Build, BuildSafe, Kids, Flatten, Forward, LevelBars, WellFormed, HeldSum;
    hide ValueSum, Conserves, Canonical, Taken, Apart, Spares;
    if levels == [] {
      LeavesConserve(parents, level, names);
    } else {
      var bars := LevelBars(levels[0], 0, level, names);
      var k := Taken(bars, parents);
      ScanTakesCovered(parents, levels[0], 0, level, names);
      ForwardWidths(bars);
      ApartPrefix(bars, k);
      BalancedPrefix(bars, k, levels[1..], level + 1, names);
      BuildConserves(bars[..k], levels[1..], level + 1, names);
      ScanIsCanonical(parents, levels[0], 0, level, names);
      BuildStep(parents, levels, level, names);
      var forest := Build(parents, levels, level, names);
      forall i | 0 <= i < |forest| ensures Conserves(forest[i]) {
        HeldOfTaken(parents, bars, k, i);
        GroupSums(forest, bars[..k], i);
        assert Roots(forest)[i] == parents[i];
        NodeConserves(forest, i);
      }
    }
  }

  lemma LeavesConserve(parents: seq<Bar>, level: nat, names: seq<string>)
    requires forall i | 0 <= i < |parents| :: parents[i].value == parents[i].self
    ensures BuildSafe(parents, [], level, names)
    ensures forall t | t in Build(parents, [], level, names) :: Conserves(t)
  {
  }

  lemma NodeConserves(forest: seq<Tree>, i: nat)
    requires i < |forest| && forest[i].bar.value == forest[i].bar.self + ValueSum(Roots(forest[i].nodes))
    requires forall t | t in Kids(forest) :: Conserves(t)
    ensures Conserves(forest[i])
  {
    forall k | 0 <= k < |forest[i].nodes| ensures Conserves(forest[i].nodes[k]) {
      KidsInside(forest, i, k);
    }
  }

  // And exactly then every node of the decoded tree balances.
  lemma DecodeConserves(levels: seq<Level>, names: seq<string>)
    requires RootSafe(levels, names) && ForwardInput(levels[1..], 1, names)
    requires Balanced([Root(levels, names)], levels[1..], 1, names)
    ensures DecodeSafe(levels, names)
    ensures Conserves(Decode(levels, names)) <==> NothingLost([Root(levels, names)], levels[1..], 1, names)
  {
    hide Build, BuildSafe, Rows, SelfSum, NothingLost, Balanced, ForwardInput, Conserves;
    var root := Root(levels, names);
    SamplesConserved(levels, names);
    var t := Decode(levels, names);
    assert [t] == Build([root], levels[1..], 1, names);
    if NothingLost([root], levels[1..], 1, names) {
      BuildConserves([root], levels[1..], 1, names);
      assert t in [t];
    }
    if Conserves(t) {
      SelfColumn([t]);
      BuildRoots([root], levels[1..], 1, names);
      assert ValueSum([root]) == root.value + ValueSum([root][1..]);
    }
  }

  // ---------------------------------------------------------------- the value column

  // How many rows at the front lie deeper than d.
  function Deeper(rows: seq<Row>, d: nat): (n: nat)
    ensures n <= |rows|
  {
    if rows == [] || rows[0].level <= d then 0 else 1 + Deeper(rows[1..], d)
  }

  // The first row's value is the self column over it and the deeper rows that
  // follow it.
  predicate AddsUp(rows: seq<Row>)
    requires rows != []
  {
    rows[0].value == SelfSum(rows[..1 + Deeper(rows[1..], rows[0].level)])
  }

  predicate NestedSet(rows: seq<Row>) {
    AddUpTo(rows, |rows|)
  }

  // So do the first n of these rows, each with all that follow it.
  predicate AddUpTo(rows: seq<Row>, n: nat)
    requires n <= |rows|
  {
    forall i | 0 <= i < n :: AddsUp(rows[i..])
  }

  lemma {:induction false} DeeperAll(rows: seq<Row>, tail: seq<Row>, d: nat)
    requires forall i | 0 <= i < |rows| :: d < rows[i].level
    requires tail != [] ==> tail[0].level <= d
    ensures Deeper(rows + tail, d) == |rows|
  {
    if rows == [] {
      assert rows + tail == tail;
    } else {
      assert (rows + tail)[1..] == rows[1..] + tail;
      DeeperAll(rows[1..], tail, d);
    }
  }

  lemma {:induction false} RowsDeep(forest: seq<Tree>, d: nat)
    requires LevelsFrom(forest, d)
    ensures forall i | 0 <= i < |Rows(forest)| :: d <= Rows(forest)[i].level
    decreases forest
  {
    if forest != [] {
      RowsDeep(forest[0].nodes, d + 1);
      RowsDeep(forest[1..], d);
    }
  }

  // The first row of a conserving tree adds up, whatever rows follow the tree.
  lemma RootAddsUp(t: Tree, d: nat, tail: seq<Row>)
    requires Conserves(t) && LevelsFrom([t], d) && (tail != [] ==> tail[0].level <= d)
    ensures AddsUp([RowOf(t.bar)] + Rows(t.nodes) + tail)
  {
    RowsDeep(t.nodes, d + 1);
    SelfColumn(t.nodes);
    hide Rows, Conserves, SelfSum;
    var head, kids := [RowOf(t.bar)], Rows(t.nodes);
    DeeperAll(kids, tail, d);
    var rows := head + kids + tail;
    assert rows[1..] == kids + tail && rows[..1 + |kids|] == head + kids;
    SelfSumAppend(head, kids);
    SelfOne(RowOf(t.bar));
    NodeValue(t);
  }

  lemma SelfOne(row: Row)
    ensures SelfSum([row]) == row.self
  {
    assert [row][1..] == [];
  }

  lemma NodeValue(t: Tree)
    requires Conserves(t)
    ensures t.bar.value == t.bar.self + ValueSum(Roots(t.nodes))
    ensures forall i | 0 <= i < |t.nodes| :: Conserves(t.nodes[i])
  {
  }

  lemma AddUpJoin(head: Row, kids: seq<Row>, later: seq<Row>, n: nat)
    requires n <= |later| && AddsUp([head] + kids + later)
    requires AddUpTo(kids + later, |kids|) && AddUpTo(later, n)
    ensures AddUpTo([head] + kids + later, 1 + |kids| + n)
  {
    hide AddsUp;
    var rows, below := [head] + kids + later, kids + later;
    forall i | 0 <= i < 1 + |kids| + n ensures AddsUp(rows[i..]) {
      if i == 0 {
        assert rows[0..] == rows;
      } else if i <= |kids| {
        assert rows[i..] == below[i - 1..];
      } else {
        assert rows[i..] == later[i - 1 - |kids|..];
      }
    }
  }

  lemma {:induction false} RowsAddUp(forest: seq<Tree>, d: nat, tail: seq<Row>)
    requires LevelsFrom(forest, d) && forall i | 0 <= i < |forest| :: Conserves(forest[i])
    requires tail != [] ==> tail[0].level <= d
    ensures AddUpTo(Rows(forest) + tail, |Rows(forest)|)
    decreases forest
  {
    if forest == [] {
      RowsEmpty();
    } else {
      var t, rest := forest[0], forest[1..];
      var later := Rows(rest) + tail;
      RowsLevel(rest, d);
      assert Conserves(t);
      NodeValue(t);
      hide Rows, AddUpTo, Conserves, AddsUp;
      assert LevelsFrom([t], d);
      hide LevelsFrom;
      RowsAddUp(t.nodes, d + 1, later);
      RowsAddUp(rest, d, tail);
      RootAddsUp(t, d, later);
      AddUpJoin(RowOf(t.bar), Rows(t.nodes), later, |Rows(rest)|);
      RowsSplit(forest, tail);
    }
  }

  lemma {:induction false} RowsSplit(forest: seq<Tree>, tail: seq<Row>)
    requires forest != []
    ensures Rows(forest) + tail == [RowOf(forest[0].bar)] + Rows(forest[0].nodes) + (Rows(forest[1..]) + tail)
    ensures |Rows(forest)| == 1 + |Rows(forest[0].nodes)| + |Rows(forest[1..])|
  {
    hide Rows;
    assert forest == [forest[0]] + forest[1..];
    RowsCons(forest[0], forest[1..]);
    var head, kids, rest := [RowOf(forest[0].bar)], Rows(forest[0].nodes), Rows(forest[1..]);
    assert head + kids + rest + tail == head + kids + (rest + tail);
  }



  // The nested-set law: for the same levels, every row's value is the self column
  // over it and the deeper rows that follow it exactly when nothing is lost.
  lemma ValueColumn(levels: seq<Level>, names: seq<string>)
    requires RootSafe(levels, names) && ForwardInput(levels[1..], 1, names)
    requires Balanced([Root(levels, names)], levels[1..], 1, names)
    ensures DecodeSafe(levels, names)
    ensures NestedSet(Rows([Decode(levels, names)])) <==> NothingLost([Root(levels, names)], levels[1..], 1, names)
  {
    hide Rows, SelfSum, NothingLost, Balanced, ForwardInput, Conserves, AddsUp, Decode, DecodeSafe, LevelsFrom;
    DecodeConserves(levels, names);
    SamplesConserved(levels, names);
    var t := Decode(levels, names);
    FrameDeterminesShape(levels, names);
    var rows := Rows([t]);
    assert rows + [] == rows;
    if Conserves(t) {
      RowsAddUp([t], 0, []);
    }
    if NestedSet(rows) {
      assert rows[0..] == rows;
      WholeAddsUp(t);
      assert rows[0] == rows[..1][0];
    }
  }

  lemma WholeAddsUp(t: Tree)
    requires LevelsFrom([t], 0) && Rows([t]) != [] && AddsUp(Rows([t]))
    ensures Rows([t])[0].value == SelfSum(Rows([t]))
  {
    RowsHead([t], []);
    RowsDeep(t.nodes, 1);
    RowsEmpty();
    hide Rows, SelfSum;
    var rows, kids := Rows([t]), Rows(t.nodes);
    assert rows + [] == rows && [t][1..] == [] && kids + ([] + []) == kids;
    DeeperAll(kids, [], 0);
    assert kids + [] == kids && rows[..|rows|] == rows;
  }

  // --------------------------------------------------------------- a sample dropped

  lemma TwoBars(values: Level, a: Bar, b: Bar, level: nat, names: seq<string>)
    requires |values| == 8 && values[3] == 0 == values[7] && |names| == 1
    requires a == BarAt(values, 0, level, names) && b == BarAt(values[4..], a.End(), level, names)
    requires 0 <= a.start <= a.End() <= b.start <= b.End()
    ensures LevelBars(values, 0, level, names) == [a, b] && WellFormed(values, names) && Forward([a, b], 0)
  {
    assert values[4..][4..] == [];
    assert LevelBars(values[4..], a.End(), level, names) == [b] + LevelBars([], b.End(), level, names);
    assert [a, b][1..] == [b] && [b][1..] == [];
    assert Forward([b], a.End());
  }

  lemma HeldTwo(parent: Bar, a: Bar, b: Bar)
    ensures HeldSum(parent, [a, b])
         == (if parent.Holds(a) then a.value else 0) + (if parent.Holds(b) then b.value else 0)
  {
    assert [a, b][1..] == [b] && [b][1..] == [];
    assert HeldSum(parent, [b]) == if parent.Holds(b) then b.value else 0;
  }

  lemma TakenTwo(parents: seq<Bar>, a: Bar, b: Bar)
    ensures Taken([a, b], parents) ==
              if !HeldBySome(a, parents) then 0 else if !HeldBySome(b, parents) then 1 else 2
  {
    assert [a, b][1..] == [b] && [b][1..] == [];
    assert Taken([b], parents) == if HeldBySome(b, parents) then 1 else 0;
  }

  lemma HeldSumsTwo(a: Bar, b: Bar, bars: seq<Bar>)
    ensures HeldSums([a, b], bars) == HeldSum(a, bars) + HeldSum(b, bars)
  {
    assert [a, b][1..] == [b] && [b][1..] == [];
    assert HeldSums([b], bars) == HeldSum(b, bars) + HeldSums([], bars);
  }

  // Three levels, balanced, whose third has a bar across both bars above it.
  const ALL := ["all"]
  const SECOND: Level := [0, 1, 1, 0, 0, 2, 1, 0]
  const THIRD: Level := [0, 2, 2, 0, 0, 1, 1, 0]
  const ACROSS: seq<Level> := [[0, 3, 0, 0], SECOND, THIRD]

  const TOP := Bar(0, 3, 0, 0, "all")
  const LEFT := Bar(0, 1, 1, 1, "all")
  const RIGHT := Bar(1, 2, 1, 1, "all")
  const WIDE := Bar(0, 2, 2, 2, "all")
  const BEHIND := Bar(2, 1, 1, 2, "all")

  lemma AcrossBars()
    ensures LevelBars(SECOND, 0, 1, ALL) == [LEFT, RIGHT] && LevelBars(THIRD, 0, 2, ALL) == [WIDE, BEHIND]
    ensures ForwardInput([SECOND, THIRD], 1, ALL)
  {
    TwoBars(SECOND, LEFT, RIGHT, 1, ALL);
    TwoBars(THIRD, WIDE, BEHIND, 2, ALL);
    hide LevelBars, Forward, WellFormed;
    assert [SECOND, THIRD][1..] == [THIRD] && [THIRD][1..] == [];
    assert ForwardInput([], 3, ALL) && ForwardInput([THIRD], 2, ALL);
  }

  lemma AcrossBalanced()
    ensures Balanced([TOP], [SECOND, THIRD], 1, ALL)
  {
    AcrossBars();
    HeldTwo(TOP, LEFT, RIGHT);
    HeldTwo(LEFT, WIDE, BEHIND);
    HeldTwo(RIGHT, WIDE, BEHIND);
    hide LevelBars, HeldSum, ForwardInput;
    assert [SECOND, THIRD][1..] == [THIRD] && [THIRD][1..] == [];
    assert Balanced([WIDE, BEHIND], [], 3, ALL);
    assert Balanced([LEFT, RIGHT], [THIRD], 2, ALL);
  }

  lemma AcrossLost()
    ensures Lost([TOP], [SECOND, THIRD], 1, ALL) == 1
  {
    AcrossBars();
    HeldTwo(LEFT, WIDE, BEHIND);
    HeldTwo(RIGHT, WIDE, BEHIND);
    HeldSumsTwo(LEFT, RIGHT, [WIDE, BEHIND]);
    HeldSumsNone([TOP]);
    TakenTwo([TOP], LEFT, RIGHT);
    assert [TOP][0].Holds(LEFT) && [TOP][0].Holds(RIGHT);
    TakenTwo([LEFT, RIGHT], WIDE, BEHIND);
    hide LevelBars, HeldSum, HeldSums, Taken, ForwardInput;
    assert [SECOND, THIRD][1..] == [THIRD] && [THIRD][1..] == [];
    assert Lost([], [], 3, ALL) == 0;
    assert [WIDE, BEHIND][0..] == [WIDE, BEHIND] && [WIDE, BEHIND][..0] == [];
    assert Lost([LEFT, RIGHT], [THIRD], 2, ALL) == 1;
    assert [LEFT, RIGHT][2..] == [] && [LEFT, RIGHT][..2] == [LEFT, RIGHT];
  }

  // The bar behind it is dropped, and its sample with it.
  lemma SampleDropped()
    ensures RootSafe(ACROSS, ALL) && ForwardInput(ACROSS[1..], 1, ALL)
    ensures Balanced([Root(ACROSS, ALL)], ACROSS[1..], 1, ALL)
    ensures DecodeSafe(ACROSS, ALL) && SelfSum(Rows([Decode(ACROSS, ALL)])) == 2 < ACROSS[0][1]
  {
    hide Decode, DecodeSafe, Rows, SelfSum, ForwardInput, Balanced, Lost;
    AcrossBars();
    AcrossBalanced();
    AcrossLost();
    assert ACROSS[1..] == [SECOND, THIRD] && Root(ACROSS, ALL) == TOP;
    SamplesConserved(ACROSS, ALL);
  }
}
