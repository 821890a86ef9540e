/**
 * Flame graphs with as many distinct names as one likes: the label limit of the
 * frame is reached from levels, not only from tables.
 */
module FlameLimits {
  import opened Machine
  import opened FlameGraph
  import opened FlameNesting
  import opened FlameFrame
  import opened FlameData

  // A name for each number.
  function Mark(i: nat): (s: string)
    ensures |s| == i
  {
    seq(i, _ => 'x')
  }

  type Width = n: int | 0 <= n < 0x4000_0000_0000_0000

  // Unit bars from i to n, each under its own name.
  function Leaves(i: nat, n: Width): (forest: seq<Tree>)
    requires i <= n
    ensures |forest| == n - i
    ensures forall k | 0 <= k < n - i :: forest[k] == Node(Bar(i + k, 1, 1, 1, Mark(i + k + 1)), [])
    decreases n - i
  {
    if i == n then [] else [Node(Bar(i, 1, 1, 1, Mark(i + 1)), [])] + Leaves(i + 1, n)
  }

  function Fan(n: Width): Tree {
    Node(Bar(0, n, 0, 0, Mark(0)), Leaves(0, n))
  }

  function FanNames(n: Width): (names: seq<string>)
    ensures |names| == n + 1 && forall i | 0 <= i <= n :: names[i] == Mark(i)
  {
    seq(n + 1, i requires 0 <= i => Mark(i))
  }

  // Each name has its number as index.
  function FanIndex(n: Width): map<string, Int64>
  {
    map name | name in Marks(0, n + 1) :: |name|
  }

  function Marks(a: nat, b: nat): set<string> {
    set k | a <= k < b :: Mark(k)
  }

  lemma {:induction false} MarksSize(a: nat, b: nat)
    requires a <= b
    ensures |Marks(a, b)| == b - a
    decreases b - a
  {
    if a < b {
      MarksSize(a + 1, b);
      MarksNext(a, b);
      assert Mark(a) !in Marks(a + 1, b);
    } else {
      assert Marks(a, b) == {};
    }
  }

  lemma MarksNext(a: nat, b: nat)
    requires a < b
    ensures Marks(a, b) == {Mark(a)} + Marks(a + 1, b)
  {
  }

  lemma {:induction false} LeavesDisjoint(i: nat, n: Width)
    requires i <= n
    ensures Disjoint(Roots(Leaves(i, n)), i, n)
    decreases n - i
  {
    if i < n {
      LeavesDisjoint(i + 1, n);
      assert Roots(Leaves(i, n))[1..] == Roots(Leaves(i + 1, n));
    }
  }

  lemma {:induction false} LeavesKids(i: nat, n: Width)
    requires i <= n
    ensures Kids(Leaves(i, n)) == []
    decreases n - i
  {
    if i < n {
      LeavesKids(i + 1, n);
      assert Leaves(i, n)[1..] == Leaves(i + 1, n);
    }
  }

  lemma LeafNested(leaf: Tree)
    requires leaf.nodes == [] && 0 <= leaf.bar.value
    ensures WellNested(leaf)
  {
    assert Roots(leaf.nodes) == [];
  }

  lemma FanNested(n: Width)
    ensures WellNested(Fan(n))
  {
    LeavesDisjoint(0, n);
    hide Disjoint;
    forall i | 0 <= i < n ensures WellNested(Fan(n).nodes[i]) {
      LeafNested(Fan(n).nodes[i]);
    }
  }

  lemma FanComplete(n: Width)
    ensures Complete([Fan(n)], 2) && Labelled([Fan(n)], 2, 0, FanIndex(n))
  {
    var t, index := Fan(n), FanIndex(n);
    LeavesKids(0, n);
    assert Kids([t]) == t.nodes + Kids([]);
    assert Kids([t]) == t.nodes;
    assert Complete(t.nodes, 1) && Labelled([], 0, 2, index);
    assert BarsLabelled(Roots([t]), 0, index) by {
      assert Mark(0) in Marks(0, n + 1);
    }
    assert BarsLabelled(Roots(t.nodes), 1, index) by {
      forall i | 0 <= i < n ensures Roots(t.nodes)[i].name in index {
        assert Mark(i + 1) in Marks(0, n + 1);
      }
    }
    assert Labelled(t.nodes, 1, 1, index);
  }

  lemma FanResolves(n: Width)
    ensures Resolves(FanIndex(n), FanNames(n))
  {
    forall name | name in FanIndex(n)
      ensures 0 <= FanIndex(n)[name] < |FanNames(n)| && FanNames(n)[FanIndex(n)[name]] == name
    {
      var k :| 0 <= k < n + 1 && name == Mark(k);
    }
  }

  lemma NamesAppend(a: seq<Row>, b: seq<Row>)
    ensures Names(a + b) == Names(a) + Names(b)
  {
    forall r | r in a + b ensures r in a || r in b {
    }
    forall r | r in a || r in b ensures r in a + b {
    }
  }

  lemma NamesOne(row: Row)
    ensures Names([row]) == {row.name}
  {
  }

  lemma {:induction false} LeafNames(i: nat, n: Width)
    requires i <= n
    ensures Names(Rows(Leaves(i, n))) == Marks(i + 1, n + 1)
    decreases n - i
  {
    hide Rows, Names, Marks;
    if i == n {
      RowsEmpty();
      NoNames(n);
    } else {
      var leaf := Node(Bar(i, 1, 1, 1, Mark(i + 1)), []);
      assert Leaves(i, n) == [leaf] + Leaves(i + 1, n);
      RowsCons(leaf, Leaves(i + 1, n));
      RowsEmpty();
      assert [RowOf(leaf.bar)] + [] == [RowOf(leaf.bar)];
      NamesOne(RowOf(leaf.bar));
      NamesAppend([RowOf(leaf.bar)], Rows(Leaves(i + 1, n)));
      LeafNames(i + 1, n);
      MarksNext(i + 1, n + 1);
    }
  }

  lemma NoNames(n: nat)
    ensures Names([]) == {} == Marks(n + 1, n + 1)
  {
  }

  // For every n, levels whose tree has n + 1 distinct names.
  lemma LabelsReach(n: Width)
    requires 0 < n
    ensures var levels, names := Encode([Fan(n)], 2, FanIndex(n)), FanNames(n);
            DecodeSafe(levels, names) && |Names(Rows([Decode(levels, names)]))| == n + 1
  {
    hide Encode, Decode, DecodeSafe, WellNested, Complete, Labelled, Resolves, FanIndex, Rows, Names, Marks, Leaves;
    var t := Fan(n);
    FanNested(n);
    FanComplete(n);
    FanResolves(n);
    WellNestedRoundTrip(t, 2, FanIndex(n), FanNames(n));
    LeafNames(0, n);
    RowsCons(t, []);
    RowsEmpty();
    assert [t] + [] == [t];
    var head, rest := [RowOf(t.bar)], Rows(t.nodes);
    assert head + rest + [] == head + rest;
    NamesOne(RowOf(t.bar));
    NamesAppend(head, rest);
    MarksNext(0, n + 1);
    MarksSize(0, n + 1);
  }

  // So some levels have more names than the index type can tell apart.
  lemma LabelsOverflow()
    ensures exists levels, names ::
              DecodeSafe(levels, names) && |Names(Rows([Decode(levels, names)]))| == ENUM_LIMIT + 1
  {
    hide Encode, Decode, DecodeSafe, FanIndex, FanNames, Rows, Names, Fan;
    LabelsReach(ENUM_LIMIT);
  }
}
