/**
 * From the tree to the reported rows: the stack walk that fills the nested-set
 * frame, the label interning of its enum field, and the decoding of the frame
 * into flame data.
 */
module FlameData {
  import opened Machine
  import opened FlameGraph
  import opened FlameFrame
  import opened FlameTree

  // Enum indices are 16 bits wide.
  const ENUM_LIMIT: int := 0x1_0000
  type EnumIndex = x: int | 0 <= x < 0x1_0000

  // The k-th new label got index k, wrapped to the width of the index type.
  ghost predicate Indexed(order: seq<string>, m: map<string, EnumIndex>) {
    |order| == |m| &&
    (forall k | 0 <= k < |order| :: order[k] in m && m[order[k]] == k % ENUM_LIMIT) &&
    (forall j, k | 0 <= j < k < |order| :: order[j] != order[k]) &&
    forall s | s in m :: s in order
  }

  // `keys` lists, at each index in use, some label interned there.
  ghost predicate Lists(keys: seq<string>, m: map<string, EnumIndex>) {
    |keys| == |m| &&
    forall s | s in m :: m[s] < |keys| && keys[m[s]] in m && m[keys[m[s]]] == m[s]
  }

  // The field holds the index of each appended label, and every interned label
  // was appended.
  ghost predicate Interned(field: seq<EnumIndex>, m: map<string, EnumIndex>, order: seq<string>,
                           appended: seq<string>)
  {
    |field| == |appended| &&
    (forall i | 0 <= i < |field| :: appended[i] in m && field[i] == m[appended[i]]) &&
    forall k | 0 <= k < |order| :: order[k] in appended
  }

  class EnumField {
    var field: seq<EnumIndex>
    var valuesMap: map<string, EnumIndex>
    var counter: EnumIndex
    ghost var appended: seq<string>
    ghost var order: seq<string>

    ghost predicate Valid()
      reads this
    {
      Indexed(order, valuesMap) && counter == |order| % ENUM_LIMIT && Interned(field, valuesMap, order, appended)
    }

    constructor ()
      ensures Valid() && appended == []
    {
      field, valuesMap, counter := [], map[], 0;
      appended, order := [], [];
    }

    method Append(value: string)
      requires Valid()
      modifies this
      ensures Valid() && appended == old(appended) + [value]
    {
      hide Indexed, Interned;
      if value in valuesMap {
        InternKnown(field, valuesMap, order, appended, value);
        field := field + [valuesMap[value]];
      } else {
        IndexedAdd(order, valuesMap, value, counter);
        InternNew(field, valuesMap, order, appended, value, counter);
        valuesMap := valuesMap[value := counter];
        field := field + [counter];
        order := order + [value];
        counter := (counter + 1) % ENUM_LIMIT;
      }
      appended := appended + [value];
    }

    // The label table, filled by iterating the map in no particular order.
    method Text() returns (keys: seq<string>)
      requires Valid()
      ensures Lists(keys, valuesMap)
    {
      keys := seq(|valuesMap|, _ => "");
      var todo := valuesMap.Keys;
      while todo != {}
        invariant todo <= valuesMap.Keys && |keys| == |valuesMap|
        invariant forall s | s in valuesMap && s !in todo ::
                    valuesMap[s] < |keys| && keys[valuesMap[s]] in valuesMap &&
                    valuesMap[keys[valuesMap[s]]] == valuesMap[s]
      {
        var k :| k in todo;
        IndexInRange(order, valuesMap, k);
        keys := keys[valuesMap[k] := k];
        todo := todo - {k};
      }
    }

    // Decoding the field through the table gives back every appended label
    // exactly when the index type has room for all distinct labels.
    method Decode() returns (labels: seq<string>)
      requires Valid()
      ensures |labels| == |appended|
      ensures labels == appended <==> |valuesMap| <= ENUM_LIMIT
    {
      var keys := Text();
      labels := [];
      for i := 0 to |field|
        invariant |labels| == i
        invariant forall j | 0 <= j < i :: field[j] < |keys| && labels[j] == keys[field[j]]
      {
        labels := labels + [keys[field[i]]];
      }
      DecodeExact(order, valuesMap, keys, field, appended, labels);
    }
  }

  lemma IndexedAdd(order: seq<string>, m: map<string, EnumIndex>, value: string, counter: EnumIndex)
    requires Indexed(order, m) && value !in m && counter == |order| % ENUM_LIMIT
    ensures Indexed(order + [value], m[value := counter])
  {
    var longer, more := order + [value], m[value := counter];
    forall s | s in more ensures s in longer {
      if s == value { assert longer[|order|] == s; } else { InLonger(order, value, s); }
    }
  }

  lemma InLonger(a: seq<string>, x: string, s: string)
    requires s in a
    ensures s in a + [x]
  {
    var i :| 0 <= i < |a| && a[i] == s;
    assert (a + [x])[i] == s;
  }

  lemma InternKnown(field: seq<EnumIndex>, m: map<string, EnumIndex>, order: seq<string>,
                    appended: seq<string>, value: string)
    requires Interned(field, m, order, appended) && value in m
    ensures Interned(field + [m[value]], m, order, appended + [value])
  {
    forall k | 0 <= k < |order| ensures order[k] in appended + [value] {
      InLonger(appended, value, order[k]);
    }
  }

  lemma InternNew(field: seq<EnumIndex>, m: map<string, EnumIndex>, order: seq<string>, appended: seq<string>,
                  value: string, index: EnumIndex)
    requires Interned(field, m, order, appended) && value !in m
    ensures Interned(field + [index], m[value := index], order + [value], appended + [value])
  {
    forall k | 0 <= k < |order| + 1 ensures (order + [value])[k] in appended + [value] {
      if k < |order| { InLonger(appended, value, order[k]); } else { assert (appended + [value])[|appended|] == value; }
    }
  }

  lemma IndexInRange(order: seq<string>, m: map<string, EnumIndex>, s: string)
    requires Indexed(order, m) && s in m
    ensures m[s] < |m|
  {
    var k :| 0 <= k < |order| && order[k] == s;
    assert m[order[k]] == k % ENUM_LIMIT <= k;
  }

  // With room for all labels, an index belongs to one label only.
  lemma IndexUnique(order: seq<string>, m: map<string, EnumIndex>, a: string, b: string)
    requires Indexed(order, m) && |m| <= ENUM_LIMIT && a in m && b in m && m[a] == m[b]
    ensures a == b
  {
    var j :| 0 <= j < |order| && order[j] == a;
    var k :| 0 <= k < |order| && order[k] == b;
    assert m[order[j]] == j && m[order[k]] == k;
  }

  lemma DecodeExact(order: seq<string>, m: map<string, EnumIndex>, keys: seq<string>, field: seq<EnumIndex>,
                    appended: seq<string>, labels: seq<string>)
    requires Indexed(order, m) && Lists(keys, m) && Interned(field, m, order, appended) && |labels| == |field|
    requires forall j | 0 <= j < |field| :: field[j] < |keys| && labels[j] == keys[field[j]]
    ensures labels == appended <==> |m| <= ENUM_LIMIT
  {
    if |m| <= ENUM_LIMIT {
      hide Indexed;
      forall i | 0 <= i < |labels| ensures labels[i] == appended[i] {
        assert appended[i] in m;
        IndexUnique(order, m, appended[i], labels[i]);
      }
    } else {
      SharedIndex(order, m);
      hide Indexed, Lists;
      var a, b := order[0], order[ENUM_LIMIT];
      assert a in appended && b in appended;
      var i :| 0 <= i < |appended| && appended[i] == a;
      var j :| 0 <= j < |appended| && appended[j] == b;
      assert labels[i] == keys[0] == labels[j];
    }
  }

  // Without room, the first label and the one that wraps around share index 0.
  lemma SharedIndex(order: seq<string>, m: map<string, EnumIndex>)
    requires Indexed(order, m) && |m| > ENUM_LIMIT
    ensures var a, b := order[0], order[ENUM_LIMIT]; a != b && a in m && b in m && m[a] == 0 == m[b]
  {
    assert m[order[0]] == 0 % ENUM_LIMIT;
    assert m[order[ENUM_LIMIT]] == ENUM_LIMIT % ENUM_LIMIT;
  }

  // The frame's columns and its label field.
  class NestedSetFrame {
    var levels: seq<nat>
    var values: seq<Int64>
    var selfs: seq<Int64>
    const labels: EnumField
    ghost var rows: seq<Row>

    ghost predicate Valid()
      reads this, labels
    {
      labels.Valid() &&
      |levels| == |values| == |selfs| == |labels.appended| == |rows| &&
      forall i | 0 <= i < |rows| :: rows[i] == Row(levels[i], values[i], selfs[i], labels.appended[i])
    }

    constructor ()
      ensures Valid() && rows == [] && fresh(labels)
    {
      levels, values, selfs, rows := [], [], [], [];
      labels := new EnumField();
    }

    method AppendNode(tree: ProfileTree)
      requires Valid()
      modifies this, labels
      ensures Valid() && rows == old(rows) + [RowOf(tree.AsBar())]
    {
      levels := levels + [tree.level];
      values := values + [tree.value];
      selfs := selfs + [tree.self];
      labels.Append(tree.name);
      rows := rows + [RowOf(tree.AsBar())];
    }

    // Visits the tree depth first with an explicit stack.
    method WalkTree(tree: ProfileTree, ghost t: Tree, ghost repr: set<ProfileTree>)
      requires Valid() && Represents(tree, t, repr)
      modifies this, labels
      ensures Valid() && rows == old(rows) + Rows([t])
    {
      hide Rows, Size, Represents, Valid, EnumField.Valid;
      RepresentsKids(tree, t, repr);
      AppendNode(tree);
      var stack := tree.nodes;
      ghost var trees := t.nodes;
      RowsOfOne(t);
      while |stack| != 0
        invariant Valid() && |stack| == |trees|
        invariant forall i | 0 <= i < |stack| :: Represents(stack[i], trees[i], repr)
        invariant rows + Rows(trees) == old(rows) + Rows([t])
        decreases Size(trees)
      {
        RowsPop(rows, trees);
        RepresentsKids(stack[0], trees[0], repr);
        AppendNode(stack[0]);
        trees := trees[0].nodes + trees[1..];
        if stack[0].nodes != [] {
          stack := stack[0].nodes + stack[1..];
        } else {
          stack := stack[1..];
        }
      }
      assert trees == [];
      RowsEmpty();
    }

    // Reads the columns back and decodes the labels.
    method ToFlameData() returns (data: seq<Row>)
      requires Valid()
      ensures |data| == |rows|
      ensures data == rows <==> |labels.valuesMap| <= ENUM_LIMIT
    {
      var names := labels.Decode();
      data := [];
      for i := 0 to |levels|
        invariant |data| == i
        invariant forall j | 0 <= j < i :: data[j] == Row(levels[j], values[j], selfs[j], names[j])
      {
        data := data + [Row(levels[i], values[i], selfs[i], names[i])];
      }
      assert data == rows ==> names == labels.appended by {
        if data == rows {
          assert forall i | 0 <= i < |names| :: data[i] == rows[i];
        }
      }
    }
  }

  lemma RepresentsKids(n: ProfileTree, t: Tree, repr: set<ProfileTree>)
    requires Represents(n, t, repr)
    ensures n.AsBar() == t.bar && |n.nodes| == |t.nodes|
    ensures forall i | 0 <= i < |t.nodes| :: Represents(n.nodes[i], t.nodes[i], repr)
  {
  }

  lemma RowsOfOne(t: Tree)
    ensures Rows([t]) == [RowOf(t.bar)] + Rows(t.nodes)
  {
    assert Rows([t][1..]) == [];
  }

  // Replacing the first tree by its children visits its root and nothing else.
  lemma {:induction false} RowsPop(seen: seq<Row>, trees: seq<Tree>)
    requires trees != []
    ensures var rest := trees[0].nodes + trees[1..];
            seen + Rows(trees) == seen + [RowOf(trees[0].bar)] + Rows(rest) && Size(rest) < Size(trees)
  {
    RowsAppend(trees[0].nodes, trees[1..]);
    var head, kids, rest := RowOf(trees[0].bar), Rows(trees[0].nodes), Rows(trees[1..]);
    assert Rows(trees) == [head] + kids + rest;
    hide Rows;
    assert seen + ([head] + kids + rest) == seen + [head] + (kids + rest);
  }

  function Names(rows: seq<Row>): set<string> {
    set r | r in rows :: r.name
  }

  // Levels in, flame data out.
  method Flame(levels: seq<Level>, names: seq<string>) returns (data: seq<Row>)
    requires levels != [] ==> DecodeSafe(levels, names)
    ensures levels == [] ==> data == []
    ensures levels != [] ==>
              var rows := Rows([FlameGraph.Decode(levels, names)]);
              data == rows <==> |Names(rows)| <= ENUM_LIMIT
  {
    hide FlameGraph.Decode, DecodeSafe, Rows, Represents, Names;
    var tree, repr := LevelsToTree(levels, names);
    var frame := new NestedSetFrame();
    if tree != null {
      frame.WalkTree(tree, FlameGraph.Decode(levels, names), repr);
      LabelsUsed(frame);
      assert frame.rows == Rows([FlameGraph.Decode(levels, names)]);
    }
    data := frame.ToFlameData();
  }

  lemma LabelsUsed(frame: NestedSetFrame)
    requires frame.Valid()
    ensures |frame.labels.valuesMap| == |Names(frame.rows)|
  {
    var e := frame.labels;
    assert e.valuesMap.Keys == Names(frame.rows) by {
      forall s | s in e.valuesMap ensures exists r | r in frame.rows :: r.name == s {
        var k :| 0 <= k < |e.order| && e.order[k] == s;
        assert s in e.appended;
        var i :| 0 <= i < |e.appended| && e.appended[i] == s;
        assert frame.rows[i].name == s;
      }
    }
  }
}
