/** The column classifier: a dataset's schema is an ordered list of column
    descriptors, and the planner works on two ordered selections of it, the
    numerical columns (`select_dtypes(include=np.number)`) and the object
    (categorical) columns (`select_dtypes(include='object')`). */
module Columns {

  /** The dtype families the planner tells apart. Everything that is neither a
      number nor an object column (booleans, datetimes, categories) is `Other`. */
  datatype ColumnKind = Numeric | Object | Other

  datatype Column = Column(name: string, kind: ColumnKind)

  /** `df.columns`: every column name, in schema order. */
  function ColumnNames(columns: seq<Column>): seq<string>
  {
    seq(|columns|, i requires 0 <= i < |columns| => columns[i].name)
  }

  /** The positions, in schema order, of the columns of the given kind. */
  function IndicesOf(columns: seq<Column>, kind: ColumnKind): (idx: seq<nat>)
    ensures forall a :: 0 <= a < |idx| ==> idx[a] < |columns| && columns[idx[a]].kind == kind
    ensures forall a, b :: 0 <= a < b < |idx| ==> idx[a] < idx[b]
    ensures forall i :: 0 <= i < |columns| && columns[i].kind == kind ==> i in idx
  {
    if columns == [] then []
    else
      var rest := IndicesOf(columns[..|columns| - 1], kind);
      if columns[|columns| - 1].kind == kind then rest + [|columns| - 1] else rest
  }

  /** The names of the columns of the given kind, keeping the schema order. */
  function Selected(columns: seq<Column>, kind: ColumnKind): seq<string>
  {
    var idx := IndicesOf(columns, kind);
    seq(|idx|, a requires 0 <= a < |idx| => columns[idx[a]].name)
  }

  function NumericalColumns(columns: seq<Column>): seq<string>
  {
    Selected(columns, Numeric)
  }

  function CategoricalColumns(columns: seq<Column>): seq<string>
  {
    Selected(columns, Object)
  }

  /** A name is selected exactly when some column of that kind carries it. */
  lemma SelectedMembership(columns: seq<Column>, kind: ColumnKind, name: string)
    ensures name in Selected(columns, kind) <==>
            exists i :: 0 <= i < |columns| && columns[i] == Column(name, kind)
  {
    var idx := IndicesOf(columns, kind);
    var sel := Selected(columns, kind);
    if name in sel {
      var a :| 0 <= a < |sel| && sel[a] == name;
      assert columns[idx[a]] == Column(name, kind);
    }
    if i :| 0 <= i < |columns| && columns[i] == Column(name, kind) {
      assert i in idx;
      var a :| 0 <= a < |idx| && idx[a] == i;
      assert sel[a] == name;
    }
  }

  /** Selecting from a schema with one more column at the end. */
  lemma SelectedSnoc(columns: seq<Column>, c: Column, kind: ColumnKind)
    ensures Selected(columns + [c], kind)
            == Selected(columns, kind) + (if c.kind == kind then [c.name] else [])
  {
    var all := columns + [c];
    assert all[..|all| - 1] == columns;
    var idx := IndicesOf(columns, kind);
    var sel := Selected(all, kind);
    var expected := Selected(columns, kind) + (if c.kind == kind then [c.name] else []);
    assert |sel| == |expected|;
    forall a | 0 <= a < |sel| ensures sel[a] == expected[a] {
      if a < |idx| {
        assert all[idx[a]] == columns[idx[a]];
      }
    }
  }

  /** Every column lands in exactly one of the three selections. */
  lemma {:induction false} PartitionSize(columns: seq<Column>)
    ensures |Selected(columns, Numeric)| + |Selected(columns, Object)| + |Selected(columns, Other)|
            == |columns|
  {
    if columns != [] {
      var init := columns[..|columns| - 1];
      var last := columns[|columns| - 1];
      assert columns == init + [last];
      PartitionSize(init);
      SelectedSnoc(init, last, Numeric);
      SelectedSnoc(init, last, Object);
      SelectedSnoc(init, last, Other);
    }
  }

  /** A column of some other kind, wherever it stands, adds nothing to a selection. */
  lemma {:induction false} SelectedSkipsOtherKinds(pre: seq<Column>, c: Column, post: seq<Column>, kind: ColumnKind)
    requires c.kind != kind
    ensures Selected(pre + [c] + post, kind) == Selected(pre + post, kind)
  {
    if post == [] {
      assert pre + [c] + post == pre + [c];
      assert pre + post == pre;
      SelectedSnoc(pre, c, kind);
    } else {
      var init := post[..|post| - 1];
      var last := post[|post| - 1];
      assert pre + [c] + post == (pre + [c] + init) + [last];
      assert pre + post == (pre + init) + [last];
      SelectedSkipsOtherKinds(pre, c, init, kind);
      SelectedSnoc(pre + [c] + init, last, kind);
      SelectedSnoc(pre + init, last, kind);
    }
  }
}
