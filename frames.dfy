/** The pandas data-frame operations the scripts use, as functions over a table value.
    A table has an index (one label per row, plus the index's name), column labels and
    a rectangular body of cells. */
module Frames {
  import opened Wrappers
  import opened Seqs
  import opened Cells
  import opened Dicts

  datatype Row = Row(index: Cell, cells: seq<Cell>)

  /** `indexName` is the index's `name` (`Null` for None). */
  datatype Table = Table(indexName: Cell, cols: seq<Cell>, rows: seq<Row>)

  /** Every row has one cell per column. */
  predicate Valid(t: Table) {
    forall i :: 0 <= i < |t.rows| ==> |t.rows[i].cells| == |t.cols|
  }

  /** The labels `0 .. n-1` that `reset_index` gives. */
  predicate DefaultIndex(t: Table) {
    forall i :: 0 <= i < |t.rows| ==> t.rows[i].index == Num(i)
  }

  // ---------------------------------------------------------------------------
  // dropna(axis=0, how='all') and dropna(axis=1, how='all')

  predicate RowAllNull(r: Row) {
    forall j :: 0 <= j < |r.cells| ==> IsNull(r.cells[j])
  }

  predicate ColumnAllNull(t: Table, j: nat)
    requires Valid(t) && j < |t.cols|
  {
    forall i :: 0 <= i < |t.rows| ==> IsNull(t.rows[i].cells[j])
  }

  /** `dropna(axis=0, how='all')`: the rows with a non-null cell, in order. */
  function DropNullRows(t: Table): (r: Table)
    requires Valid(t)
    ensures Valid(r) && r.cols == t.cols && r.indexName == t.indexName
    ensures forall i :: 0 <= i < |r.rows| ==> r.rows[i] in t.rows && !RowAllNull(r.rows[i])
    ensures forall i :: 0 <= i < |t.rows| && !RowAllNull(t.rows[i]) ==> t.rows[i] in r.rows
  {
    t.(rows := Filter(t.rows, (row: Row) => !RowAllNull(row)))
  }

  /** Positions `from ..` of the columns that hold a non-null cell, increasing. */
  function NonNullColumns(t: Table, from: nat): (ks: seq<nat>)
    requires Valid(t) && from <= |t.cols|
    ensures forall k :: 0 <= k < |ks| ==> from <= ks[k] < |t.cols| && !ColumnAllNull(t, ks[k])
    ensures forall j :: from <= j < |t.cols| && !ColumnAllNull(t, j) ==> j in ks
    ensures forall a, b :: 0 <= a < b < |ks| ==> ks[a] < ks[b]
    decreases |t.cols| - from
  {
    if from == |t.cols| then []
    else
      var rest := NonNullColumns(t, from + 1);
      if ColumnAllNull(t, from) then rest else [from] + rest
  }

  /** The columns at positions `ks`, in that order. */
  function SelectColumns(t: Table, ks: seq<nat>): (r: Table)
    requires Valid(t) && forall k :: 0 <= k < |ks| ==> ks[k] < |t.cols|
    ensures Valid(r) && |r.cols| == |ks| && |r.rows| == |t.rows| && r.indexName == t.indexName
    ensures forall k :: 0 <= k < |ks| ==> r.cols[k] == t.cols[ks[k]]
    ensures forall i :: 0 <= i < |t.rows| ==> r.rows[i].index == t.rows[i].index
    ensures forall i, k :: 0 <= i < |t.rows| && 0 <= k < |ks| ==>
      r.rows[i].cells[k] == t.rows[i].cells[ks[k]]
    ensures Distinct(t.cols) && (forall a, b :: 0 <= a < b < |ks| ==> ks[a] < ks[b]) ==> Distinct(r.cols)
  {
    Table(t.indexName,
      seq(|ks|, k requires 0 <= k < |ks| => t.cols[ks[k]]),
      seq(|t.rows|, i requires 0 <= i < |t.rows| =>
        Row(t.rows[i].index, seq(|ks|, k requires 0 <= k < |ks| => t.rows[i].cells[ks[k]]))))
  }

  /** `dropna(axis=1, how='all')`. */
  function DropNullColumns(t: Table): (r: Table)
    requires Valid(t)
    ensures Valid(r) && |r.rows| == |t.rows|
    ensures Distinct(t.cols) ==> Distinct(r.cols)
  {
    SelectColumns(t, NonNullColumns(t, 0))
  }

  /** The two `dropna` calls in the order the scripts make them. */
  function DropNull(t: Table): (r: Table)
    requires Valid(t)
    ensures Valid(r)
    ensures Distinct(t.cols) ==> Distinct(r.cols)
  {
    DropNullColumns(DropNullRows(t))
  }

  /** After both `dropna` calls no row is entirely null. */
  lemma DropNullNoNullRow(t: Table)
    requires Valid(t)
    ensures forall i :: 0 <= i < |DropNull(t).rows| ==> !RowAllNull(DropNull(t).rows[i])
  {
    var t1 := DropNullRows(t);
    var ks := NonNullColumns(t1, 0);
    var r := SelectColumns(t1, ks);
    assert DropNull(t) == r;
    forall i | 0 <= i < |r.rows| ensures !RowAllNull(r.rows[i]) {
      SelectedRowNotNull(t1, ks, i);
    }
  }

  /** A row with a non-null cell keeps one when only the non-null columns are selected. */
  lemma SelectedRowNotNull(t: Table, ks: seq<nat>, i: nat)
    requires Valid(t) && ks == NonNullColumns(t, 0) && i < |t.rows| && !RowAllNull(t.rows[i])
    ensures !RowAllNull(SelectColumns(t, ks).rows[i])
  {
    var r := SelectColumns(t, ks);
    var j :| 0 <= j < |t.rows[i].cells| && !IsNull(t.rows[i].cells[j]);
    assert !ColumnAllNull(t, j);
    var k :| 0 <= k < |ks| && ks[k] == j;
    assert r.rows[i].cells[k] == t.rows[i].cells[j];
  }

  /** After both `dropna` calls no column is entirely null. */
  lemma DropNullNoNullColumn(t: Table)
    requires Valid(t)
    ensures forall k :: 0 <= k < |DropNull(t).cols| ==> !ColumnAllNull(DropNull(t), k)
  {
    var t1 := DropNullRows(t);
    var ks := NonNullColumns(t1, 0);
    var r := SelectColumns(t1, ks);
    assert DropNull(t) == r;
    forall k | 0 <= k < |r.cols| ensures !ColumnAllNull(r, k) {
      assert !ColumnAllNull(t1, ks[k]);
      var i :| 0 <= i < |t1.rows| && !IsNull(t1.rows[i].cells[ks[k]]);
      assert !IsNull(r.rows[i].cells[k]);
    }
  }

  /** Both `dropna` calls keep every non-null cell, under its original row and column labels. */
  lemma DropNullKeepsCells(t: Table, i: nat, j: nat)
    requires Valid(t) && i < |t.rows| && j < |t.cols| && !IsNull(t.rows[i].cells[j])
    ensures var r := DropNull(t);
      exists i', k ::
        && 0 <= i' < |r.rows| && 0 <= k < |r.cols|
        && r.rows[i'].index == t.rows[i].index && r.cols[k] == t.cols[j]
        && r.rows[i'].cells[k] == t.rows[i].cells[j]
  {
    var t1 := DropNullRows(t);
    var ks := NonNullColumns(t1, 0);
    var r := SelectColumns(t1, ks);
    assert DropNull(t) == r;
    assert !RowAllNull(t.rows[i]);
    assert t.rows[i] in t1.rows;
    var i' :| 0 <= i' < |t1.rows| && t1.rows[i'] == t.rows[i];
    assert !ColumnAllNull(t1, j);
    var k :| 0 <= k < |ks| && ks[k] == j;
    assert r.rows[i'].cells[k] == t.rows[i].cells[j];
  }

  // ---------------------------------------------------------------------------
  // transpose, reset_index, drop

  /** `df.T`: row labels become column labels and back. The column axis carries no name
      in any frame read here, so the transposed index has none either. */
  function Transpose(t: Table): (r: Table)
    requires Valid(t)
    ensures Valid(r) && |r.rows| == |t.cols| && |r.cols| == |t.rows| && r.indexName == Null
    ensures forall i :: 0 <= i < |t.rows| ==> r.cols[i] == t.rows[i].index
    ensures forall j :: 0 <= j < |t.cols| ==> r.rows[j].index == t.cols[j]
    ensures forall i, j :: 0 <= i < |t.rows| && 0 <= j < |t.cols| ==>
      r.rows[j].cells[i] == t.rows[i].cells[j]
  {
    Table(Null,
      seq(|t.rows|, i requires 0 <= i < |t.rows| => t.rows[i].index),
      seq(|t.cols|, j requires 0 <= j < |t.cols| =>
        Row(t.cols[j], seq(|t.rows|, i requires 0 <= i < |t.rows| => t.rows[i].cells[j]))))
  }

  /** Transposing twice gives back the table. */
  lemma TransposeTwice(t: Table)
    requires Valid(t) && t.indexName == Null
    ensures Transpose(Transpose(t)) == t
  {
    var r := Transpose(Transpose(t));
    assert r.cols == t.cols;
    forall i | 0 <= i < |t.rows| ensures r.rows[i] == t.rows[i] {
      assert r.rows[i].cells == t.rows[i].cells;
    }
    assert r.rows == t.rows;
  }

  /** The label `reset_index()` gives the column it inserts: the index's name, or
      "index", or "level_0" when "index" is already a column. */
  function InsertedLabel(t: Table): Cell {
    if t.indexName != Null then t.indexName
    else if Str("index") in t.cols then Str("level_0")
    else Str("index")
  }

  /** `reset_index()`: the index becomes the first column and the rows are relabelled
      0 .. n-1; inserting a label that is already a column raises `ValueError`. */
  function ResetIndex(t: Table): (r: Result<Table>)
    requires Valid(t)
    ensures r.Err? <==> InsertedLabel(t) in t.cols
    ensures r.Err? ==> r.error == ValueError
    ensures r.Ok? ==> var u := r.value;
      && Valid(u) && DefaultIndex(u) && u.indexName == Null
      && u.cols == [InsertedLabel(t)] + t.cols && |u.rows| == |t.rows|
      && forall i :: 0 <= i < |t.rows| ==> u.rows[i].cells == [t.rows[i].index] + t.rows[i].cells
  {
    var name := InsertedLabel(t);
    if name in t.cols then Err(ValueError)
    else Ok(Table(Null, [name] + t.cols,
      seq(|t.rows|, i requires 0 <= i < |t.rows| => Row(Num(i), [t.rows[i].index] + t.rows[i].cells))))
  }

  /** `reset_index(drop=True)`: relabel the rows 0 .. n-1 and keep everything else. */
  function ResetIndexDrop(t: Table): (r: Table)
    ensures DefaultIndex(r) && r.cols == t.cols && |r.rows| == |t.rows| && r.indexName == Null
    ensures forall i :: 0 <= i < |t.rows| ==> r.rows[i].cells == t.rows[i].cells
    ensures Valid(t) ==> Valid(r)
  {
    Table(Null, t.cols, seq(|t.rows|, i requires 0 <= i < |t.rows| => Row(Num(i), t.rows[i].cells)))
  }

  predicate HasLabel(t: Table, l: Cell) {
    exists i :: 0 <= i < |t.rows| && t.rows[i].index == l
  }

  /** `drop([l])`: remove the rows labelled `l`; `KeyError` when there is none. */
  function DropLabel(t: Table, l: Cell): (r: Result<Table>)
    requires Valid(t)
    ensures r.Err? <==> !HasLabel(t, l)
    ensures r.Err? ==> r.error == KeyError
    ensures r.Ok? ==> Valid(r.value) && r.value.cols == t.cols && r.value.indexName == t.indexName
    ensures r.Ok? ==> forall i :: 0 <= i < |r.value.rows| ==> r.value.rows[i] in t.rows && r.value.rows[i].index != l
    ensures r.Ok? ==> forall i :: 0 <= i < |t.rows| && t.rows[i].index != l ==> t.rows[i] in r.value.rows
  {
    if !HasLabel(t, l) then Err(KeyError)
    else Ok(t.(rows := Filter(t.rows, (row: Row) => row.index != l)))
  }

  /** On a default index of at least two rows, dropping label 1 removes exactly the
      second row. */
  lemma DropSecondRow(t: Table)
    requires Valid(t) && DefaultIndex(t) && |t.rows| >= 2
    ensures DropLabel(t, Num(1)).Ok?
    ensures DropLabel(t, Num(1)).value.rows == [t.rows[0]] + t.rows[2..]
  {
    assert HasLabel(t, Num(1)) by { assert t.rows[1].index == Num(1); }
    var p := (row: Row) => row.index != Num(1);
    assert t.rows == [t.rows[0]] + [t.rows[1]] + t.rows[2..];
    FilterConcat([t.rows[0]] + [t.rows[1]], t.rows[2..], p);
    FilterConcat([t.rows[0]], [t.rows[1]], p);
    assert Filter([t.rows[0]], p) == [t.rows[0]] by { assert p(t.rows[0]); assert [t.rows[0]][1..] == []; }
    assert Filter([t.rows[1]], p) == [] by { assert !p(t.rows[1]); assert [t.rows[1]][1..] == []; }
    forall i | 0 <= i < |t.rows[2..]| ensures p(t.rows[2..][i]) {
      assert t.rows[2..][i].index == Num(i + 2);
    }
    FilterAll(t.rows[2..], p);
  }

  // ---------------------------------------------------------------------------
  // columns addressed by name

  function RenameLabel(c: Cell, d: Dict): Cell {
    if c.Str? && HasKey(d, c.s) then Str(Get(d, c.s)) else c
  }

  /** `rename(columns=d)`: each string label that is a key of `d` becomes its value,
      every other label stays, the cells are untouched. */
  function Rename(t: Table, d: Dict): (r: Table)
    ensures |r.cols| == |t.cols| && r.rows == t.rows && r.indexName == t.indexName
    ensures forall j :: 0 <= j < |t.cols| ==> r.cols[j] == RenameLabel(t.cols[j], d)
    ensures Valid(t) ==> Valid(r)
  {
    t.(cols := seq(|t.cols|, j requires 0 <= j < |t.cols| => RenameLabel(t.cols[j], d)))
  }

  /** Column labels as strings (every frame of the spatial pipeline has string labels). */
  function Names(t: Table): (ns: seq<string>)
    ensures |ns| == |t.cols|
    ensures forall j :: 0 <= j < |t.cols| ==> ns[j] == LabelText(t.cols[j])
  {
    seq(|t.cols|, j requires 0 <= j < |t.cols| => LabelText(t.cols[j]))
  }

  function Labels(ns: seq<string>): (ls: seq<Cell>)
    ensures |ls| == |ns|
    ensures forall j :: 0 <= j < |ns| ==> ls[j] == Str(ns[j])
  {
    seq(|ns|, j requires 0 <= j < |ns| => Str(ns[j]))
  }

  predicate HasColumn(t: Table, n: string) {
    Str(n) in t.cols
  }

  function ColumnIndex(t: Table, n: string): (j: nat)
    requires HasColumn(t, n)
    ensures j < |t.cols| && t.cols[j] == Str(n)
  {
    FirstIndex(t.cols, Str(n))
  }

  /** `df[n]`, the cells of column `n`. */
  function Column(t: Table, n: string): (vs: seq<Cell>)
    requires Valid(t) && HasColumn(t, n)
    ensures |vs| == |t.rows|
    ensures forall i :: 0 <= i < |t.rows| ==> vs[i] == t.rows[i].cells[ColumnIndex(t, n)]
  {
    var j := ColumnIndex(t, n);
    seq(|t.rows|, i requires 0 <= i < |t.rows| => t.rows[i].cells[j])
  }

  /** `df[n] = vs`: overwrite column `n` where it is, or append it as the last column. */
  function SetColumn(t: Table, n: string, vs: seq<Cell>): (r: Table)
    requires Valid(t) && Distinct(t.cols) && |vs| == |t.rows|
    ensures Valid(r) && Distinct(r.cols) && HasColumn(r, n) && |r.rows| == |t.rows|
    ensures r.cols == if HasColumn(t, n) then t.cols else t.cols + [Str(n)]
    ensures r.indexName == t.indexName
    ensures forall i :: 0 <= i < |t.rows| ==> r.rows[i].index == t.rows[i].index
    ensures Column(r, n) == vs
    ensures forall i, j :: 0 <= i < |t.rows| && 0 <= j < |t.cols| && t.cols[j] != Str(n) ==>
      r.rows[i].cells[j] == t.rows[i].cells[j]
  {
    if HasColumn(t, n) then
      var j := ColumnIndex(t, n);
      var r := t.(rows := seq(|t.rows|, i requires 0 <= i < |t.rows| =>
        Row(t.rows[i].index, t.rows[i].cells[j := vs[i]])));
      assert ColumnIndex(r, n) == j by {
        forall k | 0 <= k < j ensures r.cols[k] != Str(n) { assert t.cols[k] != Str(n); }
      }
      r
    else
      var r := Table(t.indexName, t.cols + [Str(n)], seq(|t.rows|, i requires 0 <= i < |t.rows| =>
        Row(t.rows[i].index, t.rows[i].cells + [vs[i]])));
      assert ColumnIndex(r, n) == |t.cols| by {
        forall k | 0 <= k < |t.cols| ensures r.cols[k] != Str(n) { assert r.cols[k] == t.cols[k]; }
      }
      r
  }

  /** `df[n] = c` for a scalar `c`. */
  function SetConstant(t: Table, n: string, c: Cell): (r: Table)
    requires Valid(t) && Distinct(t.cols)
    ensures Valid(r) && Distinct(r.cols) && HasColumn(r, n) && |r.rows| == |t.rows|
    ensures r.cols == if HasColumn(t, n) then t.cols else t.cols + [Str(n)]
    ensures forall i :: 0 <= i < |r.rows| ==> r.rows[i].cells[ColumnIndex(r, n)] == c
    ensures forall i, j :: 0 <= i < |t.rows| && 0 <= j < |t.cols| && t.cols[j] != Str(n) ==>
      r.rows[i].cells[j] == t.rows[i].cells[j]
  {
    var r := SetColumn(t, n, seq(|t.rows|, i requires 0 <= i < |t.rows| => c));
    assert forall i :: 0 <= i < |r.rows| ==> Column(r, n)[i] == c;
    r
  }

  /** `df[n].apply(f)` written back to column `n`. */
  function MapColumn(t: Table, n: string, f: Cell -> Cell): (r: Table)
    requires Valid(t) && Distinct(t.cols) && HasColumn(t, n)
    ensures Valid(r) && Distinct(r.cols) && r.cols == t.cols && |r.rows| == |t.rows|
    ensures forall i :: 0 <= i < |t.rows| ==>
      r.rows[i].cells[ColumnIndex(t, n)] == f(t.rows[i].cells[ColumnIndex(t, n)])
    ensures forall i, j :: 0 <= i < |t.rows| && 0 <= j < |t.cols| && t.cols[j] != Str(n) ==>
      r.rows[i].cells[j] == t.rows[i].cells[j]
  {
    var col := Column(t, n);
    var r := SetColumn(t, n, seq(|t.rows|, i requires 0 <= i < |t.rows| => f(col[i])));
    assert forall i :: 0 <= i < |r.rows| ==> Column(r, n)[i] == f(col[i]);
    r
  }

  /** `drop(columns=[n])` for a column that is present. */
  function DropColumn(t: Table, n: string): (r: Table)
    requires Valid(t) && Distinct(t.cols) && HasColumn(t, n)
    ensures Valid(r) && Distinct(r.cols) && !HasColumn(r, n) && |r.rows| == |t.rows|
    ensures r.cols == t.cols[..ColumnIndex(t, n)] + t.cols[ColumnIndex(t, n) + 1..]
    ensures r.indexName == t.indexName
    ensures forall i :: 0 <= i < |t.rows| ==> r.rows[i].index == t.rows[i].index
    ensures forall i, k :: 0 <= i < |t.rows| && 0 <= k < |r.cols| ==>
      r.rows[i].cells[k] == t.rows[i].cells[if k < ColumnIndex(t, n) then k else k + 1]
  {
    var j := ColumnIndex(t, n);
    var r := Table(t.indexName, t.cols[..j] + t.cols[j + 1..],
      seq(|t.rows|, i requires 0 <= i < |t.rows| => Row(t.rows[i].index, t.rows[i].cells[..j] + t.rows[i].cells[j + 1..])));
    assert forall k :: 0 <= k < |r.cols| ==> r.cols[k] == if k < j then t.cols[k] else t.cols[k + 1];
    r
  }

  /** `df[ns]`: the named columns in the order of `ns`; `KeyError` when one is missing.
      Repeated names would give repeated labels (`DuplicateLabels`). */
  function Project(t: Table, ns: seq<string>): (r: Result<Table>)
    requires Valid(t) && Distinct(t.cols)
    ensures r.Err? <==> (exists k :: 0 <= k < |ns| && !HasColumn(t, ns[k])) || !Distinct(ns)
    ensures r.Err? ==> r.error == (if exists k :: 0 <= k < |ns| && !HasColumn(t, ns[k]) then KeyError else DuplicateLabels)
    ensures r.Ok? ==> var u := r.value;
      && Valid(u) && Distinct(u.cols) && u.cols == Labels(ns) && |u.rows| == |t.rows|
      && (forall i :: 0 <= i < |t.rows| ==> u.rows[i].index == t.rows[i].index)
      && forall i, k :: 0 <= i < |t.rows| && 0 <= k < |ns| ==>
           u.rows[i].cells[k] == t.rows[i].cells[ColumnIndex(t, ns[k])]
  {
    if exists k :: 0 <= k < |ns| && !HasColumn(t, ns[k]) then Err(KeyError)
    else if !Distinct(ns) then Err(DuplicateLabels)
    else
      var ks := seq(|ns|, k requires 0 <= k < |ns| => ColumnIndex(t, ns[k]));
      var u := SelectColumns(t, ks);
      assert u.cols == Labels(ns);
      Ok(u)
  }

  /** Boolean indexing `df[mask]`: the rows satisfying `p`, in order. */
  function FilterRows(t: Table, p: Row -> bool): (r: Table)
    requires Valid(t)
    ensures Valid(r) && r.cols == t.cols && r.indexName == t.indexName
    ensures forall i :: 0 <= i < |r.rows| ==> r.rows[i] in t.rows && p(r.rows[i])
    ensures forall i :: 0 <= i < |t.rows| && p(t.rows[i]) ==> t.rows[i] in r.rows
  {
    t.(rows := Filter(t.rows, p))
  }

  /** A cell-wise `replace`. */
  function MapCells(t: Table, f: Cell -> Cell): (r: Table)
    requires Valid(t)
    ensures Valid(r) && r.cols == t.cols && |r.rows| == |t.rows| && r.indexName == t.indexName
    ensures forall i :: 0 <= i < |t.rows| ==> r.rows[i].index == t.rows[i].index
    ensures forall i, j :: 0 <= i < |t.rows| && 0 <= j < |t.cols| ==> r.rows[i].cells[j] == f(t.rows[i].cells[j])
  {
    t.(rows := seq(|t.rows|, i requires 0 <= i < |t.rows| =>
      Row(t.rows[i].index, seq(|t.rows[i].cells|, j requires 0 <= j < |t.rows[i].cells| => f(t.rows[i].cells[j])))))
  }

  /** `df.to_numpy()` as the tuples `execute_values` sends. */
  function Tuples(t: Table): (ts: seq<seq<Cell>>)
    ensures |ts| == |t.rows| && forall i :: 0 <= i < |t.rows| ==> ts[i] == t.rows[i].cells
  {
    seq(|t.rows|, i requires 0 <= i < |t.rows| => t.rows[i].cells)
  }

  /** With distinct labels, a column's position is the one place its label stands. */
  lemma ColumnIndexUnique(t: Table, n: string, j: nat)
    requires Distinct(t.cols) && j < |t.cols| && t.cols[j] == Str(n)
    ensures HasColumn(t, n) && ColumnIndex(t, n) == j
  {
  }

  /** Every cell of column `n` is `c`. */
  predicate ColumnIs(t: Table, n: string, c: Cell)
    requires Valid(t) && HasColumn(t, n)
  {
    forall i :: 0 <= i < |t.rows| ==> t.rows[i].cells[ColumnIndex(t, n)] == c
  }

  /** `Series.apply(f)` for an `f` that may raise: the first exception ends it. */
  function TryMapCells(vs: seq<Cell>, f: Cell -> Result<Cell>): (r: Result<seq<Cell>>)
    ensures r.Ok? <==> forall i :: 0 <= i < |vs| ==> f(vs[i]).Ok?
    ensures r.Ok? ==> |r.value| == |vs| && forall i :: 0 <= i < |vs| ==> r.value[i] == f(vs[i]).value
    ensures r.Err? ==> exists i :: 0 <= i < |vs| && f(vs[i]) == Err(r.error)
  {
    if vs == [] then Ok([])
    else
      match f(vs[0])
      case Err(e) => Err(e)
      case Ok(c) =>
        match TryMapCells(vs[1..], f)
        case Err(e) => Err(e)
        case Ok(rest) => Ok([c] + rest)
  }

  /** `df[n] = df[n].apply(f)` for an `f` that may raise. */
  function TryMapColumn(t: Table, n: string, f: Cell -> Result<Cell>): (r: Result<Table>)
    requires Valid(t) && Distinct(t.cols) && HasColumn(t, n)
    ensures r.Ok? <==> forall i :: 0 <= i < |t.rows| ==> f(Column(t, n)[i]).Ok?
    ensures r.Ok? ==> var u := r.value;
      && Valid(u) && Distinct(u.cols) && u.cols == t.cols && |u.rows| == |t.rows|
      && (forall i :: 0 <= i < |t.rows| ==> u.rows[i].index == t.rows[i].index)
      && (forall i :: 0 <= i < |t.rows| ==>
            && f(Column(t, n)[i]).Ok? && Column(t, n)[i] == t.rows[i].cells[ColumnIndex(t, n)]
            && u.rows[i].cells[ColumnIndex(t, n)] == f(t.rows[i].cells[ColumnIndex(t, n)]).value)
      && (forall i, j :: 0 <= i < |t.rows| && 0 <= j < |t.cols| && t.cols[j] != Str(n) ==>
            u.rows[i].cells[j] == t.rows[i].cells[j])
  {
    var vs :- TryMapCells(Column(t, n), f);
    var u := SetColumn(t, n, vs);
    assert forall i :: 0 <= i < |t.rows| ==> Column(u, n)[i] == vs[i];
    Ok(u)
  }

  /** The cells at column position `j`. */
  function ColumnAt(t: Table, j: nat): (vs: seq<Cell>)
    requires Valid(t) && j < |t.cols|
    ensures |vs| == |t.rows| && forall i :: 0 <= i < |t.rows| ==> vs[i] == t.rows[i].cells[j]
  {
    seq(|t.rows|, i requires 0 <= i < |t.rows| => t.rows[i].cells[j])
  }

  /** Writing a column's own cells back leaves the table as it was. */
  lemma SetColumnSame(t: Table, n: string, vs: seq<Cell>)
    requires Valid(t) && Distinct(t.cols) && HasColumn(t, n) && vs == Column(t, n)
    ensures SetColumn(t, n, vs) == t
  {
    var r := SetColumn(t, n, vs);
    var j := ColumnIndex(t, n);
    forall i | 0 <= i < |t.rows| ensures r.rows[i] == t.rows[i] {
      assert r.rows[i].cells[j] == Column(r, n)[i];
      assert r.rows[i].cells == t.rows[i].cells;
    }
    assert r.rows == t.rows;
  }
}
