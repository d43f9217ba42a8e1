/** `remap_and_export` of the spatial layer reader: the steps that turn one layer's frame
    into the rows loaded into its table, in the order the function takes them, and the
    push gate that decides whether the insert is issued. */
module SpatialNormaliser {
  import opened Wrappers
  import opened Seqs
  import opened Cells
  import opened Dicts
  import opened Frames
  import opened Catalog
  import opened SpatialValues

  /** A frame as the spatial pipeline handles it: rectangular, column labels unique. */
  predicate SpatialFrame(t: Table) {
    Valid(t) && Distinct(t.cols)
  }

  /** The survey visit given on the command line (`-r`, `-g`, `-v`). */
  datatype VisitKey = VisitKey(rmnId: string, grantId: string, visit: string)

  // ---------------------------------------------------------------------------
  // Columns added by later template versions

  function OptionalColumn(s: string): Option<string> {
    if s == "Photos" then Some("dams_link")
    else if s == "Area-level assessment" then Some("other_damage_notes")
    else None
  }

  /** `df[n] = df.get(n, pd.NA)`: the layer's optional column is added, all NaN, when the
      frame lacks it; a frame that has it, or a layer without one, is left as it is. */
  function Backfill(s: string, t: Table): (r: Table)
    requires SpatialFrame(t)
    ensures SpatialFrame(r) && |r.rows| == |t.rows| && r.indexName == t.indexName
    ensures OptionalColumn(s).None? ==> r == t
    ensures OptionalColumn(s).Some? ==> var n := OptionalColumn(s).value;
      && HasColumn(r, n)
      && (HasColumn(t, n) ==> r == t)
      && (!HasColumn(t, n) ==>
            && r.cols == t.cols + [Str(n)] && ColumnIs(r, n, Missing)
            && forall i, j :: 0 <= i < |t.rows| && 0 <= j < |t.cols| ==> r.rows[i].cells[j] == t.rows[i].cells[j])
  {
    match OptionalColumn(s)
    case None => t
    case Some(n) => if HasColumn(t, n) then t else SetConstant(t, n, Missing)
  }

  // ---------------------------------------------------------------------------
  // pd.to_datetime on the 'date' column

  /** One cell through `pd.to_datetime`: a date stays, a null becomes NaT, a boolean or a
      geometry is not convertible (`TypeError`), and anything else goes to the library
      parser `parse`, whose failure is a `ValueError`. */
  function DateCell(c: Cell, parse: Cell -> Option<(int, int)>): (r: Result<Cell>)
    ensures r.Ok? ==> r.value.Date? || r.value.Missing?
    ensures c.Date? ==> r == Ok(c)
    ensures IsNull(c) ==> r == Ok(Missing)
    ensures c.Bool? || c.Geom? ==> r == Err(TypeError)
    ensures r.Err? ==> (r.error == TypeError && (c.Bool? || c.Geom?)) || (r.error == ValueError && parse(c).None?)
  {
    if c.Date? then Ok(c)
    else if IsNull(c) then Ok(Missing)
    else if c.Bool? || c.Geom? then Err(TypeError)
    else
      match parse(c)
      case None => Err(ValueError)
      case Some(p) => Ok(Date(p.0, p.1))
  }

  /** The 'date' column holds dates and NaT only (what the `.dt` accessor accepts). */
  predicate DatetimeColumn(t: Table)
    requires Valid(t) && HasColumn(t, "date")
  {
    forall i :: 0 <= i < |t.rows| ==> Column(t, "date")[i].Date? || Column(t, "date")[i].Missing?
  }

  function ToDatetime(t: Table, parse: Cell -> Option<(int, int)>): (r: Result<Table>)
    requires SpatialFrame(t)
    ensures !HasColumn(t, "date") ==> r == Ok(t)
    ensures HasColumn(t, "date") ==>
      (r.Ok? <==> forall i :: 0 <= i < |t.rows| ==> DateCell(Column(t, "date")[i], parse).Ok?)
    ensures r.Err? ==>
      HasColumn(t, "date") && exists i :: 0 <= i < |t.rows| && DateCell(Column(t, "date")[i], parse) == Err(r.error)
    ensures r.Err? ==> r.error == ValueError || r.error == TypeError
    ensures r.Ok? ==> SpatialFrame(r.value) && r.value.cols == t.cols && |r.value.rows| == |t.rows|
    ensures r.Ok? && HasColumn(t, "date") ==> DatetimeColumn(r.value)
    ensures r.Ok? ==> forall i, j :: 0 <= i < |t.rows| && 0 <= j < |t.cols| && t.cols[j] != Str("date") ==>
      r.value.rows[i].cells[j] == t.rows[i].cells[j]
  {
    if !HasColumn(t, "date") then Ok(t)
    else
      var r := TryMapColumn(t, "date", (c: Cell) => DateCell(c, parse));
      assert r.Err? ==> exists i :: 0 <= i < |t.rows| && DateCell(Column(t, "date")[i], parse) == Err(r.error) by {
        if r.Err? {
          var i :| 0 <= i < |t.rows| && !DateCell(Column(t, "date")[i], parse).Ok?;
          var e :| TryMapCells(Column(t, "date"), (c: Cell) => DateCell(c, parse)) == Err(e);
        }
      }
      r
  }

  // ---------------------------------------------------------------------------
  // Keeping the latest year of the sampling points

  /** Some date in `vs` falls in year `y`. */
  predicate YearOfSomeDate(vs: seq<Cell>, y: int) {
    exists k :: 0 <= k < |vs| && vs[k].Date? && vs[k].year == y
  }

  /** The years of the dates in `vs`, one per date, in order (NaT has none). */
  function DateYears(vs: seq<Cell>): (ys: seq<int>)
    ensures forall i :: 0 <= i < |ys| ==> YearOfSomeDate(vs, ys[i])
    ensures forall k :: 0 <= k < |vs| && vs[k].Date? ==> vs[k].year in ys
  {
    if vs == [] then []
    else
      var tail := vs[1..];
      var rest := DateYears(tail);
      var ys := (if vs[0].Date? then [vs[0].year] else []) + rest;
      DateYearsStep(vs, tail, rest, ys);
      ys
  }

  /** One step of `DateYears`: what holds of the tail's years holds of the whole. */
  lemma DateYearsStep(vs: seq<Cell>, tail: seq<Cell>, rest: seq<int>, ys: seq<int>)
    requires vs != [] && tail == vs[1..] && ys == (if vs[0].Date? then [vs[0].year] else []) + rest
    requires forall i :: 0 <= i < |rest| ==> YearOfSomeDate(tail, rest[i])
    requires forall k :: 0 <= k < |tail| && tail[k].Date? ==> tail[k].year in rest
    ensures forall i :: 0 <= i < |ys| ==> YearOfSomeDate(vs, ys[i])
    ensures forall k :: 0 <= k < |vs| && vs[k].Date? ==> vs[k].year in ys
  {
    forall i | 0 <= i < |ys| ensures YearOfSomeDate(vs, ys[i]) {
      if vs[0].Date? && i == 0 {
        assert vs[0].year == ys[i];
      } else {
        var i' := if vs[0].Date? then i - 1 else i;
        assert ys[i] == rest[i'];
        assert YearOfSomeDate(tail, rest[i']);
        var j :| 0 <= j < |tail| && tail[j].Date? && tail[j].year == rest[i'];
        assert vs[j + 1] == tail[j];
      }
    }
    forall k | 0 <= k < |vs| && vs[k].Date? ensures vs[k].year in ys {
      if k == 0 {
        assert ys[0] == vs[0].year;
      } else {
        assert tail[k - 1] == vs[k];
        assert vs[k].year in rest;
        var p :| 0 <= p < |rest| && rest[p] == vs[k].year;
        assert ys[|ys| - |rest| + p] == rest[p];
      }
    }
  }

  function MaxOf(ys: seq<int>): (m: int)
    requires ys != []
    ensures m in ys && forall k :: 0 <= k < |ys| ==> ys[k] <= m
  {
    if |ys| == 1 then ys[0]
    else
      var m := MaxOf(ys[1..]);
      if ys[0] > m then ys[0] else m
  }

  /** `df['date'].dt.year` on one cell: NaT has no year (NaN). */
  function YearCell(c: Cell): Cell {
    if c.Date? then Num(c.year) else Missing
  }

  /** `df['year'].nunique()`: NaN is not counted. */
  function YearCount(t: Table): nat
    requires Valid(t) && HasColumn(t, "date")
  {
    |Unique(DateYears(Column(t, "date")))|
  }

  /** `df['year'].max()`. */
  function LatestYear(t: Table): int
    requires Valid(t) && HasColumn(t, "date") && YearCount(t) > 0
  {
    MaxOf(Unique(DateYears(Column(t, "date"))))
  }

  /** The rows whose date (at position `dj`) falls in year `y`. */
  function InYear(dj: nat, y: int): Row -> bool {
    (row: Row) => dj < |row.cells| && row.cells[dj].Date? && row.cells[dj].year == y
  }

  function YearColumn(t: Table): (ys: seq<Cell>)
    requires Valid(t) && HasColumn(t, "date")
    ensures |ys| == |t.rows| && forall i :: 0 <= i < |t.rows| ==> ys[i] == YearCell(Column(t, "date")[i])
  {
    seq(|t.rows|, i requires 0 <= i < |t.rows| => YearCell(Column(t, "date")[i]))
  }

  /** Lines 223-235, step by step: a working 'year' column is set from the dates; with one
      distinct year it is dropped; with more, the rows of the latest year are kept and then
      it is dropped; with none (every date NaT, or no rows) it stays. */
  function KeepLatestYear(t: Table): (r: Result<Table>)
    requires SpatialFrame(t)
    ensures !HasColumn(t, "date") ==> r == Err(KeyError)
    ensures HasColumn(t, "date") ==> (r.Ok? <==> DatetimeColumn(t))
    ensures r.Err? ==> r.error == KeyError || r.error == AttributeError
    ensures r.Ok? ==> HasColumn(t, "date") && SpatialFrame(r.value)
    ensures r.Ok? ==> (HasColumn(r.value, "year") <==> YearCount(t) == 0)
    ensures r.Ok? && YearCount(t) == 0 ==> |r.value.rows| == |t.rows| && ColumnIs(r.value, "year", Missing)
    ensures r.Ok? && YearCount(t) == 1 ==> |r.value.rows| == |t.rows|
  {
    if !HasColumn(t, "date") then Err(KeyError)
    else if !DatetimeColumn(t) then Err(AttributeError)
    else
      var ys := YearColumn(t);
      var t1 := SetColumn(t, "year", ys);
      var years := Unique(DateYears(Column(t, "date")));
      if |years| == 0 then
        assert ColumnIs(t1, "year", Missing) by {
          forall i | 0 <= i < |t1.rows| ensures t1.rows[i].cells[ColumnIndex(t1, "year")] == Missing {
            assert Column(t1, "year")[i] == ys[i];
            if Column(t, "date")[i].Date? {
              assert false;
            }
          }
        }
        Ok(t1)
      else if |years| == 1 then
        Ok(DropColumn(t1, "year"))
      else
        var m := MaxOf(years);
        var yj := ColumnIndex(t1, "year");
        var t2 := FilterRows(t1, (row: Row) => yj < |row.cells| && row.cells[yj] == Num(m));
        Ok(DropColumn(t2, "year"))
  }

  /** Dropping a column that was appended last gives back the rows it was appended to. */
  lemma DropAppendedColumn(u: Table, t: Table, n: string, rows: seq<Row>)
    requires Valid(u) && Distinct(u.cols) && u.cols == t.cols + [Str(n)] && u.indexName == t.indexName
    requires |u.rows| == |rows|
    requires forall i :: 0 <= i < |rows| ==>
      u.rows[i].index == rows[i].index && u.rows[i].cells[..|t.cols|] == rows[i].cells
    ensures HasColumn(u, n) && DropColumn(u, n) == Table(t.indexName, t.cols, rows)
  {
    ColumnIndexUnique(u, n, |t.cols|);
    var r := DropColumn(u, n);
    assert r.cols == t.cols;
    forall i | 0 <= i < |rows| ensures r.rows[i] == rows[i] {
      assert r.rows[i].cells == u.rows[i].cells[..|t.cols|];
    }
  }

  /** The working column leaves the frame as it was, cell by cell, plus the year. */
  lemma YearColumnAppended(t: Table)
    requires SpatialFrame(t) && HasColumn(t, "date") && !HasColumn(t, "year")
    ensures var t1 := SetColumn(t, "year", YearColumn(t));
      && t1.cols == t.cols + [Str("year")] && ColumnIndex(t1, "year") == |t.cols|
      && forall i :: 0 <= i < |t.rows| ==>
           t1.rows[i] == Row(t.rows[i].index, t.rows[i].cells + [YearCell(t.rows[i].cells[ColumnIndex(t, "date")])])
  {
    var t1 := SetColumn(t, "year", YearColumn(t));
    ColumnIndexUnique(t1, "year", |t.cols|);
    forall i | 0 <= i < |t.rows|
      ensures t1.rows[i] == Row(t.rows[i].index, t.rows[i].cells + [YearCell(t.rows[i].cells[ColumnIndex(t, "date")])])
    {
      assert Column(t1, "year")[i] == YearColumn(t)[i];
      assert t1.rows[i].cells == t.rows[i].cells + [YearCell(t.rows[i].cells[ColumnIndex(t, "date")])];
    }
  }

  /** With a single distinct year the frame keeps every row and comes out unchanged. */
  lemma {:induction false} KeepLatestYearSingle(t: Table)
    requires SpatialFrame(t) && HasColumn(t, "date") && !HasColumn(t, "year") && DatetimeColumn(t)
    requires YearCount(t) == 1
    ensures KeepLatestYear(t) == Ok(t)
  {
    var t1 := SetColumn(t, "year", YearColumn(t));
    YearColumnAppended(t);
    forall i | 0 <= i < |t.rows| ensures t1.rows[i].cells[..|t.cols|] == t.rows[i].cells {
      assert (t.rows[i].cells + [YearCell(t.rows[i].cells[ColumnIndex(t, "date")])])[..|t.cols|] == t.rows[i].cells;
    }
    DropAppendedColumn(t1, t, "year", t.rows);
  }

  /** With several distinct years exactly the rows dated in the latest one are kept, in
      order, and nothing else of the frame changes. */
  lemma {:induction false} KeepLatestYearLatest(t: Table)
    requires SpatialFrame(t) && HasColumn(t, "date") && !HasColumn(t, "year") && DatetimeColumn(t)
    requires YearCount(t) > 1
    ensures KeepLatestYear(t) == Ok(FilterRows(t, InYear(ColumnIndex(t, "date"), LatestYear(t))))
  {
    LatestRowsKept(t, LatestYear(t));
  }

  /** Keeping the rows whose working year is `m` and dropping the working column keeps the
      rows dated in `m`, unchanged and in order. */
  lemma LatestRowsKept(t: Table, m: int)
    requires SpatialFrame(t) && HasColumn(t, "date") && !HasColumn(t, "year")
    ensures var t1 := SetColumn(t, "year", YearColumn(t)); var yj := ColumnIndex(t1, "year");
      var t2 := FilterRows(t1, (row: Row) => yj < |row.cells| && row.cells[yj] == Num(m));
      HasColumn(t2, "year") && DropColumn(t2, "year") == FilterRows(t, InYear(ColumnIndex(t, "date"), m))
  {
    var dj := ColumnIndex(t, "date");
    var t1 := SetColumn(t, "year", YearColumn(t));
    YearColumnAppended(t);
    var yj := |t.cols|;
    var p := (row: Row) => yj < |row.cells| && row.cells[yj] == Num(m);
    var q := InYear(dj, m);
    var ext := (row: Row) =>
      Row(row.index, row.cells + [YearCell(if dj < |row.cells| then row.cells[dj] else Missing)]);
    assert t1.rows == Map(t.rows, ext);
    forall i | 0 <= i < |t.rows| ensures p(ext(t.rows[i])) == q(t.rows[i]) {
      assert |t.rows[i].cells| == yj;
    }
    FilterMap(t.rows, ext, p, q);
    var kept := Filter(t.rows, q);
    var t2 := FilterRows(t1, p);
    assert t2.rows == Map(kept, ext);
    forall i | 0 <= i < |kept| ensures t2.rows[i].index == kept[i].index && t2.rows[i].cells[..yj] == kept[i].cells {
      assert kept[i] in t.rows;
      assert |kept[i].cells| == yj;
      assert t2.rows[i] == ext(kept[i]);
    }
    DropAppendedColumn(t2, t, "year", kept);
  }

  // ---------------------------------------------------------------------------
  // Projection onto the mapping's target columns

  /** `df = df[list(rename_mapping.values())]` inside its `try`: a missing column raises
      `KeyError`, which the `except` swallows, and the frame goes on unprojected. */
  function ProjectOrKeep(t: Table, ns: seq<string>): (r: Result<Table>)
    requires SpatialFrame(t)
    ensures (exists k :: 0 <= k < |ns| && !HasColumn(t, ns[k])) ==> r == Ok(t)
    ensures (forall k :: 0 <= k < |ns| ==> HasColumn(t, ns[k])) && !Distinct(ns) ==> r == Err(DuplicateLabels)
    ensures (forall k :: 0 <= k < |ns| ==> HasColumn(t, ns[k])) && Distinct(ns) ==> r.Ok? && r.value.cols == Labels(ns)
    ensures r.Ok? ==> SpatialFrame(r.value) && |r.value.rows| == |t.rows|
  {
    match Project(t, ns)
    case Ok(u) => Ok(u)
    case Err(e) => if e == KeyError then Ok(t) else Err(e)
  }

  // ---------------------------------------------------------------------------
  // Visit key columns

  const KeyNames: seq<string> := ["rmn_id", "grant_id", "visit"]

  /** The key column labels a frame does not have yet, in the order they are assigned. */
  function MissingKeys(t: Table): seq<Cell> {
    (if HasColumn(t, "rmn_id") then [] else [Str("rmn_id")])
    + (if HasColumn(t, "grant_id") then [] else [Str("grant_id")])
    + (if HasColumn(t, "visit") then [] else [Str("visit")])
  }

  predicate IsKeyLabel(c: Cell) {
    c == Str("rmn_id") || c == Str("grant_id") || c == Str("visit")
  }

  /** `df[n] = c`, one key column. */
  function AddKey(t: Table, n: string, c: Cell): (r: Table)
    requires SpatialFrame(t)
    ensures SpatialFrame(r) && |r.rows| == |t.rows|
    ensures r.cols == t.cols + (if HasColumn(t, n) then [] else [Str(n)])
    ensures HasColumn(r, n) && ColumnIs(r, n, c)
    ensures forall i, j :: 0 <= i < |t.rows| && 0 <= j < |t.cols| && t.cols[j] != Str(n) ==>
      r.rows[i].cells[j] == t.rows[i].cells[j]
  {
    SetConstant(t, n, c)
  }

  lemma AddKeyHas(t: Table, n: string, c: Cell, m: string)
    requires SpatialFrame(t) && m != n
    ensures HasColumn(AddKey(t, n, c), m) <==> HasColumn(t, m)
  {
    assert Str(m) != Str(n);
  }

  /** Setting column `n` leaves another column `m` where it was and as it was. */
  lemma AddKeyKeepsColumn(t: Table, n: string, c: Cell, m: string, v: Cell)
    requires SpatialFrame(t) && HasColumn(t, m) && m != n && ColumnIs(t, m, v)
    ensures var r := AddKey(t, n, c);
      HasColumn(r, m) && ColumnIndex(r, m) == ColumnIndex(t, m) && ColumnIs(r, m, v)
  {
    var r := AddKey(t, n, c);
    var j := ColumnIndex(t, m);
    assert r.cols[j] == Str(m);
    ColumnIndexUnique(r, m, j);
  }

  /** Lines 248-250: every row gets the three visit-key values, in columns that are
      overwritten where present and appended otherwise; no other cell changes. */
  function InjectKeys(t: Table, key: VisitKey): (r: Table)
    requires SpatialFrame(t)
    ensures SpatialFrame(r) && |r.rows| == |t.rows|
    ensures r.cols == t.cols + MissingKeys(t)
    ensures HasColumn(r, "rmn_id") && HasColumn(r, "grant_id") && HasColumn(r, "visit")
    ensures ColumnIs(r, "rmn_id", Str(key.rmnId))
    ensures ColumnIs(r, "grant_id", Str(key.grantId))
    ensures ColumnIs(r, "visit", Str(key.visit))
    ensures forall i, j :: 0 <= i < |t.rows| && 0 <= j < |t.cols| && !IsKeyLabel(t.cols[j]) ==>
      r.rows[i].cells[j] == t.rows[i].cells[j]
  {
    var t1 := AddKey(t, "rmn_id", Str(key.rmnId));
    var t2 := AddKey(t1, "grant_id", Str(key.grantId));
    var r := AddKey(t2, "visit", Str(key.visit));
    KeyColumnsAppended(t, t1, t2, r, key);
    KeyCellsKept(t, t1, t2, r, key);
    KeyColumnsSet(t, t1, t2, r, key);
    r
  }

  /** One key column set: a cell under another label keeps its place and its value. */
  lemma AddKeyKeepsCell(t: Table, n: string, c: Cell, i: nat, j: nat)
    requires SpatialFrame(t) && i < |t.rows| && j < |t.cols| && t.cols[j] != Str(n)
    ensures var r := AddKey(t, n, c);
      j < |r.cols| && r.cols[j] == t.cols[j] && i < |r.rows| && r.rows[i].cells[j] == t.rows[i].cells[j]
  {
  }

  /** Appending each key label that is not there yet, in turn, appends `MissingKeys`. */
  lemma KeyLabelsChain(t: Table, c1: seq<Cell>, c2: seq<Cell>, c3: seq<Cell>)
    requires c1 == t.cols + (if Str("rmn_id") in t.cols then [] else [Str("rmn_id")])
    requires c2 == c1 + (if Str("grant_id") in c1 then [] else [Str("grant_id")])
    requires c3 == c2 + (if Str("visit") in c2 then [] else [Str("visit")])
    ensures c3 == t.cols + MissingKeys(t)
  {
    var a: seq<Cell> := if HasColumn(t, "rmn_id") then [] else [Str("rmn_id")];
    var b: seq<Cell> := if HasColumn(t, "grant_id") then [] else [Str("grant_id")];
    var c: seq<Cell> := if HasColumn(t, "visit") then [] else [Str("visit")];
    assert Str("grant_id") in c1 <==> Str("grant_id") in t.cols;
    assert Str("visit") in c2 <==> Str("visit") in t.cols;
    assert c2 == t.cols + a + b;
    assert MissingKeys(t) == a + b + c;
  }

  lemma KeyColumnsAppended(t: Table, t1: Table, t2: Table, r: Table, key: VisitKey)
    requires SpatialFrame(t)
    requires t1 == AddKey(t, "rmn_id", Str(key.rmnId))
    requires t2 == AddKey(t1, "grant_id", Str(key.grantId))
    requires r == AddKey(t2, "visit", Str(key.visit))
    ensures r.cols == t.cols + MissingKeys(t)
  {
    KeyLabelsChain(t, t1.cols, t2.cols, r.cols);
  }

  lemma KeyCellsKept(t: Table, t1: Table, t2: Table, r: Table, key: VisitKey)
    requires SpatialFrame(t)
    requires t1 == AddKey(t, "rmn_id", Str(key.rmnId))
    requires t2 == AddKey(t1, "grant_id", Str(key.grantId))
    requires r == AddKey(t2, "visit", Str(key.visit))
    ensures forall i, j :: 0 <= i < |t.rows| && 0 <= j < |t.cols| && !IsKeyLabel(t.cols[j]) ==>
      r.rows[i].cells[j] == t.rows[i].cells[j]
  {
    forall i, j | 0 <= i < |t.rows| && 0 <= j < |t.cols| && !IsKeyLabel(t.cols[j])
      ensures r.rows[i].cells[j] == t.rows[i].cells[j]
    {
      AddKeyKeepsCell(t, "rmn_id", Str(key.rmnId), i, j);
      AddKeyKeepsCell(t1, "grant_id", Str(key.grantId), i, j);
      AddKeyKeepsCell(t2, "visit", Str(key.visit), i, j);
    }
  }

  lemma KeyColumnsSet(t: Table, t1: Table, t2: Table, r: Table, key: VisitKey)
    requires SpatialFrame(t)
    requires t1 == AddKey(t, "rmn_id", Str(key.rmnId))
    requires t2 == AddKey(t1, "grant_id", Str(key.grantId))
    requires r == AddKey(t2, "visit", Str(key.visit))
    ensures HasColumn(r, "rmn_id") && HasColumn(r, "grant_id") && HasColumn(r, "visit")
    ensures ColumnIs(r, "rmn_id", Str(key.rmnId))
    ensures ColumnIs(r, "grant_id", Str(key.grantId))
    ensures ColumnIs(r, "visit", Str(key.visit))
  {
    AddKeyKeepsColumn(t1, "grant_id", Str(key.grantId), "rmn_id", Str(key.rmnId));
    AddKeyKeepsColumn(t2, "visit", Str(key.visit), "rmn_id", Str(key.rmnId));
    AddKeyKeepsColumn(t2, "visit", Str(key.visit), "grant_id", Str(key.grantId));
  }

  // ---------------------------------------------------------------------------
  // Blank strings and NaN to None

  /** Lines 253-254: every cell goes through `CleanCell`; labels and row order stay. */
  function NullifyBlanks(t: Table): (r: Table)
    requires SpatialFrame(t)
    ensures SpatialFrame(r) && r.cols == t.cols && |r.rows| == |t.rows|
    ensures forall i :: 0 <= i < |t.rows| ==> r.rows[i].index == t.rows[i].index
    ensures forall i, j :: 0 <= i < |t.rows| && 0 <= j < |t.cols| ==>
      r.rows[i].cells[j] == CleanCell(t.rows[i].cells[j])
  {
    MapCells(MapCells(t, BlankToNaN), NaNToNone)
  }

  // ---------------------------------------------------------------------------
  // Sampling-point and drain-point identifiers

  /** Line 269: every `sampling_point` value is padded by `modify_sampling_point`;
      a value that is not a string (`None` after the clean-up) has no `rsplit`. */
  function PadSamplingPoints(t: Table): (r: Result<Table>)
    requires SpatialFrame(t)
    ensures !HasColumn(t, "sampling_point") ==> r == Ok(t)
    ensures HasColumn(t, "sampling_point") ==>
      (r.Ok? <==> forall i :: 0 <= i < |t.rows| ==> Column(t, "sampling_point")[i].Str?)
    ensures r.Err? ==> r.error == AttributeError
    ensures r.Ok? ==> SpatialFrame(r.value) && r.value.cols == t.cols && |r.value.rows| == |t.rows|
    ensures r.Ok? && HasColumn(t, "sampling_point") ==> var j := ColumnIndex(t, "sampling_point");
      forall i :: 0 <= i < |t.rows| ==>
        t.rows[i].cells[j].Str? && r.value.rows[i].cells[j] == Str(ModifySamplingPoint(t.rows[i].cells[j].s))
    ensures r.Ok? ==> forall i, j :: 0 <= i < |t.rows| && 0 <= j < |t.cols| && t.cols[j] != Str("sampling_point") ==>
      r.value.rows[i].cells[j] == t.rows[i].cells[j]
  {
    if !HasColumn(t, "sampling_point") then Ok(t)
    else TryMapColumn(t, "sampling_point", PadCell)
  }

  /** Line 273: `drain_point` is rebuilt from `sampling_point`; without a `sampling_point`
      column that is a `KeyError`, a null gives NaN, and any other non-string value cannot
      be concatenated. */
  function RecomputeDrainPoints(t: Table): (r: Result<Table>)
    requires SpatialFrame(t)
    ensures !HasColumn(t, "drain_point") ==> r == Ok(t)
    ensures HasColumn(t, "drain_point") && !HasColumn(t, "sampling_point") ==> r == Err(KeyError)
    ensures HasColumn(t, "drain_point") && HasColumn(t, "sampling_point") ==>
      (r.Ok? <==> forall i :: 0 <= i < |t.rows| ==> Column(t, "sampling_point")[i].Str? || IsNull(Column(t, "sampling_point")[i]))
    ensures r.Err? ==> r.error == KeyError || r.error == TypeError
    ensures r.Ok? ==> SpatialFrame(r.value) && r.value.cols == t.cols && |r.value.rows| == |t.rows|
    ensures r.Ok? && HasColumn(t, "drain_point") ==>
      var sj := ColumnIndex(t, "sampling_point"); var dj := ColumnIndex(t, "drain_point");
      forall i :: 0 <= i < |t.rows| ==> r.value.rows[i].cells[dj] == DrainOf(t.rows[i].cells[sj])
    ensures r.Ok? ==> forall i, j :: 0 <= i < |t.rows| && 0 <= j < |t.cols| && t.cols[j] != Str("drain_point") ==>
      r.value.rows[i].cells[j] == t.rows[i].cells[j]
  {
    if !HasColumn(t, "drain_point") then Ok(t)
    else if !HasColumn(t, "sampling_point") then Err(KeyError)
    else
      match TryMapCells(Column(t, "sampling_point"), DrainCell)
      case Err(e) => Err(e)
      case Ok(vs) =>
        var u := SetColumn(t, "drain_point", vs);
        DrainColumnSet(t, vs, u);
        Ok(u)
  }

  /** Writing the rebuilt drain points puts, in every row, the sampling point followed by
      `_drain` (NaN for a null one) where the drain point was. */
  lemma DrainColumnSet(t: Table, vs: seq<Cell>, u: Table)
    requires SpatialFrame(t) && HasColumn(t, "drain_point") && HasColumn(t, "sampling_point")
    requires TryMapCells(Column(t, "sampling_point"), DrainCell) == Ok(vs)
    requires u == SetColumn(t, "drain_point", vs)
    ensures var sj := ColumnIndex(t, "sampling_point"); var dj := ColumnIndex(t, "drain_point");
      forall i :: 0 <= i < |t.rows| ==> u.rows[i].cells[dj] == DrainOf(t.rows[i].cells[sj])
  {
    var sj := ColumnIndex(t, "sampling_point");
    var dj := ColumnIndex(t, "drain_point");
    forall i | 0 <= i < |t.rows|
      ensures u.rows[i].cells[dj] == DrainOf(t.rows[i].cells[sj])
    {
      assert DrainCell(Column(t, "sampling_point")[i]).Ok?;
      assert Column(u, "drain_point")[i] == vs[i];
    }
  }

  // ---------------------------------------------------------------------------
  // The whole of remap_and_export

  /** Lines 195-235: backfill, rename, date parsing and, for the sampling points, the
      latest-year filter. A rename that makes two labels equal is not carried on. */
  function Staged(s: string, df: Table, cat: seq<Entry>, parse: Cell -> Option<(int, int)>): (r: Result<Table>)
    requires SpatialFrame(df)
    ensures r.Ok? ==> SpatialFrame(r.value)
  {
    var t0 := Rename(Backfill(s, df), RenameMapping(cat, s));
    if !Distinct(t0.cols) then Err(DuplicateLabels)
    else
      var t1 :- ToDatetime(t0, parse);
      if s == "sampling_point" then KeepLatestYear(t1) else Ok(t1)
  }

  /** Lines 240-254: projection, key columns, clean-up. */
  function Cleaned(s: string, t: Table, key: VisitKey, cat: seq<Entry>): (r: Result<Table>)
    requires SpatialFrame(t)
    ensures r.Ok? ==> SpatialFrame(r.value)
  {
    var u :- ProjectOrKeep(t, TargetColumns(cat, s));
    Ok(NullifyBlanks(InjectKeys(u, key)))
  }

  /** Lines 267-273: identifier padding, then the drain points. */
  function Finished(t: Table): (r: Result<Table>)
    requires SpatialFrame(t)
    ensures r.Ok? ==> SpatialFrame(r.value) && r.value.cols == t.cols && |r.value.rows| == |t.rows|
  {
    var u :- PadSamplingPoints(t);
    RecomputeDrainPoints(u)
  }

  /** The frame `remap_and_export` hands to `execute_values`, or the exception it raises. */
  function Normalise(s: string, df: Table, key: VisitKey, cat: seq<Entry>, parse: Cell -> Option<(int, int)>): (r: Result<Table>)
    requires SpatialFrame(df)
    ensures r.Ok? ==> SpatialFrame(r.value)
  {
    var t :- Staged(s, df, cat, parse);
    var c :- Cleaned(s, t, key, cat);
    Finished(c)
  }

  /** The key columns that are not already among the names `ns`, in assignment order. */
  function KeysNotIn(ns: seq<string>): seq<string> {
    (if "rmn_id" in ns then [] else ["rmn_id"])
    + (if "grant_id" in ns then [] else ["grant_id"])
    + (if "visit" in ns then [] else ["visit"])
  }

  lemma LabelsIn(ns: seq<string>, n: string)
    ensures Str(n) in Labels(ns) <==> n in ns
  {
    if n in ns {
      var k :| 0 <= k < |ns| && ns[k] == n;
      assert Labels(ns)[k] == Str(n);
    }
  }

  lemma LabelsConcat(a: seq<string>, b: seq<string>)
    ensures Labels(a + b) == Labels(a) + Labels(b)
  {
  }

  lemma MissingKeysOfLabels(u: Table, ns: seq<string>)
    requires u.cols == Labels(ns)
    ensures MissingKeys(u) == Labels(KeysNotIn(ns))
  {
    LabelsIn(ns, "rmn_id");
    LabelsIn(ns, "grant_id");
    LabelsIn(ns, "visit");
    var a := if "rmn_id" in ns then [] else ["rmn_id"];
    var b := if "grant_id" in ns then [] else ["grant_id"];
    var c := if "visit" in ns then [] else ["visit"];
    LabelsConcat(a + b, c);
    LabelsConcat(a, b);
  }

  /** The columns of the loaded frame: when the frame has every target column of the
      mapping, exactly those targets in mapping order, then the key columns not among
      them; otherwise (projection swallowed) every column the frame had, then the key
      columns it lacked. */
  lemma {:induction false} NormaliseColumns(s: string, df: Table, key: VisitKey, cat: seq<Entry>, parse: Cell -> Option<(int, int)>)
    requires SpatialFrame(df) && Normalise(s, df, key, cat, parse).Ok?
    ensures Staged(s, df, cat, parse).Ok?
    ensures var t := Staged(s, df, cat, parse).value; var ns := TargetColumns(cat, s);
      var cols := Normalise(s, df, key, cat, parse).value.cols;
      if forall k :: 0 <= k < |ns| ==> HasColumn(t, ns[k])
      then cols == Labels(ns + KeysNotIn(ns))
      else cols == t.cols + MissingKeys(t)
  {
    var t := Staged(s, df, cat, parse).value;
    var ns := TargetColumns(cat, s);
    var u := ProjectOrKeep(t, ns).value;
    var k := InjectKeys(u, key);
    var c := NullifyBlanks(k);
    var p := PadSamplingPoints(c).value;
    var r := RecomputeDrainPoints(p).value;
    assert r == Normalise(s, df, key, cat, parse).value;
    assert r.cols == u.cols + MissingKeys(u);
    if forall k :: 0 <= k < |ns| ==> HasColumn(t, ns[k]) {
      MissingKeysOfLabels(u, ns);
      LabelsConcat(ns, KeysNotIn(ns));
    }
  }

  /** Every loaded row carries the visit key, as the clean-up leaves it: a blank
      argument would become `None`, any other is kept as given. */
  lemma {:induction false} NormaliseKeys(s: string, df: Table, key: VisitKey, cat: seq<Entry>, parse: Cell -> Option<(int, int)>)
    requires SpatialFrame(df) && Normalise(s, df, key, cat, parse).Ok?
    ensures var r := Normalise(s, df, key, cat, parse).value;
      && HasColumn(r, "rmn_id") && HasColumn(r, "grant_id") && HasColumn(r, "visit")
      && ColumnIs(r, "rmn_id", CleanCell(Str(key.rmnId)))
      && ColumnIs(r, "grant_id", CleanCell(Str(key.grantId)))
      && ColumnIs(r, "visit", CleanCell(Str(key.visit)))
  {
    var t := Staged(s, df, cat, parse).value;
    var u := ProjectOrKeep(t, TargetColumns(cat, s)).value;
    var k := InjectKeys(u, key);
    var c := NullifyBlanks(k);
    var p := PadSamplingPoints(c).value;
    var r := RecomputeDrainPoints(p).value;
    assert r == Normalise(s, df, key, cat, parse).value;
    KeyColumnThrough(k, c, p, r, "rmn_id", Str(key.rmnId));
    KeyColumnThrough(k, c, p, r, "grant_id", Str(key.grantId));
    KeyColumnThrough(k, c, p, r, "visit", Str(key.visit));
  }

  lemma KeyColumnThrough(k: Table, c: Table, p: Table, r: Table, n: string, v: Cell)
    requires SpatialFrame(k) && HasColumn(k, n) && ColumnIs(k, n, v)
    requires n != "sampling_point" && n != "drain_point"
    requires c == NullifyBlanks(k) && PadSamplingPoints(c) == Ok(p) && RecomputeDrainPoints(p) == Ok(r)
    ensures HasColumn(r, n) && ColumnIs(r, n, CleanCell(v))
  {
    CleanedColumn(k, c, n, v);
    FinishedColumn(c, p, r, n, CleanCell(v));
  }

  lemma CleanedColumn(k: Table, c: Table, n: string, v: Cell)
    requires SpatialFrame(k) && HasColumn(k, n) && ColumnIs(k, n, v) && c == NullifyBlanks(k)
    ensures HasColumn(c, n) && ColumnIs(c, n, CleanCell(v))
  {
    var j := ColumnIndex(k, n);
    forall i | 0 <= i < |c.rows| ensures c.rows[i].cells[j] == CleanCell(v) {
      assert k.rows[i].cells[j] == v;
    }
  }

  lemma FinishedColumn(c: Table, p: Table, r: Table, n: string, w: Cell)
    requires SpatialFrame(c) && HasColumn(c, n) && ColumnIs(c, n, w)
    requires n != "sampling_point" && n != "drain_point"
    requires PadSamplingPoints(c) == Ok(p) && RecomputeDrainPoints(p) == Ok(r)
    ensures HasColumn(r, n) && ColumnIs(r, n, w)
  {
    var j := ColumnIndex(c, n);
    assert r.cols == c.cols;
    forall i | 0 <= i < |r.rows| ensures r.rows[i].cells[j] == w {
      FinishedKeepsCell(c, p, r, i, j);
    }
  }

  /** A cell outside the two identifier columns passes the finishing steps unchanged. */
  lemma FinishedKeepsCell(c: Table, p: Table, r: Table, i: nat, j: nat)
    requires SpatialFrame(c) && PadSamplingPoints(c) == Ok(p) && RecomputeDrainPoints(p) == Ok(r)
    requires i < |c.rows| && j < |c.cols| && c.cols[j] != Str("sampling_point") && c.cols[j] != Str("drain_point")
    ensures |r.rows| == |c.rows| && r.cols == c.cols && r.rows[i].cells[j] == c.rows[i].cells[j]
  {
  }

  /** The identifiers of the loaded frame: each sampling point is the padded value of the
      cleaned one, and each drain point that padded value followed by "_drain". */
  lemma {:induction false} FinishedIdentifiers(t: Table)
    requires SpatialFrame(t) && HasColumn(t, "sampling_point") && Finished(t).Ok?
    ensures var r := Finished(t).value; var sj := ColumnIndex(t, "sampling_point");
      forall i :: 0 <= i < |t.rows| ==>
        && t.rows[i].cells[sj].Str?
        && r.rows[i].cells[sj] == Str(ModifySamplingPoint(t.rows[i].cells[sj].s))
        && (HasColumn(t, "drain_point") ==>
              r.rows[i].cells[ColumnIndex(t, "drain_point")] == Str(ModifySamplingPoint(t.rows[i].cells[sj].s) + "_drain"))
  {
    var p := PadSamplingPoints(t).value;
    var r := RecomputeDrainPoints(p).value;
    assert r == Finished(t).value;
    var sj := ColumnIndex(t, "sampling_point");
    assert ColumnIndex(p, "sampling_point") == sj;
    if HasColumn(t, "drain_point") {
      assert ColumnIndex(p, "drain_point") == ColumnIndex(t, "drain_point");
    }
    forall i | 0 <= i < |t.rows|
      ensures t.rows[i].cells[sj].Str?
      ensures r.rows[i].cells[sj] == Str(ModifySamplingPoint(t.rows[i].cells[sj].s))
      ensures HasColumn(t, "drain_point") ==>
        r.rows[i].cells[ColumnIndex(t, "drain_point")] == Str(ModifySamplingPoint(t.rows[i].cells[sj].s) + "_drain")
    {
      FinishedIdentifierRow(t, p, r, i);
    }
  }

  lemma FinishedIdentifierRow(t: Table, p: Table, r: Table, i: nat)
    requires SpatialFrame(t) && HasColumn(t, "sampling_point") && i < |t.rows|
    requires PadSamplingPoints(t) == Ok(p) && RecomputeDrainPoints(p) == Ok(r)
    ensures var sj := ColumnIndex(t, "sampling_point");
      && t.rows[i].cells[sj].Str?
      && r.rows[i].cells[sj] == Str(ModifySamplingPoint(t.rows[i].cells[sj].s))
      && (HasColumn(t, "drain_point") ==>
            r.rows[i].cells[ColumnIndex(t, "drain_point")] == Str(ModifySamplingPoint(t.rows[i].cells[sj].s) + "_drain"))
  {
    var sj := ColumnIndex(t, "sampling_point");
    assert p.cols == t.cols;
    assert ColumnIndex(p, "sampling_point") == sj;
    assert p.rows[i].cells[sj] == Str(ModifySamplingPoint(t.rows[i].cells[sj].s));
    assert t.cols[sj] != Str("drain_point");
    if HasColumn(t, "drain_point") {
      assert ColumnIndex(p, "drain_point") == ColumnIndex(t, "drain_point");
    }
  }

  // ---------------------------------------------------------------------------
  // The push gate and the insert

  /** One `execute_values` call: the qualified table, the statement text and the tuples. */
  datatype Insert = Insert(table: string, query: string, rows: seq<seq<Cell>>)

  const Schema: string := "pa_restoration_monitoring_network."

  /** Line 131: the statement for `table` and the column names `cols`. */
  function InsertQuery(table: string, cols: seq<string>): string {
    "INSERT INTO " + table + "(" + Join(cols, ",") + ") VALUES %s"
  }

  /** The column list of the statement reads back as the columns it was built from, when
      there is at least one and none holds a comma. */
  lemma InsertQueryColumns(table: string, cols: seq<string>)
    requires cols != [] && forall k :: 0 <= k < |cols| ==> ',' !in cols[k]
    ensures var q := InsertQuery(table, cols); var pre := "INSERT INTO " + table + "("; var post := ") VALUES %s";
      && |pre| + |post| <= |q| && q[..|pre|] == pre && EndsWith(q, post)
      && Split(q[|pre|..|q| - |post|], ',') == cols
  {
    var q := InsertQuery(table, cols);
    var pre, post := "INSERT INTO " + table + "(", ") VALUES %s";
    assert q == pre + Join(cols, [',']) + post;
    assert q[|pre|..|q| - |post|] == Join(cols, [',']);
    SplitJoin(cols, ',');
  }

  /** Lines 123-131: the statement names the frame's columns, joined by ','; joining a
      label that is not a string raises `TypeError`. */
  function InsertFor(table: string, t: Table): (r: Result<Insert>)
    ensures r.Err? <==> exists j :: 0 <= j < |t.cols| && !t.cols[j].Str?
    ensures r.Err? ==> r.error == TypeError
    ensures r.Ok? ==> r.value.table == table && r.value.query == InsertQuery(table, Names(t))
    ensures r.Ok? ==> r.value.rows == Tuples(t) && |r.value.rows| == |t.rows|
    ensures r.Ok? ==> forall i :: 0 <= i < |t.rows| ==> r.value.rows[i] == t.rows[i].cells
  {
    if exists j :: 0 <= j < |t.cols| && !t.cols[j].Str? then Err(TypeError)
    else Ok(Insert(table, InsertQuery(table, Names(t)), Tuples(t)))
  }

  /** Line 275: the layer's table is the first entry's; a guard that returned `None` makes
      the membership test raise `TypeError`. */
  function PushGate(cat: seq<Entry>, s: string, push: Option<seq<string>>): (r: Result<bool>)
    requires s in LayerColumn(cat)
    ensures push.None? <==> r.Err?
    ensures r.Err? ==> r.error == TypeError
    ensures r.Ok? ==> (r.value <==> FirstTable(cat, s) in push.value)
  {
    match push
    case None => Err(TypeError)
    case Some(tables) => Ok(FirstTable(cat, s) in tables)
  }

  /** `remap_and_export` for layer `s`: the insert it issues (`None` when the table is not
      to be pushed), or the exception that escapes it. */
  function RemapAndLoad(s: string, df: Table, key: VisitKey, cat: seq<Entry>, push: Option<seq<string>>,
                        parse: Cell -> Option<(int, int)>): (r: Result<Option<Insert>>)
    requires SpatialFrame(df) && s in LayerColumn(cat)
    ensures push.None? ==> r.Err?
    ensures r.Ok? && r.value.Some? ==>
      && push.Some? && FirstTable(cat, s) in push.value
      && Normalise(s, df, key, cat, parse).Ok?
      && r.value.value.table == Schema + FirstTable(cat, s)
      && r.value.value.query == InsertQuery(Schema + FirstTable(cat, s), Names(Normalise(s, df, key, cat, parse).value))
      && r.value.value.rows == Tuples(Normalise(s, df, key, cat, parse).value)
    ensures push.Some? && FirstTable(cat, s) !in push.value && Normalise(s, df, key, cat, parse).Ok? ==>
      r == Ok(None)
  {
    var t :- Normalise(s, df, key, cat, parse);
    var go :- PushGate(cat, s, push);
    if go then
      var ins :- InsertFor(Schema + FirstTable(cat, s), t);
      Ok(Some(ins))
    else Ok(None)
  }

  /** When the frame has every target column, the statement names the mapping's target
      columns in mapping order and then the key columns the mapping lacks. */
  lemma {:induction false} InsertedColumns(s: string, df: Table, key: VisitKey, cat: seq<Entry>, push: Option<seq<string>>,
                                          parse: Cell -> Option<(int, int)>, ins: Insert)
    requires SpatialFrame(df) && s in LayerColumn(cat)
    requires RemapAndLoad(s, df, key, cat, push, parse) == Ok(Some(ins))
    ensures Staged(s, df, cat, parse).Ok?
    ensures var t := Staged(s, df, cat, parse).value; var ns := TargetColumns(cat, s);
      (forall k :: 0 <= k < |ns| ==> HasColumn(t, ns[k])) ==>
        ins.query == InsertQuery(Schema + FirstTable(cat, s), ns + KeysNotIn(ns))
  {
    NormaliseColumns(s, df, key, cat, parse);
    var ns := TargetColumns(cat, s);
    NamesOfLabels(Normalise(s, df, key, cat, parse).value, ns + KeysNotIn(ns));
  }

  lemma NamesOfLabels(t: Table, ns: seq<string>)
    ensures t.cols == Labels(ns) ==> Names(t) == ns
  {
  }

  /** The body of `remap_and_export`, one reassignment of `df` after another. */
  method RemapAndExport(s: string, df0: Table, key: VisitKey, cat: seq<Entry>, push: Option<seq<string>>,
                        parse: Cell -> Option<(int, int)>) returns (r: Result<Option<Insert>>)
    requires SpatialFrame(df0) && s in LayerColumn(cat)
    ensures r == RemapAndLoad(s, df0, key, cat, push, parse)
  {
    var staged := StageFrame(s, df0, cat, parse);
    if staged.Err? {
      return Err(staged.error);
    }
    var cleaned := CleanFrame(s, staged.value, key, cat);
    if cleaned.Err? {
      return Err(cleaned.error);
    }
    var finished := FinishFrame(cleaned.value);
    if finished.Err? {
      return Err(finished.error);
    }
    var df := finished.value;
    assert finished == Normalise(s, df0, key, cat, parse);
    var gate := PushGate(cat, s, push);
    if gate.Err? {
      return Err(gate.error);
    }
    if gate.value {
      var ins := InsertFor(Schema + FirstTable(cat, s), df);
      if ins.Err? {
        return Err(ins.error);
      }
      return Ok(Some(ins.value));
    }
    return Ok(None);
  }

  /** Lines 195-235 of `remap_and_export`. */
  method StageFrame(s: string, df0: Table, cat: seq<Entry>, parse: Cell -> Option<(int, int)>) returns (r: Result<Table>)
    requires SpatialFrame(df0)
    ensures r == Staged(s, df0, cat, parse)
  {
    var renameMapping := RenameMapping(cat, s);
    var df := Backfill(s, df0);
    df := Rename(df, renameMapping);
    if !Distinct(df.cols) {
      return Err(DuplicateLabels);
    }
    r := ToDatetime(df, parse);
    if r.Ok? && s == "sampling_point" {
      r := KeepLatestYear(r.value);
    }
  }

  /** Lines 240-254 of `remap_and_export`. */
  method CleanFrame(s: string, t: Table, key: VisitKey, cat: seq<Entry>) returns (r: Result<Table>)
    requires SpatialFrame(t)
    ensures r == Cleaned(s, t, key, cat)
  {
    var step := ProjectOrKeep(t, Values(RenameMapping(cat, s)));
    if step.Err? {
      return Err(step.error);
    }
    var df := InjectKeys(step.value, key);
    df := NullifyBlanks(df);
    return Ok(df);
  }

  /** Lines 267-273 of `remap_and_export`. */
  method FinishFrame(t: Table) returns (r: Result<Table>)
    requires SpatialFrame(t)
    ensures r == Finished(t)
  {
    r := PadSamplingPoints(t);
    if r.Ok? {
      r := RecomputeDrainPoints(r.value);
    }
  }
}
