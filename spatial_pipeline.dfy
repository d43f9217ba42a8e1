/** The spatial layer reader as a whole: the duplicate-visit guard run once before the
    layers, the per-layer preparation of the geopackage frame, and the loop over the
    catalog's layers that catches every exception per layer. */
module SpatialPipeline {
  import opened Wrappers
  import opened Seqs
  import opened Cells
  import opened Frames
  import opened Catalog
  import opened SpatialValues
  import opened SpatialNormaliser

  // ---------------------------------------------------------------------------
  // check_values_not_exist

  /** The existence query for one table, with `%s` placeholders for the three values. */
  function ExistsQuery(table: string, columns: seq<string>): string
    requires |columns| == 3
  {
    "SELECT EXISTS (  SELECT 1 FROM " + Schema + table + "  WHERE " + columns[0] + " = %s" + " AND "
      + columns[1] + " = %s" + " AND " + columns[2] + " = %s" + ")"
  }

  /** When no name holds a '%', the existence query has exactly one '%' per value bound to
      it: the three placeholders. */
  lemma ExistsQueryPlaceholders(table: string, columns: seq<string>)
    requires |columns| == 3
    ensures '%' !in table && (forall k :: 0 <= k < 3 ==> '%' !in columns[k]) ==>
      multiset(ExistsQuery(table, columns))['%'] == |columns|
  {
    QueryPercents(table, columns, ExistsQuery(table, columns));
  }

  lemma QueryPercents(table: string, columns: seq<string>, q: string)
    requires |columns| == 3
    requires q == "SELECT EXISTS (  SELECT 1 FROM " + Schema + table + "  WHERE " + columns[0] + " = %s" + " AND "
      + columns[1] + " = %s" + " AND " + columns[2] + " = %s" + ")"
    ensures '%' !in table && (forall k :: 0 <= k < 3 ==> '%' !in columns[k]) ==> multiset(q)['%'] == 3
  {
    var from, where, eq, and := "SELECT EXISTS (  SELECT 1 FROM " + Schema, "  WHERE ", " = %s", " AND ";
    QueryPieces(from, where, eq, and);
    PercentsOfQuery(from, table, where, eq, and, columns, q);
  }

  /** The fixed text of the query has a '%' only in its placeholder. */
  lemma QueryPieces(from: string, where: string, eq: string, and: string)
    requires from == "SELECT EXISTS (  SELECT 1 FROM " + Schema && where == "  WHERE " && eq == " = %s" && and == " AND "
    ensures multiset(from)['%'] == 0 && multiset(where)['%'] == 0 && multiset(and)['%'] == 0 && multiset(")")['%'] == 0
    ensures multiset(eq)['%'] == 1
  {
    NoPercentInSelect();
    NoPercentInSchema();
    OnePercentInPlaceholder();
    NoPercentInGlue();
    NoPercent("SELECT EXISTS (  SELECT 1 FROM ");
    NoPercent(Schema);
    Percents("SELECT EXISTS (  SELECT 1 FROM ", Schema);
    NoPercent(where);
    NoPercent(and);
    NoPercent(")");
  }

  lemma NoPercentInSelect() ensures '%' !in "SELECT EXISTS (  SELECT 1 FROM " {}
  lemma NoPercentInSchema() ensures '%' !in Schema {}
  lemma OnePercentInPlaceholder() ensures multiset(" = %s")['%'] == 1 {}
  lemma NoPercentInGlue() ensures '%' !in "  WHERE " && '%' !in " AND " && '%' !in ")" {}

  lemma NoPercent(s: string)
    requires '%' !in s
    ensures multiset(s)['%'] == 0
  {}

  lemma Percents(a: string, b: string)
    ensures multiset(a + b)['%'] == multiset(a)['%'] + multiset(b)['%']
  {}

  /** Counting '%' piece by piece through the query's concatenation. */
  lemma PercentsOfQuery(from: string, table: string, where: string, eq: string, and: string, columns: seq<string>, q: string)
    requires |columns| == 3
    requires q == from + table + where + columns[0] + eq + and + columns[1] + eq + and + columns[2] + eq + ")"
    requires multiset(from)['%'] == 0 && multiset(where)['%'] == 0 && multiset(and)['%'] == 0
    requires multiset(")")['%'] == 0 && multiset(eq)['%'] == 1
    ensures '%' !in table && (forall k :: 0 <= k < 3 ==> '%' !in columns[k]) ==> multiset(q)['%'] == 3
  {
    if '%' !in table && (forall k :: 0 <= k < 3 ==> '%' !in columns[k]) {
      NoPercent(table);
      NoPercent(columns[0]);
      NoPercent(columns[1]);
      NoPercent(columns[2]);
      var s1 := from + table; Percents(from, table);
      var s2 := s1 + where; Percents(s1, where);
      var s3 := s2 + columns[0]; Percents(s2, columns[0]);
      var s4 := s3 + eq; Percents(s3, eq);
      var s5 := s4 + and; Percents(s4, and);
      var s6 := s5 + columns[1]; Percents(s5, columns[1]);
      var s7 := s6 + eq; Percents(s6, eq);
      var s8 := s7 + and; Percents(s7, and);
      var s9 := s8 + columns[2]; Percents(s8, columns[2]);
      var s10 := s9 + eq; Percents(s9, eq);
      Percents(s10, ")");
    }
  }

  /** The database as the guard sees it: the answer to a query with its parameters, or
      `None` when executing it raises. */
  type ExistenceOracle = (string, seq<string>) -> Option<bool>

  /** The tables with no row for the visit, in input order, when every query answered;
      `None` as soon as one did not. */
  function Pending(tables: seq<string>, columns: seq<string>, values: seq<string>, db: ExistenceOracle): Option<seq<string>>
    requires |columns| == 3
  {
    if exists k :: 0 <= k < |tables| && db(ExistsQuery(tables[k], columns), values).None? then None
    else Some(Filter(tables, (t: string) => db(ExistsQuery(t, columns), values) == Some(false)))
  }

  datatype GuardOutcome = Raised(error: Failure) | Returned(tables: Option<seq<string>>)

  /** `check_values_not_exist`: the argument check, then one query per table, appending the
      tables whose answer is false; an exception from a query ends the loop with `None`. */
  method CheckValuesNotExist(tables: seq<string>, columns: seq<string>, values: seq<string>, db: ExistenceOracle)
    returns (r: GuardOutcome)
    ensures |columns| != 3 || |values| != 3 ==> r == Raised(ValueError)
    ensures |columns| == 3 && |values| == 3 ==> r == Returned(Pending(tables, columns, values, db))
  {
    if |columns| != 3 || |values| != 3 {
      return Raised(ValueError);
    }
    var p := (t: string) => db(ExistsQuery(t, columns), values) == Some(false);
    var notExist: seq<string> := [];
    var k := 0;
    while k < |tables|
      invariant 0 <= k <= |tables|
      invariant notExist == Filter(tables[..k], p)
      invariant forall j :: 0 <= j < k ==> db(ExistsQuery(tables[j], columns), values).Some?
    {
      var result := db(ExistsQuery(tables[k], columns), values);
      if result.None? {
        return Returned(None);
      }
      FilterConcat(tables[..k], [tables[k]], p);
      assert tables[..k + 1] == tables[..k] + [tables[k]];
      assert Filter([tables[k]], p) == if p(tables[k]) then [tables[k]] else [] by {
        assert [tables[k]][1..] == [];
      }
      if !result.value {
        notExist := notExist + [tables[k]];
      }
      k := k + 1;
    }
    assert tables[..k] == tables;
    return Returned(Some(notExist));
  }

  /** A table is pending exactly when it was asked about and its answer was false. */
  lemma PendingMembers(tables: seq<string>, columns: seq<string>, values: seq<string>, db: ExistenceOracle, t: string)
    requires |columns| == 3 && Pending(tables, columns, values, db).Some?
    ensures t in Pending(tables, columns, values, db).value <==>
      t in tables && db(ExistsQuery(t, columns), values) == Some(false)
  {
    var l := Pending(tables, columns, values, db).value;
    if t in l {
      var i :| 0 <= i < |l| && l[i] == t;
    }
    if t in tables && db(ExistsQuery(t, columns), values) == Some(false) {
      var i :| 0 <= i < |tables| && tables[i] == t;
    }
  }

  /** A visit found in no table leaves every table pending. */
  lemma {:induction false} NothingLoadedYet(tables: seq<string>, columns: seq<string>, values: seq<string>, db: ExistenceOracle)
    requires |columns| == 3
    requires forall t :: t in tables ==> db(ExistsQuery(t, columns), values) == Some(false)
    ensures Pending(tables, columns, values, db) == Some(tables)
  {
    var p := (t: string) => db(ExistsQuery(t, columns), values) == Some(false);
    assert forall i :: 0 <= i < |tables| ==> p(tables[i]);
    FilterAll(tables, p);
  }

  /** A visit found in every table leaves none pending. */
  lemma {:induction false} AlreadyLoaded(tables: seq<string>, columns: seq<string>, values: seq<string>, db: ExistenceOracle)
    requires |columns| == 3
    requires forall t :: t in tables ==> db(ExistsQuery(t, columns), values) == Some(true)
    ensures Pending(tables, columns, values, db) == Some([])
  {
    var p := (t: string) => db(ExistsQuery(t, columns), values) == Some(false);
    assert forall i :: 0 <= i < |tables| ==> !p(tables[i]);
    FilterNone(tables, p);
  }

  // ---------------------------------------------------------------------------
  // Preparing one geopackage layer (lines 290-309)

  /** The geometry library the loop calls: the union `dissolve` takes of a geometry
      column, and `geom.wkt`. */
  datatype GeoLib = GeoLib(union: seq<Cell> -> Cell, wkt: Geometry -> string)

  /** pandas' `first` aggregation: the first non-null value, NaN when there is none. */
  function FirstNonNull(vs: seq<Cell>): (c: Cell)
    ensures IsNull(c) ==> c == Missing && forall i :: 0 <= i < |vs| ==> IsNull(vs[i])
    ensures !IsNull(c) ==> exists i :: 0 <= i < |vs| && vs[i] == c && forall k :: 0 <= k < i ==> IsNull(vs[k])
  {
    if vs == [] then Missing
    else if !IsNull(vs[0]) then vs[0]
    else
      var c := FirstNonNull(vs[1..]);
      assert !IsNull(c) ==> exists i :: 0 <= i < |vs| && vs[i] == c && forall k :: 0 <= k < i ==> IsNull(vs[k]) by {
        if !IsNull(c) {
          var i :| 0 <= i < |vs[1..]| && vs[1..][i] == c && forall k :: 0 <= k < i ==> IsNull(vs[1..][k]);
          assert vs[i + 1] == c;
          assert forall k :: 0 <= k < i + 1 ==> IsNull(vs[k]) by {
            forall k | 0 <= k < i + 1 ensures IsNull(vs[k]) {
              if k > 0 { assert vs[k] == vs[1..][k - 1]; }
            }
          }
        }
      }
      assert IsNull(c) ==> forall i :: 0 <= i < |vs| ==> IsNull(vs[i]) by {
        if IsNull(c) {
          forall i | 0 <= i < |vs| ensures IsNull(vs[i]) {
            if i > 0 { assert vs[i] == vs[1..][i - 1]; }
          }
        }
      }
      c
  }

  /** `df.dissolve()`: all rows become one, labelled 0, whose geometry (first column) is
      the union of the 'geometry' column and whose other columns take their first
      non-null value; a frame without rows stays without rows. */
  function Dissolve(t: Table, union: seq<Cell> -> Cell): (r: Table)
    requires SpatialFrame(t) && HasColumn(t, "geometry")
    ensures SpatialFrame(r) && |r.rows| == (if |t.rows| == 0 then 0 else 1)
    ensures r.cols == [Str("geometry")] + DropColumn(t, "geometry").cols
    ensures |t.rows| > 0 ==> var g := ColumnIndex(t, "geometry");
      && r.rows[0].index == Num(0)
      && r.rows[0].cells[0] == union(Column(t, "geometry"))
      && forall k :: 1 <= k < |t.cols| ==>
           r.rows[0].cells[k] == FirstNonNull(ColumnAt(t, if k <= g then k - 1 else k))
  {
    var g := ColumnIndex(t, "geometry");
    var data := DropColumn(t, "geometry");
    var cols := [Str("geometry")] + data.cols;
    assert Distinct(cols) by {
      forall k | 0 <= k < |data.cols| ensures data.cols[k] != Str("geometry") {
        assert Str("geometry") !in data.cols;
      }
    }
    if |t.rows| == 0 then Table(Null, cols, [])
    else
      var firsts := seq(|data.cols|, k requires 0 <= k < |data.cols| => FirstNonNull(ColumnAt(t, if k < g then k else k + 1)));
      var u := union(Column(t, "geometry"));
      DissolvedCells(t, data, firsts, u);
      Table(Null, cols, [Row(Num(0), [u] + firsts)])
  }

  /** The cells of the dissolved row: the union first, then each other column's first
      non-null value in the order the columns keep. */
  lemma DissolvedCells(t: Table, data: Table, firsts: seq<Cell>, u: Cell)
    requires SpatialFrame(t) && HasColumn(t, "geometry") && data == DropColumn(t, "geometry")
    requires var g := ColumnIndex(t, "geometry");
      firsts == seq(|data.cols|, k requires 0 <= k < |data.cols| => FirstNonNull(ColumnAt(t, if k < g then k else k + 1)))
    ensures |[u] + firsts| == |t.cols|
    ensures var g := ColumnIndex(t, "geometry");
      forall k :: 1 <= k < |t.cols| ==> ([u] + firsts)[k] == FirstNonNull(ColumnAt(t, if k <= g then k - 1 else k))
  {
    var g := ColumnIndex(t, "geometry");
    forall k | 1 <= k < |t.cols|
      ensures ([u] + firsts)[k] == FirstNonNull(ColumnAt(t, if k <= g then k - 1 else k))
    {
      assert ([u] + firsts)[k] == firsts[k - 1];
    }
  }

  /** Lines 292-298 for 'monitoring_area': the promoted geometries are written to a
      column named 'geomery', so the union is taken of the geometries as read, and the
      promoted ones survive only as the first non-null 'geomery' value. */
  function MonitoringArea(t: Table, union: seq<Cell> -> Cell): (r: Result<Table>)
    requires SpatialFrame(t)
    ensures !HasColumn(t, "geometry") <==> r == Err(KeyError)
    ensures r.Ok? ==> SpatialFrame(r.value) && |r.value.rows| == (if |t.rows| == 0 then 0 else 1)
    ensures r.Ok? ==> |r.value.cols| > 0 && r.value.cols[0] == Str("geometry") && HasColumn(r.value, "geomery")
    ensures r.Ok? && |t.rows| > 0 ==> r.value.rows[0].cells[0] == union(Column(t, "geometry"))
    ensures r.Ok? && |t.rows| > 0 && !HasColumn(t, "geomery") ==>
      r.value.rows[0].cells[ColumnIndex(r.value, "geomery")]
        == FirstNonNull(Map(Column(t, "geometry"), ToMultiPolygonCell))
  {
    if !HasColumn(t, "geometry") then Err(KeyError)
    else
      var promoted := Map(Column(t, "geometry"), ToMultiPolygonCell);
      var t1 := SetColumn(t, "geomery", promoted);
      var g := ColumnIndex(t1, "geometry");
      assert g == ColumnIndex(t, "geometry") by { ColumnIndexUnique(t1, "geometry", ColumnIndex(t, "geometry")); }
      assert Column(t1, "geometry") == Column(t, "geometry");
      var r := Dissolve(t1, union);
      assert HasColumn(r, "geomery") && (!HasColumn(t, "geomery") && |t.rows| > 0 ==>
        r.rows[0].cells[ColumnIndex(r, "geomery")] == FirstNonNull(promoted)) by {
        GeomeryAfterDissolve(t, t1, r, union);
      }
      Ok(r)
  }

  lemma GeomeryAfterDissolve(t: Table, t1: Table, r: Table, union: seq<Cell> -> Cell)
    requires SpatialFrame(t) && HasColumn(t, "geometry")
    requires t1 == SetColumn(t, "geomery", Map(Column(t, "geometry"), ToMultiPolygonCell))
    requires r == Dissolve(t1, union)
    ensures HasColumn(r, "geomery")
    ensures !HasColumn(t, "geomery") && |t.rows| > 0 ==>
      r.rows[0].cells[ColumnIndex(r, "geomery")] == FirstNonNull(Map(Column(t, "geometry"), ToMultiPolygonCell))
  {
    var e := ColumnIndex(t1, "geomery");
    var k := DissolvedPosition(t1, "geomery");
    ColumnIndexUnique(r, "geomery", k);
    if !HasColumn(t, "geomery") && |t.rows| > 0 {
      assert ColumnAt(t1, e) == Column(t1, "geomery");
    }
  }

  /** Where `dissolve` puts a column other than the geometry: one place further right
      when it stood left of the geometry, in place otherwise. */
  lemma DissolvedPosition(t: Table, n: string) returns (k: nat)
    requires SpatialFrame(t) && HasColumn(t, "geometry") && HasColumn(t, n) && n != "geometry"
    ensures var g := ColumnIndex(t, "geometry"); var e := ColumnIndex(t, n);
      && 1 <= k < |t.cols| && k == (if e < g then e + 1 else e)
      && (if k <= g then k - 1 else k) == e
    ensures forall union: seq<Cell> -> Cell :: Dissolve(t, union).cols[k] == Str(n)
  {
    var g := ColumnIndex(t, "geometry");
    var e := ColumnIndex(t, n);
    assert Str(n) != Str("geometry");
    k := if e < g then e + 1 else e;
    var data := DropColumn(t, "geometry");
    assert data.cols[k - 1] == Str(n);
  }

  /** `Point(point.x, point.y)` on one cell: only a point has `x` and `y`. */
  function PointCell(c: Cell): (r: Result<Cell>)
    ensures r.Ok? <==> c.Geom? && c.g.Point?
    ensures r.Ok? ==> r.value == c
    ensures r.Err? ==> r.error == AttributeError
  {
    if c.Geom? && c.g.Point? then Ok(Geom(Point(c.g.x, c.g.y))) else Err(AttributeError)
  }

  /** Lines 302 and 304: rebuilding each point from its coordinates leaves the frame as it
      was; anything but a point raises. */
  function RebuildPoints(t: Table): (r: Result<Table>)
    requires SpatialFrame(t)
    ensures !HasColumn(t, "geometry") ==> r == Err(KeyError)
    ensures HasColumn(t, "geometry") ==>
      (r.Ok? <==> forall i :: 0 <= i < |t.rows| ==> Column(t, "geometry")[i].Geom? && Column(t, "geometry")[i].g.Point?)
    ensures r.Ok? ==> r.value == t
    ensures r.Err? ==> r.error == KeyError || r.error == AttributeError
  {
    if !HasColumn(t, "geometry") then Err(KeyError)
    else
      match TryMapCells(Column(t, "geometry"), PointCell)
      case Err(e) => Err(e)
      case Ok(vs) =>
        assert vs == Column(t, "geometry");
        SetColumnSame(t, "geometry", vs);
        Ok(SetColumn(t, "geometry", vs))
  }

  /** Whether a row's source (at position `j`) is exactly "field". */
  function FromField(j: nat): Row -> bool {
    (row: Row) => j < |row.cells| && row.cells[j] == Str("field")
  }

  /** Line 301 for 'sampling_point': the rows whose source is exactly "field", relabelled
      0 .. n-1, then the points rebuilt. */
  function FieldPoints(t: Table): (r: Result<Table>)
    requires SpatialFrame(t)
    ensures !HasColumn(t, "source") ==> r == Err(KeyError)
    ensures r.Ok? ==> HasColumn(t, "source") && SpatialFrame(r.value) && DefaultIndex(r.value) && r.value.cols == t.cols
    ensures r.Ok? ==> r.value == ResetIndexDrop(FilterRows(t, FromField(ColumnIndex(t, "source"))))
  {
    if !HasColumn(t, "source") then Err(KeyError)
    else RebuildPoints(ResetIndexDrop(FilterRows(t, FromField(ColumnIndex(t, "source")))))
  }

  /** Every sampling point kept was surveyed in the field and is one of the layer's rows. */
  lemma FieldPointsOnlyField(t: Table, i: nat)
    requires SpatialFrame(t) && FieldPoints(t).Ok? && i < |FieldPoints(t).value.rows|
    ensures var r := FieldPoints(t).value;
      && r.rows[i].cells[ColumnIndex(t, "source")] == Str("field")
      && exists k :: 0 <= k < |t.rows| && t.rows[k].cells == r.rows[i].cells
  {
    var j := ColumnIndex(t, "source");
    var f := FilterRows(t, FromField(j));
    assert f.rows[i] in t.rows && FromField(j)(f.rows[i]);
    var k :| 0 <= k < |t.rows| && t.rows[k] == f.rows[i];
    assert ResetIndexDrop(f).rows[i].cells == t.rows[k].cells;
  }

  /** Every row of the layer surveyed in the field is kept. */
  lemma FieldPointsAllField(t: Table, k: nat)
    requires SpatialFrame(t) && FieldPoints(t).Ok? && k < |t.rows|
    requires t.rows[k].cells[ColumnIndex(t, "source")] == Str("field")
    ensures exists i :: 0 <= i < |FieldPoints(t).value.rows| && FieldPoints(t).value.rows[i].cells == t.rows[k].cells
  {
    var j := ColumnIndex(t, "source");
    var f := FilterRows(t, FromField(j));
    assert FromField(j)(t.rows[k]);
    var i :| 0 <= i < |f.rows| && f.rows[i] == t.rows[k];
    assert ResetIndexDrop(f).rows[i].cells == t.rows[k].cells;
  }

  /** `geom.wkt` on one cell. */
  function WktCell(c: Cell, wkt: Geometry -> string): (r: Result<Cell>)
    ensures r.Ok? <==> c.Geom?
    ensures r.Ok? ==> r.value == Str(wkt(c.g))
    ensures r.Err? ==> r.error == AttributeError
  {
    if c.Geom? then Ok(Str(wkt(c.g))) else Err(AttributeError)
  }

  /** Line 309: every geometry is replaced by its well-known text; a frame whose geometry
      column was dropped as all-null has none to convert. */
  function ToWkt(t: Table, wkt: Geometry -> string): (r: Result<Table>)
    requires SpatialFrame(t)
    ensures !HasColumn(t, "geometry") ==> r == Err(KeyError)
    ensures HasColumn(t, "geometry") ==> (r.Ok? <==> forall i :: 0 <= i < |t.rows| ==> Column(t, "geometry")[i].Geom?)
    ensures r.Ok? ==> SpatialFrame(r.value) && r.value.cols == t.cols && |r.value.rows| == |t.rows|
    ensures r.Ok? ==> forall i :: 0 <= i < |t.rows| ==> r.value.rows[i].index == t.rows[i].index
    ensures r.Ok? ==> var g := ColumnIndex(t, "geometry");
      forall i :: 0 <= i < |t.rows| ==> t.rows[i].cells[g].Geom? && r.value.rows[i].cells[g] == Str(wkt(t.rows[i].cells[g].g))
    ensures r.Ok? ==> forall i, j :: 0 <= i < |t.rows| && 0 <= j < |t.cols| && t.cols[j] != Str("geometry") ==>
      r.value.rows[i].cells[j] == t.rows[i].cells[j]
  {
    if !HasColumn(t, "geometry") then Err(KeyError)
    else TryMapColumn(t, "geometry", (c: Cell) => WktCell(c, wkt))
  }

  /** Text geometries are not null, so a row with a non-null cell keeps one. */
  lemma WktKeepsRows(t: Table, wkt: Geometry -> string)
    requires SpatialFrame(t) && ToWkt(t, wkt).Ok?
    requires forall i :: 0 <= i < |t.rows| ==> !RowAllNull(t.rows[i])
    ensures forall i :: 0 <= i < |ToWkt(t, wkt).value.rows| ==> !RowAllNull(ToWkt(t, wkt).value.rows[i])
  {
    var r := ToWkt(t, wkt).value;
    forall i | 0 <= i < |r.rows| ensures !RowAllNull(r.rows[i]) {
      var j :| 0 <= j < |t.cols| && !IsNull(t.rows[i].cells[j]);
      if t.cols[j] == Str("geometry") {
        assert j == ColumnIndex(t, "geometry");
        assert r.rows[i].cells[j].Str?;
      } else {
        assert r.rows[i].cells[j] == t.rows[i].cells[j];
      }
    }
  }

  /** Lines 290-309 after the read: the layer-specific step, both `dropna` calls, the
      relabelling and the text geometries. */
  function PrepareLayer(s: string, df: Table, lib: GeoLib): (r: Result<Table>)
    requires SpatialFrame(df)
    ensures r.Ok? ==> SpatialFrame(r.value) && DefaultIndex(r.value)
    ensures r.Ok? ==> forall i :: 0 <= i < |r.value.rows| ==> !RowAllNull(r.value.rows[i])
  {
    var t := LayerSpecific(s, df, lib);
    if t.Err? then Err(t.error) else Finalise(t.value, lib.wkt)
  }

  /** Lines 291-304: the step that depends on the layer. */
  function LayerSpecific(s: string, df: Table, lib: GeoLib): (r: Result<Table>)
    requires SpatialFrame(df)
    ensures r.Ok? ==> SpatialFrame(r.value)
    ensures s != "monitoring_area" && s != "sampling_point" && s != "drain_points" ==> r == Ok(df)
  {
    if s == "monitoring_area" then MonitoringArea(df, lib.union)
    else if s == "sampling_point" then FieldPoints(df)
    else if s == "drain_points" then RebuildPoints(df)
    else Ok(df)
  }

  /** Lines 306-309: both `dropna` calls, the relabelling and the text geometries. */
  function Finalise(t: Table, wkt: Geometry -> string): (r: Result<Table>)
    requires SpatialFrame(t)
    ensures r.Ok? ==> SpatialFrame(r.value) && DefaultIndex(r.value)
    ensures r.Ok? ==> forall i :: 0 <= i < |r.value.rows| ==> !RowAllNull(r.value.rows[i])
  {
    var t3 := ResetIndexDrop(DropNull(t));
    RelabelledNoNullRow(t);
    var r := ToWkt(t3, wkt);
    if r.Ok? then WktKeepsRows(t3, wkt); r else r
  }

  lemma RelabelledNoNullRow(t: Table)
    requires Valid(t)
    ensures forall i :: 0 <= i < |ResetIndexDrop(DropNull(t)).rows| ==> !RowAllNull(ResetIndexDrop(DropNull(t)).rows[i])
  {
    var d := DropNull(t);
    var t3 := ResetIndexDrop(d);
    DropNullNoNullRow(t);
    forall i | 0 <= i < |t3.rows| ensures !RowAllNull(t3.rows[i]) {
      assert t3.rows[i].cells == d.rows[i].cells;
    }
  }

  // ---------------------------------------------------------------------------
  // The loop over the layers (lines 285-332)

  /** The geopackage as read: its layers by name, each with unique field names. */
  predicate WellFormed(gpkg: map<string, Table>) {
    forall l :: l in gpkg ==> SpatialFrame(gpkg[l])
  }

  datatype LayerOutcome = Loaded(insert: Insert) | NotPushed | Failed(error: Failure)

  /** One pass of the loop body: read, prepare, `remap_and_export`; a layer the file does not
      have raises `ValueError`. */
  function LayerResult(s: string, gpkg: map<string, Table>, key: VisitKey, m: seq<Entry>,
                       push: Option<seq<string>>, lib: GeoLib, parse: Cell -> Option<(int, int)>): Result<Option<Insert>>
    requires WellFormed(gpkg) && s in LayerColumn(m)
  {
    if s !in gpkg then Err(ValueError)
    else
      var df :- PrepareLayer(s, gpkg[s], lib);
      RemapAndLoad(s, df, key, m, push, parse)
  }

  /** The `try`/`except` around the body: every exception becomes the layer's outcome. */
  function ProcessLayer(s: string, gpkg: map<string, Table>, key: VisitKey, m: seq<Entry>,
                        push: Option<seq<string>>, lib: GeoLib, parse: Cell -> Option<(int, int)>): LayerOutcome
    requires WellFormed(gpkg) && s in LayerColumn(m)
  {
    match LayerResult(s, gpkg, key, m, push, lib, parse)
    case Err(e) => Failed(e)
    case Ok(None) => NotPushed
    case Ok(Some(ins)) => Loaded(ins)
  }

  /** A layer the file does not have fails with `ValueError`. */
  lemma MissingLayerFails(s: string, gpkg: map<string, Table>, key: VisitKey, m: seq<Entry>,
                          push: Option<seq<string>>, lib: GeoLib, parse: Cell -> Option<(int, int)>)
    requires WellFormed(gpkg) && s in LayerColumn(m) && s !in gpkg
    ensures ProcessLayer(s, gpkg, key, m, push, lib, parse) == Failed(ValueError)
  {
  }

  /** A failed guard (`None`) makes every layer fail. */
  lemma FailsWithoutGuard(s: string, gpkg: map<string, Table>, key: VisitKey, m: seq<Entry>,
                          push: Option<seq<string>>, lib: GeoLib, parse: Cell -> Option<(int, int)>)
    requires WellFormed(gpkg) && s in LayerColumn(m) && push.None?
    ensures ProcessLayer(s, gpkg, key, m, push, lib, parse).Failed?
  {
  }

  /** A load targets the schema-qualified first table of the layer, and only when that
      table is in the push list. */
  lemma LoadedOnlyWhenPushed(s: string, gpkg: map<string, Table>, key: VisitKey, m: seq<Entry>,
                             push: Option<seq<string>>, lib: GeoLib, parse: Cell -> Option<(int, int)>)
    requires WellFormed(gpkg) && s in LayerColumn(m)
    ensures var o := ProcessLayer(s, gpkg, key, m, push, lib, parse);
      o.Loaded? ==> push.Some? && FirstTable(m, s) in push.value && o.insert.table == Schema + FirstTable(m, s)
  {
  }

  /** A prepared layer whose table is not in the push list is skipped exactly when its
      remap would have succeeded; otherwise the remap's exception is its outcome. */
  lemma SkippedIffNormalised(s: string, gpkg: map<string, Table>, key: VisitKey, m: seq<Entry>,
                             push: Option<seq<string>>, lib: GeoLib, parse: Cell -> Option<(int, int)>)
    requires WellFormed(gpkg) && s in LayerColumn(m) && s in gpkg
    requires push.Some? && FirstTable(m, s) !in push.value && PrepareLayer(s, gpkg[s], lib).Ok?
    ensures ProcessLayer(s, gpkg, key, m, push, lib, parse) == NotPushed <==>
      Normalise(s, PrepareLayer(s, gpkg[s], lib).value, key, m, parse).Ok?
  {
  }

  /** The inserts issued, in loop order. */
  function Issued(os: seq<LayerOutcome>): (ins: seq<Insert>)
    ensures |ins| <= |os|
    ensures (forall k :: 0 <= k < |os| ==> !os[k].Loaded?) ==> ins == []
  {
    if os == [] then []
    else (if os[0].Loaded? then [os[0].insert] else []) + Issued(os[1..])
  }

  lemma {:induction false} IssuedFrom(os: seq<LayerOutcome>, i: nat)
    requires i < |Issued(os)|
    ensures exists k :: 0 <= k < |os| && os[k] == Loaded(Issued(os)[i])
  {
    if os[0].Loaded? && i == 0 {
      assert os[0] == Loaded(Issued(os)[0]);
    } else {
      var j := if os[0].Loaded? then i - 1 else i;
      assert Issued(os)[i] == Issued(os[1..])[j];
      IssuedFrom(os[1..], j);
      var k :| 0 <= k < |os[1..]| && os[1..][k] == Loaded(Issued(os[1..])[j]);
      assert os[k + 1] == os[1..][k];
    }
  }

  lemma {:induction false} IssuedSnoc(os: seq<LayerOutcome>, o: LayerOutcome)
    ensures Issued(os + [o]) == Issued(os) + (if o.Loaded? then [o.insert] else [])
  {
    if os == [] {
      assert [o][1..] == [];
      assert Issued([o]) == (if o.Loaded? then [o.insert] else []) + Issued([]);
    } else {
      assert (os + [o])[0] == os[0];
      assert (os + [o])[1..] == os[1..] + [o];
      IssuedSnoc(os[1..], o);
      var h := if os[0].Loaded? then [os[0].insert] else [];
      assert Issued(os + [o]) == h + Issued(os[1..] + [o]);
    }
  }

  /** One pass of the layer loop extends the outcomes by the next expected one and the
      inserts by its insert, if it loaded. */
  lemma LoadStep(expected: seq<LayerOutcome>, outcomes: seq<LayerOutcome>, inserts: seq<Insert>, k: nat, o: LayerOutcome)
    requires k < |expected| && outcomes == expected[..k] && inserts == Issued(outcomes) && o == expected[k]
    ensures outcomes + [o] == expected[..k + 1]
    ensures (if o.Loaded? then inserts + [o.insert] else inserts) == Issued(outcomes + [o])
  {
    IssuedSnoc(outcomes, o);
    PrefixNext(expected, k);
  }

  /** The outcome of every layer, in loop order. */
  function Outcomes(sheets: seq<string>, gpkg: map<string, Table>, key: VisitKey, m: seq<Entry>,
                    push: Option<seq<string>>, lib: GeoLib, parse: Cell -> Option<(int, int)>): (os: seq<LayerOutcome>)
    requires WellFormed(gpkg) && forall k :: 0 <= k < |sheets| ==> sheets[k] in LayerColumn(m)
    ensures |os| == |sheets|
  {
    seq(|sheets|, k requires 0 <= k < |sheets| => ProcessLayer(sheets[k], gpkg, key, m, push, lib, parse))
  }

  /** `for s in sheets_of_interest`: every layer is attempted, whatever happened to the
      ones before it. */
  method LoadLayers(sheets: seq<string>, gpkg: map<string, Table>, key: VisitKey, m: seq<Entry>,
                    push: Option<seq<string>>, lib: GeoLib, parse: Cell -> Option<(int, int)>)
    returns (outcomes: seq<LayerOutcome>, inserts: seq<Insert>)
    requires WellFormed(gpkg) && forall k :: 0 <= k < |sheets| ==> sheets[k] in LayerColumn(m)
    ensures outcomes == Outcomes(sheets, gpkg, key, m, push, lib, parse)
    ensures inserts == Issued(outcomes)
  {
    ghost var expected := Outcomes(sheets, gpkg, key, m, push, lib, parse);
    outcomes, inserts := [], [];
    var k := 0;
    while k < |sheets|
      invariant 0 <= k <= |sheets|
      invariant outcomes == expected[..k]
      invariant inserts == Issued(outcomes)
    {
      outcomes, inserts := LayerPass(sheets, gpkg, key, m, push, lib, parse, k, outcomes, inserts);
      k := k + 1;
    }
    TakeAll(expected);
  }

  /** One pass of `for s in sheets_of_interest`: layer `k` is attempted, its outcome is
      recorded, and its insert, if it loaded, is issued. */
  method LayerPass(sheets: seq<string>, gpkg: map<string, Table>, key: VisitKey, m: seq<Entry>,
                   push: Option<seq<string>>, lib: GeoLib, parse: Cell -> Option<(int, int)>,
                   k: nat, outcomes: seq<LayerOutcome>, inserts: seq<Insert>)
    returns (outcomes': seq<LayerOutcome>, inserts': seq<Insert>)
    requires WellFormed(gpkg) && forall k :: 0 <= k < |sheets| ==> sheets[k] in LayerColumn(m)
    requires k < |sheets| && outcomes == Outcomes(sheets, gpkg, key, m, push, lib, parse)[..k]
    requires inserts == Issued(outcomes)
    ensures outcomes' == Outcomes(sheets, gpkg, key, m, push, lib, parse)[..k + 1]
    ensures inserts' == Issued(outcomes')
  {
    ghost var expected := Outcomes(sheets, gpkg, key, m, push, lib, parse);
    var o := AttemptLayer(sheets[k], gpkg, key, m, push, lib, parse);
    assert o == expected[k];
    LoadStep(expected, outcomes, inserts, k, o);
    inserts' := inserts;
    if o.Loaded? {
      inserts' := inserts + [o.insert];
    }
    outcomes' := outcomes + [o];
  }

  /** The `try` block of one pass: read, prepare, `remap_and_export`. */
  method AttemptLayer(s: string, gpkg: map<string, Table>, key: VisitKey, m: seq<Entry>,
                      push: Option<seq<string>>, lib: GeoLib, parse: Cell -> Option<(int, int)>)
    returns (o: LayerOutcome)
    requires WellFormed(gpkg) && s in LayerColumn(m)
    ensures o == ProcessLayer(s, gpkg, key, m, push, lib, parse)
  {
    if s !in gpkg {
      return Failed(ValueError);
    }
    var df := PrepareLayer(s, gpkg[s], lib);
    if df.Err? {
      return Failed(df.error);
    }
    var r := RemapAndExport(s, df.value, key, m, push, parse);
    assert r == LayerResult(s, gpkg, key, m, push, lib, parse);
    match r {
      case Err(e) => o := Failed(e);
      case Ok(None) => o := NotPushed;
      case Ok(Some(ins)) => o := Loaded(ins);
    }
  }

  /** Every insert goes to the table of one of the layers, and that table was in the push
      list. */
  lemma InsertsArePushed(sheets: seq<string>, gpkg: map<string, Table>, key: VisitKey, m: seq<Entry>,
                         push: Option<seq<string>>, lib: GeoLib, parse: Cell -> Option<(int, int)>,
                         outcomes: seq<LayerOutcome>, i: nat)
    requires WellFormed(gpkg) && forall k :: 0 <= k < |sheets| ==> sheets[k] in LayerColumn(m)
    requires outcomes == Outcomes(sheets, gpkg, key, m, push, lib, parse)
    requires i < |Issued(outcomes)|
    ensures push.Some?
    ensures exists k ::
      && 0 <= k < |sheets| && FirstTable(m, sheets[k]) in push.value
      && Issued(outcomes)[i].table == Schema + FirstTable(m, sheets[k])
  {
    IssuedFrom(outcomes, i);
    var k :| 0 <= k < |outcomes| && outcomes[k] == Loaded(Issued(outcomes)[i]);
    LoadedOnlyWhenPushed(sheets[k], gpkg, key, m, push, lib, parse);
  }

  // ---------------------------------------------------------------------------
  // The whole run

  /** The script from line 159 on: the catalog filter, the guard against the visit, then
      the loop. `cat` is the mapping workbook, `gpkg` the file's layers. */
  method RunSpatialPipeline(cat: seq<Entry>, gpkg: map<string, Table>, key: VisitKey, db: ExistenceOracle,
                            lib: GeoLib, parse: Cell -> Option<(int, int)>)
    returns (push: Option<seq<string>>, outcomes: seq<LayerOutcome>, inserts: seq<Insert>)
    requires WellFormed(gpkg)
    ensures var m := KeepUploaded(cat);
      push == Pending(Tables(m), KeyNames, [key.rmnId, key.grantId, key.visit], db)
    ensures var m := KeepUploaded(cat);
      && (forall k :: 0 <= k < |Layers(m)| ==> Layers(m)[k] in LayerColumn(m))
      && outcomes == Outcomes(Layers(m), gpkg, key, m, push, lib, parse)
    ensures inserts == Issued(outcomes)
    ensures push.None? ==> inserts == []
  {
    var m := KeepUploaded(cat);
    var sheets := Layers(m);
    var tables := Tables(m);
    var guard := CheckValuesNotExist(tables, KeyNames, [key.rmnId, key.grantId, key.visit], db);
    push := guard.tables;
    outcomes, inserts := LoadLayers(sheets, gpkg, key, m, push, lib, parse);
    if push.None? {
      NothingWithoutGuard(sheets, gpkg, key, m, push, lib, parse, outcomes);
      NoneIssued(outcomes);
    }
  }

  /** When the guard failed (`None`), every layer fails at its push gate. */
  lemma NothingWithoutGuard(sheets: seq<string>, gpkg: map<string, Table>, key: VisitKey, m: seq<Entry>,
                            push: Option<seq<string>>, lib: GeoLib, parse: Cell -> Option<(int, int)>,
                            outcomes: seq<LayerOutcome>)
    requires WellFormed(gpkg) && forall k :: 0 <= k < |sheets| ==> sheets[k] in LayerColumn(m)
    requires outcomes == Outcomes(sheets, gpkg, key, m, push, lib, parse)
    requires push.None?
    ensures forall k :: 0 <= k < |outcomes| ==> outcomes[k].Failed?
  {
    forall k | 0 <= k < |outcomes| ensures outcomes[k].Failed? {
      assert outcomes[k] == ProcessLayer(sheets[k], gpkg, key, m, push, lib, parse);
      FailsWithoutGuard(sheets[k], gpkg, key, m, push, lib, parse);
    }
  }

  lemma NoneIssued(os: seq<LayerOutcome>)
    requires forall k :: 0 <= k < |os| ==> os[k].Failed?
    ensures Issued(os) == []
  {
  }

  /** No table is loaded twice for a visit: an insert happens only into a table for which
      the guard's query answered that the visit is absent. */
  lemma {:induction false} InsertOnlyWhereAbsent(cat: seq<Entry>, gpkg: map<string, Table>, key: VisitKey, db: ExistenceOracle,
                                                 lib: GeoLib, parse: Cell -> Option<(int, int)>,
                                                 push: Option<seq<string>>, outcomes: seq<LayerOutcome>, i: nat)
    requires WellFormed(gpkg)
    requires push == Pending(Tables(KeepUploaded(cat)), KeyNames, [key.rmnId, key.grantId, key.visit], db)
    requires var m := KeepUploaded(cat);
      && (forall k :: 0 <= k < |Layers(m)| ==> Layers(m)[k] in LayerColumn(m))
      && outcomes == Outcomes(Layers(m), gpkg, key, m, push, lib, parse)
    requires i < |Issued(outcomes)|
    ensures exists t ::
      && Issued(outcomes)[i].table == Schema + t
      && db(ExistsQuery(t, KeyNames), [key.rmnId, key.grantId, key.visit]) == Some(false)
  {
    var m := KeepUploaded(cat);
    InsertsArePushed(Layers(m), gpkg, key, m, push, lib, parse, outcomes, i);
    var k :| 0 <= k < |Layers(m)| && FirstTable(m, Layers(m)[k]) in push.value
      && Issued(outcomes)[i].table == Schema + FirstTable(m, Layers(m)[k]);
    PendingMembers(Tables(m), KeyNames, [key.rmnId, key.grantId, key.visit], db, FirstTable(m, Layers(m)[k]));
  }
}
