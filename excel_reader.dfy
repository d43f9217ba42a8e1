/** The Excel survey reader: the uploaded part of the mapping workbook, the `.xlsx` files
    found by walking the data folder, and the reshaping and renaming of each sheet of
    interest read from the first of those files. Walking the folder and reading a sheet
    are parameters: `walk` is what `os.walk` yields (each folder with its file names),
    `reader` is `pd.read_excel` with the options the script passes for that sheet. */
module ExcelReader {
  import opened Wrappers
  import opened Seqs
  import opened Cells
  import opened Dicts
  import opened Frames
  import opened Catalog

  // ---------------------------------------------------------------------------
  // The sheets of interest

  /** `map_df['Tab or layer'].unique()` after keeping the rows to upload: every sheet of an
      uploaded entry, once each, in the order of its first entry. */
  lemma SheetsOfInterest(cat: seq<Entry>)
    ensures var m := KeepUploaded(cat);
      && Distinct(Layers(m))
      && (forall s :: s in Layers(m) <==> exists e :: e in cat && e.upload == "Yes" && e.layer == s)
      && (forall i, j :: 0 <= i < j < |Layers(m)| ==>
            FirstIndex(LayerColumn(m), Layers(m)[i]) < FirstIndex(LayerColumn(m), Layers(m)[j]))
  {
    NamesOfUploaded(cat);
  }

  // ---------------------------------------------------------------------------
  // Collecting the .xlsx files

  predicate IsXlsx(path: string) {
    EndsWith(path, ".xlsx")
  }

  /** The paths of one folder's files, `subdir + os.sep + file`. */
  function Paths(dir: string, files: seq<string>, sep: string): (ps: seq<string>)
    ensures |ps| == |files| && forall i :: 0 <= i < |files| ==> ps[i] == dir + sep + files[i]
  {
    Map(files, (f: string) => dir + sep + f)
  }

  /** The `.xlsx` paths in walk order: folder by folder, each folder's files in order. */
  function XlsxFiles(walk: seq<(string, seq<string>)>, sep: string): seq<string>
    decreases |walk|
  {
    if walk == [] then []
    else
      var n := |walk| - 1;
      XlsxFiles(walk[..n], sep) + Filter(Paths(walk[n].0, walk[n].1, sep), IsXlsx)
  }

  /** Some file of the walk has this path. */
  predicate InWalk(walk: seq<(string, seq<string>)>, sep: string, path: string) {
    exists k, i :: 0 <= k < |walk| && 0 <= i < |walk[k].1| && path == walk[k].0 + sep + walk[k].1[i]
  }

  /** A path is collected exactly when it ends in ".xlsx" and names a file of the walk. */
  lemma XlsxFilesMembers(walk: seq<(string, seq<string>)>, sep: string, path: string)
    ensures path in XlsxFiles(walk, sep) <==> IsXlsx(path) && InWalk(walk, sep, path)
  {
    if path in XlsxFiles(walk, sep) {
      XlsxFilesSound(walk, sep, path);
    }
    if IsXlsx(path) && InWalk(walk, sep, path) {
      var k, i :| 0 <= k < |walk| && 0 <= i < |walk[k].1| && path == walk[k].0 + sep + walk[k].1[i];
      XlsxFilesComplete(walk, sep, k, i);
    }
  }

  lemma {:induction false} XlsxFilesSound(walk: seq<(string, seq<string>)>, sep: string, path: string)
    requires path in XlsxFiles(walk, sep)
    ensures IsXlsx(path) && InWalk(walk, sep, path)
    decreases |walk|
  {
    var n := |walk| - 1;
    var ps := Paths(walk[n].0, walk[n].1, sep);
    FilterMembers(ps, IsXlsx, path);
    if path in XlsxFiles(walk[..n], sep) {
      XlsxFilesSound(walk[..n], sep, path);
      var k, i :| 0 <= k < n && 0 <= i < |walk[..n][k].1| && path == walk[..n][k].0 + sep + walk[..n][k].1[i];
      assert walk[k] == walk[..n][k];
    } else {
      var i :| 0 <= i < |ps| && ps[i] == path;
      assert path == walk[n].0 + sep + walk[n].1[i];
    }
  }

  lemma {:induction false} XlsxFilesComplete(walk: seq<(string, seq<string>)>, sep: string, k: nat, i: nat)
    requires k < |walk| && i < |walk[k].1| && IsXlsx(walk[k].0 + sep + walk[k].1[i])
    ensures walk[k].0 + sep + walk[k].1[i] in XlsxFiles(walk, sep)
    decreases |walk|
  {
    var n := |walk| - 1;
    var path := walk[k].0 + sep + walk[k].1[i];
    if k < n {
      assert walk[..n][k] == walk[k];
      XlsxFilesComplete(walk[..n], sep, k, i);
    } else {
      var ps := Paths(walk[n].0, walk[n].1, sep);
      FilterMembers(ps, IsXlsx, path);
      assert ps[i] == path;
    }
  }

  lemma {:induction false} FilterMembers<T>(s: seq<T>, p: T -> bool, x: T)
    ensures x in Filter(s, p) <==> x in s && p(x)
  {
    if s != [] {
      FilterMembers(s[1..], p, x);
      assert s == [s[0]] + s[1..];
    }
  }

  method CollectXlsx(walk: seq<(string, seq<string>)>, sep: string) returns (xlsxFiles: seq<string>)
    ensures xlsxFiles == XlsxFiles(walk, sep)
  {
    xlsxFiles := [];
    var k := 0;
    while k < |walk|
      invariant 0 <= k <= |walk|
      invariant xlsxFiles == XlsxFiles(walk[..k], sep)
    {
      var subdir, files := walk[k].0, walk[k].1;
      var found := FolderXlsx(subdir, files, sep);
      xlsxFiles := xlsxFiles + found;
      WalkStep(walk, sep, k);
      k := k + 1;
    }
    assert walk[..k] == walk;
  }

  /** The inner loop over one folder's files: the paths that end in ".xlsx", in order. */
  method FolderXlsx(subdir: string, files: seq<string>, sep: string) returns (found: seq<string>)
    ensures found == Filter(Paths(subdir, files, sep), IsXlsx)
  {
    found := [];
    var i := 0;
    while i < |files|
      invariant 0 <= i <= |files|
      invariant found == Filter(Paths(subdir, files[..i], sep), IsXlsx)
    {
      var filepath := subdir + sep + files[i];
      FolderStep(subdir, files, sep, i);
      if EndsWith(filepath, ".xlsx") {
        found := found + [filepath];
      }
      i := i + 1;
    }
    assert files[..i] == files;
  }

  /** One pass of the outer loop: the next folder's workbooks follow those found so far. */
  lemma WalkStep(walk: seq<(string, seq<string>)>, sep: string, k: nat)
    requires k < |walk|
    ensures XlsxFiles(walk[..k + 1], sep) ==
      XlsxFiles(walk[..k], sep) + Filter(Paths(walk[k].0, walk[k].1, sep), IsXlsx)
  {
    assert walk[..k + 1][..k] == walk[..k];
    assert walk[..k + 1][k] == walk[k];
  }

  /** One pass of the inner loop: the path of the next file is kept when it is a workbook. */
  lemma FolderStep(dir: string, files: seq<string>, sep: string, i: nat)
    requires i < |files|
    ensures Filter(Paths(dir, files[..i + 1], sep), IsXlsx) ==
      Filter(Paths(dir, files[..i], sep), IsXlsx) + (if IsXlsx(dir + sep + files[i]) then [dir + sep + files[i]] else [])
  {
    var a, x := Paths(dir, files[..i], sep), dir + sep + files[i];
    assert Paths(dir, files[..i + 1], sep) == a + [x];
    FilterConcat(a, [x], IsXlsx);
    assert [x][1..] == [];
  }

  // ---------------------------------------------------------------------------
  // Reshaping one sheet

  /** 'Desk study' (read with the second column as index): transpose, drop the all-null
      rows and columns, rename. */
  function DeskStudy(t: Table, d: Dict): (r: Table)
    requires Valid(t)
    ensures Valid(r) && r.indexName == Null
    ensures forall i :: 0 <= i < |r.rows| ==> !RowAllNull(r.rows[i])
    ensures forall k :: 0 <= k < |r.cols| ==> !ColumnAllNull(r, k)
  {
    var u := DropNull(Transpose(t));
    DropNullNoNullRow(Transpose(t));
    DropNullNoNullColumn(Transpose(t));
    var r := Rename(u, d);
    assert forall k :: 0 <= k < |r.cols| ==> ColumnAllNull(r, k) == ColumnAllNull(u, k);
    r
  }

  /** Every non-null cell of the sheet survives the 'Desk study' reshape, transposed: in
      the row of its old column and the column of its old row label. */
  lemma DeskStudyKeepsCells(t: Table, d: Dict, i: nat, j: nat)
    requires Valid(t) && i < |t.rows| && j < |t.cols| && !IsNull(t.rows[i].cells[j])
    ensures var r := DeskStudy(t, d);
      exists i', k ::
        && 0 <= i' < |r.rows| && 0 <= k < |r.cols|
        && r.rows[i'].index == t.cols[j] && r.cols[k] == RenameLabel(t.rows[i].index, d)
        && r.rows[i'].cells[k] == t.rows[i].cells[j]
  {
    var tt := Transpose(t);
    TransposedCell(t, i, j);
    DropNullKeepsCells(tt, j, i);
    var u := DropNull(tt);
    RenameKeepsCells(u, d, t.cols[j], t.rows[i].index, t.rows[i].cells[j]);
    assert DeskStudy(t, d) == Rename(u, d);
  }

  lemma TransposedCell(t: Table, i: nat, j: nat)
    requires Valid(t) && i < |t.rows| && j < |t.cols|
    ensures var tt := Transpose(t);
      && Valid(tt) && j < |tt.rows| && i < |tt.cols|
      && tt.rows[j].index == t.cols[j] && tt.cols[i] == t.rows[i].index && tt.rows[j].cells[i] == t.rows[i].cells[j]
  {
  }

  /** A cell found under a row label and column label after the rename is under the same
      row label and the renamed column label. */
  lemma RenameKeepsCells(u: Table, d: Dict, rl: Cell, cl: Cell, c: Cell)
    requires Valid(u)
    requires exists i', k ::
      && 0 <= i' < |u.rows| && 0 <= k < |u.cols|
      && u.rows[i'].index == rl && u.cols[k] == cl && u.rows[i'].cells[k] == c
    ensures var r := Rename(u, d);
      exists i', k ::
        && 0 <= i' < |r.rows| && 0 <= k < |r.cols|
        && r.rows[i'].index == rl && r.cols[k] == RenameLabel(cl, d) && r.rows[i'].cells[k] == c
  {
    var i', k :| && 0 <= i' < |u.rows| && 0 <= k < |u.cols|
      && u.rows[i'].index == rl && u.cols[k] == cl && u.rows[i'].cells[k] == c;
    var r := Rename(u, d);
    assert r.rows[i'] == u.rows[i'] && r.cols[k] == RenameLabel(u.cols[k], d);
  }

  /** The drains, quadrat and vegetation sheets: drop the all-null rows and columns, turn
      the index into a column and relabel 0 .. n-1, drop the row labelled 1 (the row
      holding the data types), rename. */
  function TypedSheet(t: Table, d: Dict): (r: Result<Table>)
    requires Valid(t)
    ensures var u := DropNull(t);
      r.Err? <==> InsertedLabel(u) in u.cols || |u.rows| < 2
    ensures r.Err? && InsertedLabel(DropNull(t)) in DropNull(t).cols ==> r.error == ValueError
    ensures r.Err? && InsertedLabel(DropNull(t)) !in DropNull(t).cols ==> r.error == KeyError
  {
    var u := DropNull(t);
    var v :- ResetIndex(u);
    if |v.rows| >= 2 then DropSecondRow(v); TypedSheetTail(v, d)
    else
      assert !HasLabel(v, Num(1)) by {
        forall i | 0 <= i < |v.rows| ensures v.rows[i].index != Num(1) {
          assert v.rows[i].index == Num(i);
        }
      }
      TypedSheetTail(v, d)
  }

  function TypedSheetTail(v: Table, d: Dict): (r: Result<Table>)
    requires Valid(v)
    ensures r.Err? <==> !HasLabel(v, Num(1))
    ensures r.Err? ==> r.error == KeyError
  {
    var w :- DropLabel(v, Num(1));
    Ok(Rename(w, d))
  }

  /** What a successful typed-sheet reshape keeps: the first row and the rows from the
      third on of the cleaned sheet, each with its old label as the first cell and in
      order. */
  lemma {:induction false} TypedSheetRows(t: Table, d: Dict)
    requires Valid(t) && TypedSheet(t, d).Ok?
    ensures |DropNull(t).rows| >= 2 && |TypedSheet(t, d).value.rows| == |DropNull(t).rows| - 1
    ensures var u := DropNull(t);
      TypedSheet(t, d).value.cols == Rename(Table(Null, [InsertedLabel(u)] + u.cols, []), d).cols
    ensures var u := DropNull(t); var r := TypedSheet(t, d).value;
      r.rows[0].cells == [u.rows[0].index] + u.rows[0].cells
    ensures var u := DropNull(t); var r := TypedSheet(t, d).value;
      forall i :: 1 <= i < |r.rows| ==> r.rows[i].cells == [u.rows[i + 1].index] + u.rows[i + 1].cells
  {
    var u := DropNull(t);
    TypedSheetValue(t, d);
    var v := ResetIndex(u).value;
    TailRows(v, d);
    var r := TypedSheet(t, d).value;
    assert r.cols == Rename(Table(Null, [InsertedLabel(u)] + u.cols, []), d).cols;
    forall i | 1 <= i < |r.rows| ensures r.rows[i].cells == [u.rows[i + 1].index] + u.rows[i + 1].cells {
      assert r.rows[i] == v.rows[i + 1];
    }
  }

  /** Dropping label 1 from a default index and renaming keeps the first row and shifts
      the rows from the third on up by one. */
  lemma TailRows(v: Table, d: Dict)
    requires Valid(v) && DefaultIndex(v) && |v.rows| >= 2
    ensures DropLabel(v, Num(1)).Ok?
    ensures var r := Rename(DropLabel(v, Num(1)).value, d);
      && r.cols == Rename(v, d).cols && |r.rows| == |v.rows| - 1 && r.rows[0] == v.rows[0]
      && forall i :: 1 <= i < |r.rows| ==> r.rows[i] == v.rows[i + 1]
  {
    DropSecondRow(v);
  }

  lemma TypedSheetValue(t: Table, d: Dict)
    requires Valid(t) && TypedSheet(t, d).Ok?
    ensures ResetIndex(DropNull(t)).Ok?
    ensures var v := ResetIndex(DropNull(t)).value;
      && |v.rows| >= 2 && DropLabel(v, Num(1)).Ok?
      && TypedSheet(t, d) == Ok(Rename(DropLabel(v, Num(1)).value, d))
  {
  }

  /** The renaming of a sheet's columns: a label that is the 'Field name' of an entry of
      the sheet becomes the 'Field name for DB' of the last such entry, every other label
      is kept. */
  lemma SheetRename(cat: seq<Entry>, s: string, t: Table, j: nat)
    requires j < |t.cols|
    ensures var es := EntriesFor(cat, s); var c := t.cols[j]; var r := Rename(t, RenameMapping(cat, s));
      && (c.Str? && c.s in FieldColumn(es) ==> r.cols[j] == Str(es[LastIndex(FieldColumn(es), c.s)].dbField))
      && (!(c.Str? && c.s in FieldColumn(es)) ==> r.cols[j] == c)
  {
    var es := EntriesFor(cat, s);
    RenameMappingSemantics(cat, s);
    var d := RenameMapping(cat, s);
    if t.cols[j].Str? {
      var f := t.cols[j].s;
      if f !in FieldColumn(es) {
        assert !HasKey(d, f);
      }
    }
  }

  predicate TypedSheetName(s: string) {
    s == "Feature status - drains" || s == "Quadrat information" || s == "Vegetation"
  }

  predicate Handled(s: string) {
    s == "Desk study" || TypedSheetName(s)
  }

  /** `pd.read_excel(path, sheet_name=s, ...)` with the script's options for `s`; a
      failure is the exception it raises. */
  type SheetReader = (string, string) -> Result<Table>

  ghost predicate ReadsValid(reader: SheetReader) {
    forall path, s :: reader(path, s).Ok? ==> Valid(reader(path, s).value)
  }

  /** What one sheet of interest gives: nothing for a sheet the script ignores; otherwise
      `IndexError` when no workbook was found, the reader's error, or the reshaped frame. */
  function SheetFrame(s: string, files: seq<string>, m: seq<Entry>, reader: SheetReader): (r: Option<Result<Table>>)
    requires ReadsValid(reader)
    ensures r.None? <==> !Handled(s)
    ensures Handled(s) && files == [] ==> r == Some(Err(IndexError))
    ensures Handled(s) && files != [] && reader(files[0], s).Err? ==> r == Some(Err(reader(files[0], s).error))
  {
    if !Handled(s) then None
    else if |files| == 0 then Some(Err(IndexError))
    else
      var t := reader(files[0], s);
      if t.Err? then Some(Err(t.error))
      else if s == "Desk study" then Some(Ok(DeskStudy(t.value, RenameMapping(m, s))))
      else Some(TypedSheet(t.value, RenameMapping(m, s)))
  }

  /** Only the first workbook found is ever read. */
  lemma OnlyFirstFileRead(s: string, files: seq<string>, files': seq<string>, m: seq<Entry>, reader: SheetReader)
    requires ReadsValid(reader) && files != [] && files' != [] && files[0] == files'[0]
    ensures SheetFrame(s, files, m, reader) == SheetFrame(s, files', m, reader)
  {
  }

  // ---------------------------------------------------------------------------
  // The sheet loop

  /** The frames produced, in sheet order, and the exception that stopped the script, if any. */
  datatype Run = Run(frames: seq<(string, Table)>, failure: Option<Failure>)

  function RunSheets(sheets: seq<string>, files: seq<string>, m: seq<Entry>, reader: SheetReader): (r: Run)
    requires ReadsValid(reader)
    ensures |r.frames| <= |sheets|
    ensures forall i :: 0 <= i < |r.frames| ==> Handled(r.frames[i].0) && r.frames[i].0 in sheets
    decreases |sheets|
  {
    if sheets == [] then Run([], None)
    else
      match SheetFrame(sheets[0], files, m, reader)
      case None => RunSheets(sheets[1..], files, m, reader)
      case Some(Err(e)) => Run([], Some(e))
      case Some(Ok(t)) =>
        var rest := RunSheets(sheets[1..], files, m, reader);
        FramesCons(sheets, t, rest.frames);
        Run([(sheets[0], t)] + rest.frames, rest.failure)
  }

  /** Putting the first sheet's frame in front of the later sheets' frames keeps every
      frame one of a handled sheet. */
  lemma FramesCons(sheets: seq<string>, t: Table, rest: seq<(string, Table)>)
    requires sheets != [] && Handled(sheets[0]) && |rest| <= |sheets| - 1
    requires forall i :: 0 <= i < |rest| ==> Handled(rest[i].0) && rest[i].0 in sheets[1..]
    ensures var fs := [(sheets[0], t)] + rest;
      forall i :: 0 <= i < |fs| ==> Handled(fs[i].0) && fs[i].0 in sheets
  {
    var fs := [(sheets[0], t)] + rest;
    forall i | 0 <= i < |fs| ensures Handled(fs[i].0) && fs[i].0 in sheets {
      if i > 0 { assert fs[i] == rest[i - 1]; }
    }
  }

  /** Sheets named once give at most one frame each: no two frames share a sheet. */
  lemma {:induction false} RunSheetsOncePerSheet(sheets: seq<string>, files: seq<string>, m: seq<Entry>, reader: SheetReader)
    requires ReadsValid(reader) && Distinct(sheets)
    ensures SheetsOnce(RunSheets(sheets, files, m, reader).frames)
    decreases |sheets|
  {
    if sheets != [] {
      DistinctTail(sheets);
      RunSheetsOncePerSheet(sheets[1..], files, m, reader);
      var r := RunSheets(sheets, files, m, reader);
      var rest := RunSheets(sheets[1..], files, m, reader);
      match SheetFrame(sheets[0], files, m, reader)
      case None =>
        assert r == rest;
      case Some(Err(e)) =>
        assert r.frames == [];
      case Some(Ok(t)) =>
        assert r.frames == [(sheets[0], t)] + rest.frames;
        SheetsOnceCons(sheets, t, rest.frames);
    }
  }

  /** No two frames belong to the same sheet. */
  predicate SheetsOnce(fs: seq<(string, Table)>) {
    forall i, j :: 0 <= i < j < |fs| ==> fs[i].0 != fs[j].0
  }

  lemma DistinctTail(sheets: seq<string>)
    requires sheets != [] && Distinct(sheets)
    ensures Distinct(sheets[1..]) && sheets[0] !in sheets[1..]
  {
    var tail := sheets[1..];
    forall i, j | 0 <= i < j < |tail| ensures tail[i] != tail[j] {
      assert tail[i] == sheets[i + 1] && tail[j] == sheets[j + 1];
    }
    forall k | 0 <= k < |tail| ensures tail[k] != sheets[0] {
      assert tail[k] == sheets[k + 1];
    }
  }

  lemma SheetsOnceCons(sheets: seq<string>, t: Table, rest: seq<(string, Table)>)
    requires sheets != [] && sheets[0] !in sheets[1..] && SheetsOnce(rest)
    requires forall i :: 0 <= i < |rest| ==> rest[i].0 in sheets[1..]
    ensures SheetsOnce([(sheets[0], t)] + rest)
  {
    var fs := [(sheets[0], t)] + rest;
    forall i, j | 0 <= i < j < |fs| ensures fs[i].0 != fs[j].0 {
      assert fs[j] == rest[j - 1];
      if i > 0 {
        assert fs[i] == rest[i - 1];
      }
    }
  }

  /** Without a workbook the script fails exactly when a sheet it reshapes is of interest,
      and produces nothing. */
  lemma {:induction false} NoWorkbook(sheets: seq<string>, m: seq<Entry>, reader: SheetReader)
    requires ReadsValid(reader)
    ensures var r := RunSheets(sheets, [], m, reader);
      && r.frames == []
      && (r.failure == Some(IndexError) <==> exists k :: 0 <= k < |sheets| && Handled(sheets[k]))
      && (r.failure.None? <==> forall k :: 0 <= k < |sheets| ==> !Handled(sheets[k]))
    decreases |sheets|
  {
    if sheets != [] {
      NoWorkbook(sheets[1..], m, reader);
      if !Handled(sheets[0]) {
        if exists k :: 0 <= k < |sheets| && Handled(sheets[k]) {
          var k :| 0 <= k < |sheets| && Handled(sheets[k]);
          assert Handled(sheets[1..][k - 1]);
        }
        if forall k :: 0 <= k < |sheets[1..]| ==> !Handled(sheets[1..][k]) {
          forall k | 0 <= k < |sheets| ensures !Handled(sheets[k]) {
            if k > 0 { assert sheets[k] == sheets[1..][k - 1]; }
          }
        }
      }
    }
  }

  /** Each frame is the reshape of its sheet as read from the first workbook. */
  lemma {:induction false} RunFrames(sheets: seq<string>, files: seq<string>, m: seq<Entry>, reader: SheetReader, i: nat)
    requires ReadsValid(reader) && i < |RunSheets(sheets, files, m, reader).frames|
    ensures var f := RunSheets(sheets, files, m, reader).frames[i];
      SheetFrame(f.0, files, m, reader) == Some(Ok(f.1))
    decreases |sheets|
  {
    var r := RunSheets(sheets, files, m, reader);
    var rest := RunSheets(sheets[1..], files, m, reader);
    match SheetFrame(sheets[0], files, m, reader)
    case None =>
      assert r == rest;
      RunFrames(sheets[1..], files, m, reader, i);
    case Some(Ok(t)) =>
      assert r.frames == [(sheets[0], t)] + rest.frames;
      if i > 0 {
        assert r.frames[i] == rest.frames[i - 1];
        RunFrames(sheets[1..], files, m, reader, i - 1);
      }
  }

  /** The module-level script from line 28 on: the catalog filter, the walk, the sheet loop. */
  method ReadExcelTemplate(cat: seq<Entry>, walk: seq<(string, seq<string>)>, sep: string, reader: SheetReader)
    returns (frames: seq<(string, Table)>, failure: Option<Failure>)
    requires ReadsValid(reader)
    ensures Run(frames, failure) == RunSheets(Layers(KeepUploaded(cat)), XlsxFiles(walk, sep), KeepUploaded(cat), reader)
    ensures SheetsOnce(frames)
  {
    var m := KeepUploaded(cat);
    var sheets := Layers(m);
    var xlsxFiles := CollectXlsx(walk, sep);
    frames, failure := ReshapeSheets(sheets, xlsxFiles, m, reader);
    RunSheetsOncePerSheet(sheets, xlsxFiles, m, reader);
  }

  /** `for s in sheets_of_interest`: an exception ends the script. */
  method ReshapeSheets(sheets: seq<string>, files: seq<string>, m: seq<Entry>, reader: SheetReader)
    returns (frames: seq<(string, Table)>, failure: Option<Failure>)
    requires ReadsValid(reader)
    ensures Run(frames, failure) == RunSheets(sheets, files, m, reader)
  {
    frames, failure := [], None;
    var k := 0;
    while k < |sheets|
      invariant 0 <= k <= |sheets|
      invariant RunSheets(sheets, files, m, reader) ==
        var rest := RunSheets(sheets[k..], files, m, reader);
        Run(frames + rest.frames, rest.failure)
    {
      var s := sheets[k];
      assert sheets[k..][1..] == sheets[k + 1..];
      var df := SheetFrame(s, files, m, reader);
      match df {
        case None =>
        case Some(Err(e)) =>
          failure := Some(e);
          return;
        case Some(Ok(t)) =>
          frames := frames + [(s, t)];
      }
      k := k + 1;
    }
  }
}
