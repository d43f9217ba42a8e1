# pa-rmn-etl — a Dafny model of the restoration-monitoring ETL scripts

The repository holds three scripts that load field-survey data of the restoration
monitoring network into PostgreSQL:

- `rmn_spatial_template_reader.py` reads the layers of a survey geopackage, remaps each
  one through the mapping workbook ("RMN data for database") and loads it into its
  table of `pa_restoration_monitoring_network`, unless that table already holds the
  survey visit (`rmn_id`, `grant_id`, `visit`);
- `import_gpkg_to_pg.py` turns each eligible layer of a geopackage into one
  `INSERT ... VALUES` statement, adding the grant or feasibility id to every feature;
- `rmn_excel_template_reader.py` reads the sheets of interest of the first survey
  workbook, reshapes them and renames their columns through the mapping workbook.

The model keeps the scripts' own procedures, meaning their loops and their step-by-step
reassignment of the frame. These are methods proved against specification functions.
The pandas and OGR operations they call are pure functions over one table value
(`Frames.Table`: an index, column labels, rows of cells). Every exception the code can
raise on the modelled paths is a `Failure` value. The database, the file system, the
geometry library and the date parser are parameters:

- `ExistenceOracle` answers the guard's queries;
- the geopackage is a map from layer name to frame;
- `GeoLib` holds the union that `dissolve` takes and `geom.wkt`;
- `parse` is `pd.to_datetime` on one cell that is not a date, a null, a boolean or a geometry;
- `wkt` is `str(geom)`;
- `SheetReader` is `pd.read_excel`;
- `walk` is what `os.walk` yields.

The modules follow the scripts:

- `Catalog`: the mapping workbook;
- `SpatialValues`: `modify_sampling_point`, `to_multipolygon` and the blank-to-None rule;
- `SpatialNormaliser`: `remap_and_export`;
- `SpatialPipeline`: `check_values_not_exist` and the layer loop;
- `GpkgImport`;
- `ExcelReader`.

The shared libraries are `Wrappers`, `Seqs`, `Cells`, `Dicts` and `Frames`.

Behaviour of the scripts that the model keeps:

- The table of a layer is the `Database layer` value of its first uploaded catalog entry
  (`iloc[0]`, `rmn_spatial_template_reader.py` line 275); a layer whose entries name
  several tables is loaded into that first one.
- `pd.to_datetime` (line 220) raises `ValueError` for a date it cannot parse and
  `TypeError` for a boolean or a geometry; the two reach different `except` clauses
  (lines 323 and 327).
- When any existence query fails, the guard returns `None` for the whole run (lines
  111-113). Every layer then fails: at the latest with `TypeError` at the push gate
  (line 275), or earlier with its own error.
- Only blank or whitespace-only strings and NaN/NaT become `None` (lines 253-254).
- Rows are pruned by `dropna` on the geopackage frame (lines 306-307), before the remap
  and before the key columns are added.
- A failed projection is swallowed (lines 240-245), so such a frame is loaded with its
  columns unprojected.

## Model

| member | source | states |
|---|---|---|
| `Catalog.KeepUploaded` | rmn_spatial_template_reader.py:159 | the kept entries are exactly the catalog entries whose 'Upload to DB' is exactly "Yes" |
| `Catalog.NamesOfUploaded` | rmn_spatial_template_reader.py:159-164 | layers and tables are duplicate-free; a name is listed iff some uploaded entry has it; they appear in the order of their first entry |
| `Catalog.RenameMappingSemantics` | rmn_spatial_template_reader.py:190-195 | the mapping's keys are the layer's fields in first-appearance order; each maps to the DB name of the LAST entry for that field; the target columns are the values in key order |
| `Dicts.ZipKeys` | rmn_spatial_template_reader.py:195 | the keys of `dict(zip(ks, vs))` are the distinct `ks` in first-appearance order |
| `Dicts.ZipGet` | rmn_spatial_template_reader.py:195 | a key of `dict(zip(ks, vs))` maps to the value paired with its last occurrence |
| `Dicts.ZipHasKey` | rmn_excel_template_reader.py:68 | a name is a key of `dict(zip(ks, vs))` iff it occurs in `ks` |
| `SpatialValues.RSplitJoin` | rmn_spatial_template_reader.py:176-180 | joining `rsplit("_", 1)` with "_" gives the string back |
| `SpatialValues.ModifySamplingPoint` | rmn_spatial_template_reader.py:175-180 | an identifier ending in '_' and one digit gets a '0' before that digit; every other identifier comes back unchanged |
| `SpatialValues.ModifySamplingPointSpec` | rmn_spatial_template_reader.py:175-180 | no '_' leaves the value unchanged; a single digit after the last '_' gets a '0' in front of it; any other suffix leaves the value unchanged |
| `SpatialValues.ModifySamplingPointIdempotent` | rmn_spatial_template_reader.py:175-180 | padding twice is padding once |
| `SpatialValues.ToMultiPolygon` | rmn_spatial_template_reader.py:292-295 | a polygon becomes the one-part multipolygon of it; any other geometry is returned as it is; no polygon comes out |
| `SpatialValues.ToMultiPolygonCell` | rmn_spatial_template_reader.py:297 | geometry cells are promoted as above; null and NaN cells pass through |
| `SpatialValues.CleanCell` | rmn_spatial_template_reader.py:253-254 | a cell becomes None iff it is None, NaN/NaT or a blank or whitespace-only string; other cells are unchanged; no NaN or blank string survives |
| `SpatialNormaliser.Backfill` | rmn_spatial_template_reader.py:202-208 | 'Photos' gains `dams_link` and 'Area-level assessment' gains `other_damage_notes`, all NaN, when missing; an existing column and every other layer are unchanged |
| `SpatialNormaliser.ToDatetime` | rmn_spatial_template_reader.py:219-220 | without 'date' the frame is unchanged; otherwise it fails iff some cell is not convertible, with that cell's error: TypeError for a boolean or a geometry, ValueError for a value the parser rejects; dates stay, nulls become NaT, other columns are untouched |
| `SpatialNormaliser.KeepLatestYear` | rmn_spatial_template_reader.py:223-235 | on the sampling_point layer: a missing 'date' raises KeyError and a non-date cell raises AttributeError; the working 'year' column remains only when no year exists (`nunique() == 0`); with one year every row is kept |
| `SpatialNormaliser.KeepLatestYearSingle` | rmn_spatial_template_reader.py:228-230 | with exactly one distinct year the frame comes out unchanged |
| `SpatialNormaliser.KeepLatestYearLatest` | rmn_spatial_template_reader.py:232-235 | with several distinct years exactly the rows dated in the maximum year are kept, in order, and 'year' is removed |
| `SpatialNormaliser.ProjectOrKeep` | rmn_spatial_template_reader.py:240-245 | a missing target column leaves the frame unchanged (the KeyError is swallowed); otherwise the columns are exactly the targets, in mapping order |
| `SpatialNormaliser.InjectKeys` | rmn_spatial_template_reader.py:247-250 | the columns gain the key names not already present, in assignment order; every row holds the three key values; all other cells are unchanged |
| `SpatialNormaliser.NullifyBlanks` | rmn_spatial_template_reader.py:252-254 | every cell becomes its `CleanCell`; labels and row order stay |
| `SpatialNormaliser.PadSamplingPoints` | rmn_spatial_template_reader.py:267-269 | every `sampling_point` value becomes `modify_sampling_point` of itself; a non-string one raises AttributeError; other columns are unchanged |
| `SpatialNormaliser.RecomputeDrainPoints` | rmn_spatial_template_reader.py:271-273 | when present, `drain_point` becomes `sampling_point` + "_drain", and NaN where the sampling point is null; a missing `sampling_point` raises KeyError, and a non-null value that is not a string TypeError |
| `SpatialNormaliser.Normalise` | rmn_spatial_template_reader.py:183-273 | the frame `remap_and_export` hands to the insert is well formed (rectangular, unique labels); its columns and keys are stated by the two lemmas below |
| `SpatialNormaliser.NormaliseColumns` | rmn_spatial_template_reader.py:240-250 | when the frame has every target column, the loaded columns are the targets in mapping order followed by the key names not among them; otherwise they are the unprojected columns plus the missing keys |
| `SpatialNormaliser.NormaliseKeys` | rmn_spatial_template_reader.py:247-254 | every loaded row holds the three visit-key values as the blank-to-None rule leaves them |
| `SpatialNormaliser.FinishedIdentifiers` | rmn_spatial_template_reader.py:267-273 | each loaded sampling point is the padded original, and each drain point is that padded value + "_drain" |
| `SpatialNormaliser.InsertFor` | rmn_spatial_template_reader.py:117-131 | the insert targets the given table, its statement names the frame's column labels in order, and it carries each row's cells as one tuple, row by row; it fails with TypeError iff some column label is not a string |
| `SpatialNormaliser.InsertQuery` | rmn_spatial_template_reader.py:131 | the statement text for a table and its columns; `InsertQueryColumns` states that it names the table and, between the parentheses, the columns in order |
| `SpatialNormaliser.InsertQueryColumns` | rmn_spatial_template_reader.py:125-131 | the statement is `INSERT INTO <table>(` … `) VALUES %s`, and splitting its column list on ',' gives back the column names when none holds a comma |
| `SpatialNormaliser.PushGate` | rmn_spatial_template_reader.py:275 | a guard result of None raises TypeError; otherwise the layer is pushed iff its first entry's table is in the push list |
| `SpatialNormaliser.RemapAndLoad` | rmn_spatial_template_reader.py:275-280 | an insert is issued only into the schema-qualified first table, only when that table is in the push list; its statement names the normalised frame's columns and it carries the normalised rows; a table not in the list issues none |
| `SpatialNormaliser.InsertedColumns` | rmn_spatial_template_reader.py:240-280 | when the frame has every target column, the issued statement names the mapping's target columns in mapping order, then the key columns the mapping lacks |
| `SpatialNormaliser.RemapAndExport` | rmn_spatial_template_reader.py:183-280 | the step-by-step body computes exactly `RemapAndLoad` |
| `SpatialNormaliser.StageFrame` | rmn_spatial_template_reader.py:195-235 | backfill, rename, date parsing and the latest-year filter, done in place, compute exactly `Staged` |
| `SpatialNormaliser.CleanFrame` | rmn_spatial_template_reader.py:240-254 | projection, key injection and the blank-to-None replacements compute exactly `Cleaned` |
| `SpatialNormaliser.FinishFrame` | rmn_spatial_template_reader.py:267-273 | padding the sampling points and rebuilding the drain points compute exactly `Finished` |
| `SpatialPipeline.ExistsQuery` | rmn_spatial_template_reader.py:90-94 | the existence query for one table, comparing each of the three key columns with a `%s` placeholder; `ExistsQueryPlaceholders` states the placeholder count |
| `SpatialPipeline.ExistsQueryPlaceholders` | rmn_spatial_template_reader.py:90-96 | when no name in the query holds a '%', it has exactly one '%' per value bound to it, the three of line 96 |
| `SpatialPipeline.CheckValuesNotExist` | rmn_spatial_template_reader.py:77-114 | anything but 3 columns and 3 values raises ValueError; otherwise the result is the tables whose answer is false, in input order, or None when a query failed |
| `SpatialPipeline.PendingMembers` | rmn_spatial_template_reader.py:101-104 | a table is pending iff it was asked about and its answer was false |
| `SpatialPipeline.NothingLoadedYet` | rmn_spatial_template_reader.py:88-110 | a visit absent from every table leaves every table pending |
| `SpatialPipeline.AlreadyLoaded` | rmn_spatial_template_reader.py:102-108 | a visit present in every table leaves no table pending |
| `SpatialPipeline.FirstNonNull` | rmn_spatial_template_reader.py:298 | the aggregated value is the first non-null cell of the column, NaN when all are null |
| `SpatialPipeline.Dissolve` | rmn_spatial_template_reader.py:298 | no rows come out of an empty frame; otherwise one row labelled 0 holds the geometry union first and, for every other column, its first non-null value |
| `SpatialPipeline.MonitoringArea` | rmn_spatial_template_reader.py:291-298 | a missing 'geometry' raises KeyError; the dissolved geometry is the union of the ORIGINAL geometries; the promoted values go to the misspelt 'geomery' column |
| `SpatialPipeline.GeomeryAfterDissolve` | rmn_spatial_template_reader.py:297-298 | after dissolving, 'geomery' holds the first non-null promoted geometry |
| `SpatialPipeline.RebuildPoints` | rmn_spatial_template_reader.py:302-304 | rebuilding each point from its x and y gives the same frame; a non-point geometry raises AttributeError, as do null cells |
| `SpatialPipeline.FieldPoints` | rmn_spatial_template_reader.py:301 | the result is the rows whose 'source' is exactly "field", relabelled 0..n-1; a missing 'source' raises KeyError |
| `SpatialPipeline.FieldPointsOnlyField` | rmn_spatial_template_reader.py:301 | every kept sampling point was surveyed in the field and is a row of the layer |
| `SpatialPipeline.FieldPointsAllField` | rmn_spatial_template_reader.py:301 | every field-surveyed row of the layer is kept |
| `SpatialPipeline.ToWkt` | rmn_spatial_template_reader.py:309 | a missing 'geometry' raises KeyError; the conversion succeeds iff every geometry cell is a geometry; it then holds that geometry's WKT and the other cells are unchanged |
| `SpatialPipeline.Finalise` | rmn_spatial_template_reader.py:306-309 | after both `dropna` calls, the relabelling and WKT no row is entirely null and the index is 0..n-1 |
| `SpatialPipeline.PrepareLayer` | rmn_spatial_template_reader.py:290-309 | the prepared frame is well formed, indexed 0..n-1 and has no all-null row |
| `SpatialPipeline.LayerSpecific` | rmn_spatial_template_reader.py:291-304 | only 'monitoring_area', 'sampling_point' and 'drain_points' are changed before the clean-up; the rest pass unchanged |
| `SpatialPipeline.ProcessLayer` | rmn_spatial_template_reader.py:287-332 | one pass of the layer loop with every exception caught: an error becomes the layer's failure, an unpushed layer is skipped, and otherwise its insert is the outcome; its cases are stated by `MissingLayerFails`, `FailsWithoutGuard`, `LoadedOnlyWhenPushed` and `SkippedIffNormalised` |
| `SpatialPipeline.MissingLayerFails` | rmn_spatial_template_reader.py:290-324 | a layer the file does not have fails with ValueError |
| `SpatialPipeline.FailsWithoutGuard` | rmn_spatial_template_reader.py:275-280 | when the guard returned None, every layer fails: at the latest at the membership test of line 275, which raises TypeError, or earlier with its own error |
| `SpatialPipeline.LoadedOnlyWhenPushed` | rmn_spatial_template_reader.py:275-280 | a load targets the schema-qualified first table of the layer, and only when that table is in the push list |
| `SpatialPipeline.SkippedIffNormalised` | rmn_spatial_template_reader.py:275-282 | a prepared layer whose table is not in the push list is skipped exactly when its remap succeeds |
| `SpatialPipeline.AttemptLayer` | rmn_spatial_template_reader.py:287-319 | the `try` body (read, prepare, remap and export) gives exactly the layer's outcome, with every exception caught |
| `SpatialPipeline.LoadLayers` | rmn_spatial_template_reader.py:285-332 | one outcome per layer in catalog order, each that layer's own `ProcessLayer` (a failure in one layer does not stop the others); the inserts are those of the loaded layers, in order |
| `SpatialPipeline.LayerPass` | rmn_spatial_template_reader.py:285-332 | one pass of the loop extends the outcomes by the next layer's outcome, and the inserts by its insert exactly when it loaded |
| `SpatialPipeline.IssuedFrom` | rmn_spatial_template_reader.py:280 | every issued insert comes from a loaded layer |
| `SpatialPipeline.InsertsArePushed` | rmn_spatial_template_reader.py:275-280 | every insert targets the first table of one of the layers, and that table is in the push list |
| `SpatialPipeline.RunSpatialPipeline` | rmn_spatial_template_reader.py:159-332 | the push list is the guard's result over the uploaded tables; one outcome per uploaded layer; no insert at all when the guard failed |
| `SpatialPipeline.NothingWithoutGuard` | rmn_spatial_template_reader.py:172-280 | when the guard failed, every layer's outcome is a failure |
| `SpatialPipeline.InsertOnlyWhereAbsent` | rmn_spatial_template_reader.py:172-280 | an insert goes only into a table whose existence query answered that the visit is absent |
| `GpkgImport.FieldList` | import_gpkg_to_pg.py:33-55 | the geometry column comes first iff its name is non-empty; then the fields in definition order; then the schema's id column |
| `GpkgImport.IdColumnCases` | import_gpkg_to_pg.py:49-53 | `grant_id` for pa_final_report, pa_application and test_data_model; `fs_id` for pa_feasibility; nothing for any other schema |
| `GpkgImport.CreateFieldList` | import_gpkg_to_pg.py:33-55 | the loop builds exactly `FieldList` |
| `GpkgImport.EscapeReadsBack` | import_gpkg_to_pg.py:91 | a doubled string is a well-formed literal body, and collapsing each `''` gives the string back |
| `GpkgImport.QuoteRoundTrip` | import_gpkg_to_pg.py:88-92 | stripping the quotes and collapsing each `''` recovers the original string |
| `GpkgImport.GrantLiteral` | import_gpkg_to_pg.py:98 | the unescaped grant literal reads back as the grant id iff the id holds no apostrophe |
| `GpkgImport.NatTextReadsBack` | import_gpkg_to_pg.py:96 | the decimal text of a natural number reads back as that number |
| `GpkgImport.IntTextReadsBack` | import_gpkg_to_pg.py:96 | `str()` of an integer reads back as that integer |
| `GpkgImport.Render` | import_gpkg_to_pg.py:80-96 | the text of one value in a tuple; `RenderReadsBack` states how a SQL reader takes each case back |
| `GpkgImport.RenderReadsBack` | import_gpkg_to_pg.py:80-96 | a boolean-subtype integer renders as True iff non-zero, else False (None too); a string renders as its escaped, quoted literal; an integer as its decimal; None as NULL |
| `GpkgImport.Items` | import_gpkg_to_pg.py:72-98 | a feature's values: `st_geomfromtext('<wkt>',27700)` first when it has a geometry, then one value per key in order, then the quoted grant id |
| `GpkgImport.FeatureValues` | import_gpkg_to_pg.py:72-98 | the key loop builds exactly `Items` |
| `GpkgImport.Tuples` | import_gpkg_to_pg.py:62-100 | as many tuples as features that are not None, each parenthesised |
| `GpkgImport.TupleOfFeature` | import_gpkg_to_pg.py:62-100 | each feature that is not None has its own tuple in the list, at the position counted by the non-None features before it |
| `GpkgImport.TuplesOfFeatures` | import_gpkg_to_pg.py:69-100 | every tuple is the tuple of a non-null feature, whose position it returns |
| `GpkgImport.ValuesString` | import_gpkg_to_pg.py:100-102 | the text always ends in ';' and is exactly ";" iff every feature is None |
| `GpkgImport.TerminatedJoin` | import_gpkg_to_pg.py:100 | appending `,\n` after each tuple is the tuples joined by `,\n`, plus a trailing `,\n` |
| `GpkgImport.TrimmedIsValues` | import_gpkg_to_pg.py:102 | removing the last two characters and adding ';' gives the tuples joined by `,\n` plus ';' |
| `GpkgImport.CreateValuesString` | import_gpkg_to_pg.py:58-103 | the nested loops build exactly `ValuesString` |
| `GpkgImport.ArgsRules` | import_gpkg_to_pg.py:117-134 | pa_final_report without a year end is rejected; the other three schemas are accepted; any other schema is refused |
| `GpkgImport.MetadataSchema` | import_gpkg_to_pg.py:141-145 | `pa_metadata` for pa_final_report, pa_application and pa_feasibility; `test_data_model` otherwise |
| `GpkgImport.ReferenceQuery` | import_gpkg_to_pg.py:155-171 | grant schemas count `grant_reference` rows by `grant_id`; pa_feasibility counts `pa_metadata.feasibility_reference` rows by `fs_id` |
| `GpkgImport.InsertStatement` | import_gpkg_to_pg.py:230-236 | the statement for one layer, closed by its ';'; `StatementsCarryId` states that its column list ends in the schema's id column |
| `GpkgImport.Statements` | import_gpkg_to_pg.py:202-239 | the statements sent if each is accepted: none when the reference count is not positive; otherwise as many as the layers with features whose name is in the table list |
| `GpkgImport.StatementsOfEligible` | import_gpkg_to_pg.py:210-239 | every statement exists only under a positive reference count and inserts a layer (whose position it returns) that has features and whose name is in the table list into `schema.layer` |
| `GpkgImport.StatementOfEligible` | import_gpkg_to_pg.py:210-239 | conversely, under a positive count every layer with features whose name is in the table list has its statement in the list, at the position counted by the eligible layers before it |
| `GpkgImport.ImportGeopackage` | import_gpkg_to_pg.py:202-239 | the layer loop issues exactly `Statements`, supposing the database accepts each one |
| `GpkgImport.RunImport` | import_gpkg_to_pg.py:128-239 | refused arguments send nothing; accepted ones send exactly `Statements` under the count the schema's reference query returns for the grant id |
| `GpkgImport.StatementsCarryId` | import_gpkg_to_pg.py:33-55 | under accepted arguments each statement was allowed by a positive reference count, inserts an eligible layer, and its column list ends in `grant_id` (or `fs_id` for pa_feasibility) |
| `Frames.DropNullNoNullRow` | rmn_spatial_template_reader.py:306-307 | after both `dropna` calls no row is entirely null |
| `Frames.DropNullNoNullColumn` | rmn_excel_template_reader.py:59-60 | after both `dropna` calls no column is entirely null |
| `Frames.DropNullKeepsCells` | rmn_excel_template_reader.py:74-75 | every non-null cell survives both `dropna` calls under its row and column labels |
| `Frames.Transpose` | rmn_excel_template_reader.py:58 | rows and columns swap, labels included |
| `Frames.TransposeTwice` | rmn_excel_template_reader.py:58 | transposing twice gives the table back |
| `Frames.ResetIndex` | rmn_excel_template_reader.py:77 | the index becomes the first column and rows are labelled 0..n-1; the insert fails with ValueError iff the label is already a column |
| `Frames.ResetIndexDrop` | rmn_spatial_template_reader.py:308 | rows are relabelled 0..n-1; labels and cells are kept |
| `Frames.DropLabel` | rmn_excel_template_reader.py:78 | the rows labelled `l` are removed and all others kept; KeyError iff there is none |
| `Frames.DropSecondRow` | rmn_excel_template_reader.py:95 | on a 0..n-1 index of at least two rows, dropping label 1 removes exactly the second row |
| `Frames.Rename` | rmn_excel_template_reader.py:69 | each label that is a mapping key becomes its value; others and all cells stay |
| `ExcelReader.SheetsOfInterest` | rmn_excel_template_reader.py:28-34 | the sheets are the layers of uploaded entries, each once, in the order of their first entry |
| `ExcelReader.XlsxFilesMembers` | rmn_excel_template_reader.py:43-48 | a path is collected iff it ends in ".xlsx" and names a file of the walk |
| `ExcelReader.FolderXlsx` | rmn_excel_template_reader.py:44-48 | the inner loop collects exactly the paths of one folder that end in ".xlsx", in file order |
| `ExcelReader.CollectXlsx` | rmn_excel_template_reader.py:41-48 | the nested walk loops collect exactly the `.xlsx` paths, folder by folder in walk order |
| `ExcelReader.DeskStudy` | rmn_excel_template_reader.py:55-69 | after transposing and both `dropna` calls, no row and no column is entirely null |
| `ExcelReader.DeskStudyKeepsCells` | rmn_excel_template_reader.py:58-60 | every non-null cell survives transposed, under its old column as row label and its renamed old row label as column |
| `ExcelReader.TypedSheet` | rmn_excel_template_reader.py:72-103 | the reshape fails iff the reset label already exists (ValueError) or fewer than two rows remain (KeyError at `drop([1])`) |
| `ExcelReader.TypedSheetRows` | rmn_excel_template_reader.py:74-78 | it keeps the first row and the rows from the third on, each with its old label as first cell, in order |
| `ExcelReader.SheetRename` | rmn_excel_template_reader.py:64-69 | a label that is a field of the sheet's entries becomes the DB name of the LAST such entry; others are kept |
| `ExcelReader.SheetFrame` | rmn_excel_template_reader.py:53-103 | ignored sheets give nothing; a handled sheet with no workbook raises IndexError; a read failure is the reader's error |
| `ExcelReader.OnlyFirstFileRead` | rmn_excel_template_reader.py:56 | only the first collected workbook is read |
| `ExcelReader.RunSheets` | rmn_excel_template_reader.py:53-103 | there are no more frames than sheets, and every frame comes from a handled sheet of interest |
| `ExcelReader.RunSheetsOncePerSheet` | rmn_excel_template_reader.py:53-103 | when no sheet is listed twice (as the `unique()` sheets of interest are), no two frames belong to the same sheet |
| `ExcelReader.NoWorkbook` | rmn_excel_template_reader.py:56 | without a workbook no frame is made, and the script fails with IndexError iff a handled sheet is of interest |
| `ExcelReader.RunFrames` | rmn_excel_template_reader.py:53-103 | each frame is its sheet's reshape, read from the first workbook |
| `ExcelReader.ReshapeSheets` | rmn_excel_template_reader.py:53-103 | the sheet loop computes exactly `RunSheets`, stopping at the first exception |
| `ExcelReader.ReadExcelTemplate` | rmn_excel_template_reader.py:28-103 | the script is the catalog filter, the walk and the sheet loop, as `RunSheets` over the uploaded sheets and the collected workbooks; each sheet gives at most one frame |

## Left out

- Database connections, cursors, commit and rollback are not modelled: they are driver I/O. The guard's queries are answered by a parameter; the load is the `Insert` value `execute_values` would send, and its own error handling (rollback, `return 1`) is not modelled.
- Argument parsing, file-existence checks and `sys.exit` are plumbing. The importer's argparse choices and year-end rule are kept, as `GpkgImport.ArgsAccepted`, which `GpkgImport.RunImport` applies.
- `gpd.read_file`, `pd.read_excel`, `gpkg_driver.Open` and `os.walk` are external I/O. Each is a parameter: the geopackage map, `SheetReader`, the layer list and `walk`.
- The debug `to_csv` and `to_excel` exports and all `print` calls are left out: they have no effect on the data.
- `pd.to_datetime` is a library parser, so it is the parameter `parse`. Dates carry their year.
- Shapely and OGR geometry are left out: they are floating-point libraries. `Geometry` is an abstract datatype; the union and the WKT text are parameters, and rebuilding a point from its x and y is the identity on points.
- `multipolygon_to_polygon` is never called.
- The second `check_values_not_exist` call (line 321) is left out: its result is discarded and it changes nothing.
- The importer's `information_schema` query and the `UPDATE` of `financial_year_end` are not executed. The table list is an input. The reference-count query's text is modelled (`GpkgImport.ReferenceQuery`), and its answer is the parameter `countOf` of `GpkgImport.RunImport`.
- The `try` around building the rename mapping (lines 187-200) is left out: a catalog entry always has its fields, so that failure path cannot arise in the model.
- Duplicate column labels are cut short. pandas would carry them on after a rename or projection produces them, and the insert would then fail at the database. Here the layer ends with `DuplicateLabels`.
- `str.isdigit` is taken over the ASCII digits only; Unicode digits are left out.
- Integers are unbounded: OGR's 64-bit integers and pandas' integer widths are not modelled.
- `SpatialNormaliser.KeepLatestYearSingle` and `SpatialNormaliser.KeepLatestYearLatest` state their equalities only for a layer that has no 'year' column of its own. With one, the working column overwrites it in place; `KeepLatestYear` covers that case only through its general contract.
- `GpkgImport.Statements` and `GpkgImport.ImportGeopackage` give what would be sent if the database accepted every statement. All `cur.execute` calls run inside the one `with pg_conn:` block (`import_gpkg_to_pg.py` lines 203-239). The first INSERT the database refuses therefore raises out of the loop and rolls back every earlier INSERT, and nothing is committed. A grant id containing an apostrophe (see `GpkgImport.GrantLiteral`) or a feature without geometry in a layer with a geometry column are two such cases. The database's acceptance is not modelled.
- OGR guarantees that a feature has one value per field and that an integer field holds an integer or None. The importer's members require this (`Fits`, `LayerFits`) rather than modelling a malformed feature.
- The messages printed by the per-layer `except` clauses are left out. Each exception is the layer's `Failed` outcome.
