/** The field-mapping workbook both readers load: one entry per source field, saying which
    layer (sheet) it belongs to, its database column name, its destination table and
    whether it is uploaded. */
module Catalog {
  import opened Seqs
  import opened Dicts

  /** `layer` is the 'Tab or geopackage layer' column (the Excel reader calls it 'Tab or
      layer'), `field` is 'Field name', `dbField` is 'Field name for DB', `table` is
      'Database layer' and `upload` is 'Upload to DB'. */
  datatype Entry = Entry(layer: string, field: string, dbField: string, table: string, upload: string)

  /** `map_df[map_df['Upload to DB'] == 'Yes']`: the entries flagged exactly "Yes", in order. */
  function KeepUploaded(cat: seq<Entry>): (r: seq<Entry>)
    ensures forall i :: 0 <= i < |r| ==> r[i] in cat && r[i].upload == "Yes"
    ensures forall i :: 0 <= i < |cat| && cat[i].upload == "Yes" ==> cat[i] in r
  {
    Filter(cat, (e: Entry) => e.upload == "Yes")
  }

  function LayerColumn(cat: seq<Entry>): (ls: seq<string>)
    ensures |ls| == |cat| && forall i :: 0 <= i < |cat| ==> ls[i] == cat[i].layer
  {
    seq(|cat|, i requires 0 <= i < |cat| => cat[i].layer)
  }

  function TableColumn(cat: seq<Entry>): (ts: seq<string>)
    ensures |ts| == |cat| && forall i :: 0 <= i < |cat| ==> ts[i] == cat[i].table
  {
    seq(|cat|, i requires 0 <= i < |cat| => cat[i].table)
  }

  /** `map_df['Tab or geopackage layer'].unique()`. */
  function Layers(cat: seq<Entry>): seq<string> {
    Unique(LayerColumn(cat))
  }

  /** `map_df['Database layer'].unique()`. */
  function Tables(cat: seq<Entry>): seq<string> {
    Unique(TableColumn(cat))
  }

  /** The catalog's layers and tables are listed once each, every layer or table of an
      uploaded entry is listed, and they appear in the order of their first entry. */
  lemma NamesOfUploaded(cat: seq<Entry>)
    ensures Distinct(Layers(KeepUploaded(cat))) && Distinct(Tables(KeepUploaded(cat)))
    ensures forall s :: s in Layers(KeepUploaded(cat)) <==> exists e :: e in cat && e.upload == "Yes" && e.layer == s
    ensures forall t :: t in Tables(KeepUploaded(cat)) <==> exists e :: e in cat && e.upload == "Yes" && e.table == t
    ensures var m := KeepUploaded(cat);
      forall i, j :: 0 <= i < j < |Layers(m)| ==>
        FirstIndex(LayerColumn(m), Layers(m)[i]) < FirstIndex(LayerColumn(m), Layers(m)[j])
    ensures var m := KeepUploaded(cat);
      forall i, j :: 0 <= i < j < |Tables(m)| ==>
        FirstIndex(TableColumn(m), Tables(m)[i]) < FirstIndex(TableColumn(m), Tables(m)[j])
  {
    var m := KeepUploaded(cat);
    UniqueFirstAppearance(LayerColumn(m));
    UniqueFirstAppearance(TableColumn(m));
    assert Distinct(Layers(m)) && Distinct(Tables(m));
    forall s ensures s in Layers(m) <==> exists e :: e in cat && e.upload == "Yes" && e.layer == s {
      UploadedLayer(cat, s);
    }
    forall t ensures t in Tables(m) <==> exists e :: e in cat && e.upload == "Yes" && e.table == t {
      UploadedTable(cat, t);
    }
  }

  lemma UploadedLayer(cat: seq<Entry>, s: string)
    ensures s in Layers(KeepUploaded(cat)) <==> exists e :: e in cat && e.upload == "Yes" && e.layer == s
  {
    var m := KeepUploaded(cat);
    var ls := LayerColumn(m);
    if s in Layers(m) {
      var i :| 0 <= i < |Layers(m)| && Layers(m)[i] == s;
      assert s in ls;
      var k :| 0 <= k < |ls| && ls[k] == s;
      assert m[k] in cat && m[k].upload == "Yes" && m[k].layer == s;
    }
    if e :| e in cat && e.upload == "Yes" && e.layer == s {
      var i :| 0 <= i < |cat| && cat[i] == e;
      assert e in m;
      var k :| 0 <= k < |m| && m[k] == e;
      assert ls[k] == s;
    }
  }

  lemma UploadedTable(cat: seq<Entry>, t: string)
    ensures t in Tables(KeepUploaded(cat)) <==> exists e :: e in cat && e.upload == "Yes" && e.table == t
  {
    var m := KeepUploaded(cat);
    var ts := TableColumn(m);
    if t in Tables(m) {
      var i :| 0 <= i < |Tables(m)| && Tables(m)[i] == t;
      assert t in ts;
      var k :| 0 <= k < |ts| && ts[k] == t;
      assert m[k] in cat && m[k].upload == "Yes" && m[k].table == t;
    }
    if e :| e in cat && e.upload == "Yes" && e.table == t {
      var i :| 0 <= i < |cat| && cat[i] == e;
      assert e in m;
      var k :| 0 <= k < |m| && m[k] == e;
      assert ts[k] == t;
    }
  }

  /** `map_df[map_df['Tab or geopackage layer'] == s]`. */
  function EntriesFor(cat: seq<Entry>, s: string): (r: seq<Entry>)
    ensures forall i :: 0 <= i < |r| ==> r[i] in cat && r[i].layer == s
    ensures forall i :: 0 <= i < |cat| && cat[i].layer == s ==> cat[i] in r
  {
    Filter(cat, (e: Entry) => e.layer == s)
  }

  function FieldColumn(es: seq<Entry>): (fs: seq<string>)
    ensures |fs| == |es| && forall i :: 0 <= i < |es| ==> fs[i] == es[i].field
  {
    seq(|es|, i requires 0 <= i < |es| => es[i].field)
  }

  function DbFieldColumn(es: seq<Entry>): (fs: seq<string>)
    ensures |fs| == |es| && forall i :: 0 <= i < |es| ==> fs[i] == es[i].dbField
  {
    seq(|es|, i requires 0 <= i < |es| => es[i].dbField)
  }

  /** `dict(zip(remap_df['Field name'], remap_df['Field name for DB']))` for layer `s`. */
  function RenameMapping(cat: seq<Entry>, s: string): Dict {
    var es := EntriesFor(cat, s);
    Zip(FieldColumn(es), DbFieldColumn(es))
  }

  /** `list(rename_mapping.values())`: the columns the layer is projected onto. */
  function TargetColumns(cat: seq<Entry>, s: string): seq<string> {
    Values(RenameMapping(cat, s))
  }

  /** The rename mapping of a layer maps each source field of the layer to the database
      name of the LAST entry for that field; its keys, and so the target columns, follow
      the order in which the fields first appear. */
  lemma RenameMappingSemantics(cat: seq<Entry>, s: string)
    ensures Keys(RenameMapping(cat, s)) == Unique(FieldColumn(EntriesFor(cat, s)))
    ensures |TargetColumns(cat, s)| == |Keys(RenameMapping(cat, s))|
    ensures forall f :: HasKey(RenameMapping(cat, s), f) <==> exists e :: e in cat && e.layer == s && e.field == f
    ensures var es := EntriesFor(cat, s);
      forall f :: f in FieldColumn(es) ==> Get(RenameMapping(cat, s), f) == es[LastIndex(FieldColumn(es), f)].dbField
    ensures var d := RenameMapping(cat, s);
      forall k :: 0 <= k < |Keys(d)| ==> TargetColumns(cat, s)[k] == Get(d, Keys(d)[k])
  {
    var es := EntriesFor(cat, s);
    var fs, ds := FieldColumn(es), DbFieldColumn(es);
    var d := RenameMapping(cat, s);
    ZipKeys(fs, ds);
    assert Distinct(Keys(d));
    forall f ensures HasKey(d, f) <==> exists e :: e in cat && e.layer == s && e.field == f {
      MappedField(cat, s, f);
    }
    forall f | f in fs ensures Get(d, f) == es[LastIndex(fs, f)].dbField {
      ZipGet(fs, ds, f);
    }
    forall k | 0 <= k < |Keys(d)| ensures TargetColumns(cat, s)[k] == Get(d, Keys(d)[k]) {
      ValuesInKeyOrder(d, k);
    }
  }

  /** A field has a mapping exactly when the layer has an entry for it. */
  lemma MappedField(cat: seq<Entry>, s: string, f: string)
    ensures HasKey(RenameMapping(cat, s), f) <==> exists e :: e in cat && e.layer == s && e.field == f
  {
    var es := EntriesFor(cat, s);
    var fs, ds := FieldColumn(es), DbFieldColumn(es);
    ZipHasKey(fs, ds, f);
    if f in fs {
      var k :| 0 <= k < |fs| && fs[k] == f;
      assert es[k] in cat && es[k].layer == s && es[k].field == f;
    }
    if e :| e in cat && e.layer == s && e.field == f {
      var i :| 0 <= i < |cat| && cat[i] == e;
      assert e in es;
      var k :| 0 <= k < |es| && es[k] == e;
      assert fs[k] == f;
    }
  }

  /** `column_remap_df['Database layer'].iloc[0]`: the table of the layer's first entry. */
  function FirstTable(cat: seq<Entry>, s: string): string
    requires s in LayerColumn(cat)
  {
    var es := EntriesFor(cat, s);
    var k :| 0 <= k < |cat| && cat[k].layer == s;
    assert cat[k] in es;
    es[0].table
  }
}
