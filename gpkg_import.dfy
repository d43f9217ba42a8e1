/** The geopackage importer: the column list and the SQL `VALUES` text built from a layer's
    features, and the rules that decide which layers become an `INSERT`. The geopackage
    is given as its layers, already opened; `str(geom)` is the parameter `wkt`. */
module GpkgImport {
  import opened Wrappers
  import opened Seqs
  import opened Cells

  // ---------------------------------------------------------------------------
  // Layers as OGR presents them

  /** `OFTInteger` (with or without the `OFSTBoolean` subtype), `OFTString`, or any other type. */
  datatype FieldType = IntegerField(boolean: bool) | StringField | OtherField

  datatype FieldDefn = FieldDefn(name: string, ftype: FieldType)

  /** What `feature.GetField(key)` returns: an integer, a string (dates and times come back
      as strings, so they are escaped and quoted like any other string), `None`, or any
      other value (a real), which reaches the text through `str()`. */
  datatype Value = IntV(i: int) | StrV(s: string) | NoneV | OtherV(text: string)

  datatype Feature = Feature(geom: Option<Geometry>, values: seq<Value>)

  /** `GetNextFeature()` may return `None`, so the features are optional. */
  datatype Layer = Layer(name: string, geometryColumn: string, fields: seq<FieldDefn>,
                         features: seq<Option<Feature>>)

  function Names(fields: seq<FieldDefn>): (ns: seq<string>)
    ensures |ns| == |fields| && forall i :: 0 <= i < |fields| ==> ns[i] == fields[i].name
  {
    seq(|fields|, i requires 0 <= i < |fields| => fields[i].name)
  }

  /** What OGR guarantees of a feature: one value per field, and an integer field holds an
      integer or `None`. */
  predicate Fits(fields: seq<FieldDefn>, f: Feature) {
    && |f.values| == |fields|
    && forall i :: 0 <= i < |fields| && fields[i].ftype.IntegerField? ==> f.values[i].IntV? || f.values[i].NoneV?
  }

  predicate LayerFits(l: Layer) {
    AllFit(l.fields, l.features)
  }

  // ---------------------------------------------------------------------------
  // create_field_list

  /** The id column a schema adds after the layer's own fields. */
  function IdColumn(schema: string): seq<string> {
    if schema in ["pa_final_report", "pa_application", "test_data_model"] then ["grant_id"]
    else if schema in ["pa_feasibility"] then ["fs_id"]
    else []
  }

  /** The column list: the geometry column exactly when its name is not empty, then the
      fields in definition order, then the schema's id column. */
  function FieldList(l: Layer, schema: string): (r: seq<string>)
    ensures var g := if l.geometryColumn != "" then 1 else 0;
      && |r| == g + |l.fields| + |IdColumn(schema)|
      && (l.geometryColumn != "" ==> r[0] == l.geometryColumn)
      && (forall i :: 0 <= i < |l.fields| ==> r[g + i] == l.fields[i].name)
      && r[g + |l.fields|..] == IdColumn(schema)
  {
    (if l.geometryColumn != "" then [l.geometryColumn] else []) + Names(l.fields) + IdColumn(schema)
  }

  /** The schemas that end the list with `grant_id`, with `fs_id`, or with nothing. */
  lemma IdColumnCases(schema: string)
    ensures schema == "pa_final_report" || schema == "pa_application" || schema == "test_data_model" ==>
      IdColumn(schema) == ["grant_id"]
    ensures schema == "pa_feasibility" ==> IdColumn(schema) == ["fs_id"]
    ensures schema !in ["pa_final_report", "pa_application", "test_data_model", "pa_feasibility"] ==>
      IdColumn(schema) == []
  {
  }

  method CreateFieldList(l: Layer, schema: string) returns (fieldList: seq<string>)
    ensures fieldList == FieldList(l, schema)
  {
    fieldList := [];
    var geomCol := l.geometryColumn;
    if geomCol != "" {
      fieldList := fieldList + [geomCol];
    }
    ghost var head := fieldList;
    var i := 0;
    while i < |l.fields|
      invariant 0 <= i <= |l.fields|
      invariant fieldList == head + Names(l.fields)[..i]
    {
      assert Names(l.fields)[..i + 1] == Names(l.fields)[..i] + [l.fields[i].name];
      fieldList := fieldList + [l.fields[i].name];
      i := i + 1;
    }
    assert Names(l.fields)[..i] == Names(l.fields);
    assert fieldList == (if l.geometryColumn != "" then [l.geometryColumn] else []) + Names(l.fields);
    if schema in ["pa_final_report", "pa_application", "test_data_model"] {
      fieldList := fieldList + ["grant_id"];
    }
    if schema in ["pa_feasibility"] {
      fieldList := fieldList + ["fs_id"];
    }
  }

  // ---------------------------------------------------------------------------
  // SQL string literals

  /** `val.replace("'", "''")`. */
  function Escape(s: string): (r: string)
    ensures |r| >= |s|
  {
    if s == [] then []
    else (if s[0] == '\'' then "''" else [s[0]]) + Escape(s[1..])
  }

  /** A string literal as the importer writes it. */
  function Quote(s: string): string {
    "'" + Escape(s) + "'"
  }

  /** The body of a well-formed literal: apostrophes only in pairs. */
  predicate InnerOk(s: string) {
    if s == [] then true
    else if s[0] != '\'' then InnerOk(s[1..])
    else |s| >= 2 && s[1] == '\'' && InnerOk(s[2..])
  }

  /** Each `''` of a literal's body read back as one `'`. */
  function Unescape(s: string): string {
    if s == [] then []
    else if |s| >= 2 && s[0] == '\'' && s[1] == '\'' then "'" + Unescape(s[2..])
    else [s[0]] + Unescape(s[1..])
  }

  /** What a SQL reader makes of a literal, or `None` when it is not one literal. */
  function Unquote(lit: string): Option<string> {
    if |lit| >= 2 && lit[0] == '\'' && lit[|lit| - 1] == '\'' && InnerOk(lit[1..|lit| - 1])
    then Some(Unescape(lit[1..|lit| - 1]))
    else None
  }

  lemma {:induction false} EscapeReadsBack(s: string)
    ensures InnerOk(Escape(s)) && Unescape(Escape(s)) == s
  {
    if s != [] {
      EscapeReadsBack(s[1..]);
      var e := Escape(s[1..]);
      if s[0] == '\'' {
        assert Escape(s) == "''" + e;
        assert (Escape(s))[2..] == e;
      } else {
        assert Escape(s) == [s[0]] + e;
        assert (Escape(s))[1..] == e;
      }
      assert s == [s[0]] + s[1..];
    }
  }

  /** Removing the outer quotes and collapsing each `''` gives the string back. */
  lemma QuoteRoundTrip(s: string)
    ensures Unquote(Quote(s)) == Some(s)
  {
    var lit := Quote(s);
    EscapeReadsBack(s);
    assert lit[1..|lit| - 1] == Escape(s);
  }

  /** A body without apostrophes reads back as itself. */
  lemma {:induction false} PlainReadsBack(s: string)
    requires forall k :: 0 <= k < |s| ==> s[k] != '\''
    ensures InnerOk(s) && Unescape(s) == s
  {
    if s != [] {
      PlainReadsBack(s[1..]);
      assert s == [s[0]] + s[1..];
    }
  }

  /** Reading back never lengthens a body, and shortens one that holds an apostrophe. */
  lemma {:induction false} UnescapeShortens(s: string)
    requires InnerOk(s)
    ensures |Unescape(s)| <= |s|
    ensures (exists k :: 0 <= k < |s| && s[k] == '\'') ==> |Unescape(s)| < |s|
  {
    if s != [] {
      if s[0] != '\'' {
        UnescapeShortens(s[1..]);
        if exists k :: 0 <= k < |s| && s[k] == '\'' {
          var k :| 0 <= k < |s| && s[k] == '\'';
          assert s[1..][k - 1] == '\'';
        }
      } else {
        UnescapeShortens(s[2..]);
      }
    }
  }

  /** The grant id is quoted without escaping: its literal reads back as the grant id
      exactly when the id holds no apostrophe. */
  lemma GrantLiteral(grant: string)
    ensures Unquote("'" + grant + "'") == Some(grant) <==> forall k :: 0 <= k < |grant| ==> grant[k] != '\''
  {
    var lit := "'" + grant + "'";
    assert lit[1..|lit| - 1] == grant;
    if forall k :: 0 <= k < |grant| ==> grant[k] != '\'' {
      PlainReadsBack(grant);
    } else if InnerOk(grant) {
      UnescapeShortens(grant);
    }
  }

  // ---------------------------------------------------------------------------
  // Rendering one value

  function DigitChar(d: nat): char
    requires d < 10
  {
    ('0' as int + d) as char
  }

  /** `str(n)` for a natural number. */
  function NatText(n: nat): (r: string)
    ensures |r| > 0 && forall k :: 0 <= k < |r| ==> '0' <= r[k] <= '9'
    decreases n
  {
    if n < 10 then [DigitChar(n)] else NatText(n / 10) + [DigitChar(n % 10)]
  }

  function ParseNat(s: string): int
    decreases |s|
  {
    if s == [] then 0 else ParseNat(s[..|s| - 1]) * 10 + (s[|s| - 1] as int - '0' as int)
  }

  lemma {:induction false} NatTextReadsBack(n: nat)
    ensures ParseNat(NatText(n)) == n
    decreases n
  {
    var r := NatText(n);
    if n < 10 {
      assert r[..0] == [];
    } else {
      NatTextReadsBack(n / 10);
      assert r[..|r| - 1] == NatText(n / 10);
    }
  }

  /** `str(i)` for an integer. */
  function IntText(i: int): string {
    if i < 0 then "-" + NatText(-i) else NatText(i)
  }

  function ParseInt(s: string): int {
    if |s| > 0 && s[0] == '-' then -ParseNat(s[1..]) else ParseNat(s)
  }

  /** The decimal text of an integer reads back as that integer. */
  lemma IntTextReadsBack(i: int)
    ensures ParseInt(IntText(i)) == i
  {
    if i < 0 {
      assert IntText(i) == "-" + NatText(-i);
      MinusTextReadsBack(-i);
    } else {
      assert IntText(i) == NatText(i);
      PlainNatReadsBack(i);
    }
  }

  lemma MinusTextReadsBack(n: nat)
    ensures ParseInt("-" + NatText(n)) == -(n as int)
  {
    var s := "-" + NatText(n);
    assert s[1..] == NatText(n);
    NatTextReadsBack(n);
  }

  lemma PlainNatReadsBack(n: nat)
    ensures ParseInt(NatText(n)) == n
  {
    var s := NatText(n);
    assert '0' <= s[0] <= '9';
    NatTextReadsBack(n);
  }

  /** `bool(v)` for what an integer field holds; `None` is false. */
  function Truthy(v: Value): bool
    requires v.IntV? || v.NoneV?
  {
    v.IntV? && v.i != 0
  }

  /** One value's text: a boolean-subtype integer becomes `True`/`False` (so `None` there
      becomes `False`); otherwise a string is escaped and quoted, `None` is `NULL`, and
      anything else is its `str()`. */
  function Render(d: FieldDefn, v: Value): (r: string)
    requires d.ftype.IntegerField? ==> v.IntV? || v.NoneV?
  {
    if d.ftype == IntegerField(true) then (if Truthy(v) then "True" else "False")
    else match v
      case StrV(s) => Quote(s)
      case NoneV => "NULL"
      case IntV(i) => IntText(i)
      case OtherV(t) => t
  }

  /** How a SQL reader takes each rendered value back: a string literal as that string,
      an integer as that integer, a boolean field as the truth of its value, and `NULL` only
      for a missing value. */
  lemma RenderReadsBack(d: FieldDefn, v: Value)
    requires d.ftype.IntegerField? ==> v.IntV? || v.NoneV?
    ensures d.ftype == IntegerField(true) ==> (Render(d, v) == "True" <==> v.IntV? && v.i != 0)
    ensures d.ftype == IntegerField(true) ==> (Render(d, v) == "True" || Render(d, v) == "False")
    ensures d.ftype != IntegerField(true) && v.StrV? ==> Unquote(Render(d, v)) == Some(v.s)
    ensures d.ftype != IntegerField(true) && v.IntV? ==> ParseInt(Render(d, v)) == v.i
    ensures d.ftype != IntegerField(true) && (v.IntV? || v.StrV?) ==> Render(d, v) != "NULL"
    ensures d.ftype != IntegerField(true) && v.NoneV? ==> Render(d, v) == "NULL"
  {
    if d.ftype != IntegerField(true) {
      match v
      case StrV(s) => QuoteRoundTrip(s);
      case IntV(i) => IntTextReadsBack(i);
        if i < 0 { assert Render(d, v)[0] == '-'; } else { assert '0' <= Render(d, v)[0] <= '9'; }
      case NoneV =>
      case OtherV(_) =>
    }
  }

  // ---------------------------------------------------------------------------
  // create_values_string

  /** The value of the k-th key: `GetFieldIndex(key)` finds the first field of that name. */
  function FieldItem(fields: seq<FieldDefn>, f: Feature, k: nat): string
    requires Fits(fields, f) && k < |fields|
  {
    var idx := FirstIndex(Names(fields), fields[k].name);
    Render(fields[idx], f.values[idx])
  }

  function GeomItem(g: Option<Geometry>, wkt: Geometry -> string): seq<string> {
    if g.Some? then ["st_geomfromtext('" + wkt(g.value) + "',27700)"] else []
  }

  /** One feature's values: the geometry (when it has one), each field in key order, and
      the quoted grant id. */
  function Items(fields: seq<FieldDefn>, f: Feature, grant: string, wkt: Geometry -> string): (r: seq<string>)
    requires Fits(fields, f)
    ensures var g := |GeomItem(f.geom, wkt)|;
      && |r| == g + |fields| + 1
      && (f.geom.Some? ==> r[0] == "st_geomfromtext('" + wkt(f.geom.value) + "',27700)")
      && (forall k :: 0 <= k < |fields| ==> r[g + k] == FieldItem(fields, f, k))
      && r[|r| - 1] == "'" + grant + "'"
  {
    GeomItem(f.geom, wkt) + seq(|fields|, k requires 0 <= k < |fields| => FieldItem(fields, f, k)) + ["'" + grant + "'"]
  }

  function Tuple(fields: seq<FieldDefn>, f: Feature, grant: string, wkt: Geometry -> string): string
    requires Fits(fields, f)
  {
    "(" + Join(Items(fields, f, grant, wkt), ",") + ")"
  }

  predicate AllFit(fields: seq<FieldDefn>, fs: seq<Option<Feature>>) {
    forall j :: 0 <= j < |fs| && fs[j].Some? ==> Fits(fields, fs[j].value)
  }

  /** One tuple per feature that is not `None`, in order. */
  function Tuples(fields: seq<FieldDefn>, fs: seq<Option<Feature>>, grant: string, wkt: Geometry -> string): (ts: seq<string>)
    requires AllFit(fields, fs)
    ensures |ts| == |Filter(fs, (o: Option<Feature>) => o.Some?)|
    ensures forall i :: 0 <= i < |ts| ==> |ts[i]| >= 2 && ts[i][0] == '(' && ts[i][|ts[i]| - 1] == ')'
    decreases |fs|
  {
    if fs == [] then []
    else
      var n := |fs| - 1;
      var p := (o: Option<Feature>) => o.Some?;
      assert fs == fs[..n] + [fs[n]];
      FilterConcat(fs[..n], [fs[n]], p);
      Tuples(fields, fs[..n], grant, wkt) + (if fs[n].Some? then [Tuple(fields, fs[n].value, grant, wkt)] else [])
  }

  /** The tuples of the features that are not `None`, each a parenthesised list. */
  lemma {:induction false} TuplesOfFeatures(fields: seq<FieldDefn>, fs: seq<Option<Feature>>, grant: string,
                                           wkt: Geometry -> string, i: nat) returns (j: nat)
    requires AllFit(fields, fs) && i < |Tuples(fields, fs, grant, wkt)|
    ensures j < |fs| && fs[j].Some?
    ensures Tuples(fields, fs, grant, wkt)[i] == Tuple(fields, fs[j].value, grant, wkt)
    decreases |fs|
  {
    var n := |fs| - 1;
    var ts := Tuples(fields, fs[..n], grant, wkt);
    var all := Tuples(fields, fs, grant, wkt);
    assert all == ts + (if fs[n].Some? then [Tuple(fields, fs[n].value, grant, wkt)] else []);
    if i < |ts| {
      j := TuplesOfFeatures(fields, fs[..n], grant, wkt, i);
      assert fs[j] == fs[..n][j];
      assert all[i] == ts[i];
    } else {
      j := n;
    }
  }

  /** Conversely, each feature that is not `None` has its tuple in the list, at the
      position given by the number of such features before it. */
  lemma {:induction false} TupleOfFeature(fields: seq<FieldDefn>, fs: seq<Option<Feature>>, grant: string,
                                         wkt: Geometry -> string, j: nat)
    requires AllFit(fields, fs) && j < |fs| && fs[j].Some?
    ensures var pos := |Filter(fs[..j], (o: Option<Feature>) => o.Some?)|;
      pos < |Tuples(fields, fs, grant, wkt)| && Tuples(fields, fs, grant, wkt)[pos] == Tuple(fields, fs[j].value, grant, wkt)
    decreases |fs|
  {
    var n := |fs| - 1;
    var p := (o: Option<Feature>) => o.Some?;
    var init := fs[..n];
    var ts := Tuples(fields, init, grant, wkt);
    var all := Tuples(fields, fs, grant, wkt);
    var pos := |Filter(fs[..j], p)|;
    assert all == ts + (if fs[n].Some? then [Tuple(fields, fs[n].value, grant, wkt)] else []);
    if j == n {
      assert init == fs[..j];
    } else {
      assert init[..j] == fs[..j] && init[j] == fs[j];
      TupleOfFeature(fields, init, grant, wkt, j);
      assert pos < |ts| && ts[pos] == Tuple(fields, fs[j].value, grant, wkt);
    }
  }

  /** The `VALUES` text: the tuples separated by `",\n"` and closed by `";"`; it is exactly
      `";"` when every feature is `None`. */
  function ValuesString(l: Layer, grant: string, wkt: Geometry -> string): (r: string)
    requires LayerFits(l)
    ensures |r| > 0 && r[|r| - 1] == ';'
    ensures r == ";" <==> forall j :: 0 <= j < |l.features| ==> l.features[j].None?
  {
    var ts := Tuples(l.fields, l.features, grant, wkt);
    var p := (o: Option<Feature>) => o.Some?;
    if forall j :: 0 <= j < |l.features| ==> l.features[j].None? then
      FilterNone(l.features, p);
      Join(ts, ",\n") + ";"
    else
      FilterNotEmpty(l.features, p);
      assert |Join(ts, ",\n")| >= 2 by { JoinFirst(ts, ",\n"); }
      Join(ts, ",\n") + ";"
  }

  lemma {:induction false} FilterNotEmpty<T>(s: seq<T>, p: T -> bool)
    requires exists j :: 0 <= j < |s| && p(s[j])
    ensures |Filter(s, p)| > 0
  {
    if !p(s[0]) {
      var j :| 0 <= j < |s| && p(s[j]);
      assert p(s[1..][j - 1]);
      FilterNotEmpty(s[1..], p);
    }
  }

  lemma {:induction false} JoinFirst(parts: seq<string>, sep: string)
    requires |parts| > 0
    ensures |Join(parts, sep)| >= |parts[0]|
  {
  }

  /** What the loop has accumulated: every tuple followed by `",\n"`. */
  function Terminated(ts: seq<string>, sep: string): string
    decreases |ts|
  {
    if ts == [] then "" else Terminated(ts[..|ts| - 1], sep) + ts[|ts| - 1] + sep
  }

  lemma {:induction false} TerminatedJoin(ts: seq<string>, sep: string)
    requires ts != []
    ensures Terminated(ts, sep) == Join(ts, sep) + sep
    decreases |ts|
  {
    var n := |ts| - 1;
    if n == 0 {
      assert ts[..0] == [];
    } else {
      TerminatedJoin(ts[..n], sep);
      JoinSnoc(ts[..n], ts[n], sep);
      assert ts[..n] + [ts[n]] == ts;
    }
  }

  /** `values_string[:-2] + ";"`: Python slicing gives "" on a string shorter than 2. */
  function TrimTerminator(s: string): string {
    (if |s| >= 2 then s[..|s| - 2] else "") + ";"
  }

  lemma TrimmedIsValues(l: Layer, grant: string, wkt: Geometry -> string)
    requires LayerFits(l)
    ensures TrimTerminator(Terminated(Tuples(l.fields, l.features, grant, wkt), ",\n")) == ValuesString(l, grant, wkt)
  {
    var ts := Tuples(l.fields, l.features, grant, wkt);
    if ts != [] {
      TerminatedJoin(ts, ",\n");
      var s := Terminated(ts, ",\n");
      assert s[..|s| - 2] == Join(ts, ",\n");
    }
  }

  method CreateValuesString(l: Layer, grant: string, wkt: Geometry -> string) returns (valuesString: string)
    requires LayerFits(l)
    ensures valuesString == ValuesString(l, grant, wkt)
  {
    valuesString := "";
    var j := 0;
    while j < |l.features|
      invariant 0 <= j <= |l.features|
      invariant valuesString == Terminated(Tuples(l.fields, l.features[..j], grant, wkt), ",\n")
    {
      var feature := l.features[j];
      if feature.Some? {
        var values := FeatureValues(l.fields, feature.value, grant, wkt);
        AccumulateFeature(l, grant, wkt, j, valuesString, values);
        valuesString := valuesString + "(" + Join(values, ",") + "),\n";
      } else {
        TuplesSnoc(l.fields, l.features, grant, wkt, j);
        ghost var ts := Tuples(l.fields, l.features[..j], grant, wkt);
        assert ts + [] == ts;
      }
      j := j + 1;
    }
    assert l.features[..j] == l.features;
    TrimmedIsValues(l, grant, wkt);
    valuesString := if |valuesString| >= 2 then valuesString[..|valuesString| - 2] + ";" else ";";
  }

  lemma TuplesSnoc(fields: seq<FieldDefn>, fs: seq<Option<Feature>>, grant: string, wkt: Geometry -> string, j: nat)
    requires AllFit(fields, fs) && j < |fs|
    ensures AllFit(fields, fs[..j]) && AllFit(fields, fs[..j + 1])
    ensures Tuples(fields, fs[..j + 1], grant, wkt) ==
      Tuples(fields, fs[..j], grant, wkt) + (if fs[j].Some? then [Tuple(fields, fs[j].value, grant, wkt)] else [])
  {
    assert fs[..j + 1][..j] == fs[..j];
    assert fs[..j + 1][j] == fs[j];
  }

  /** One pass of the feature loop appends the feature's tuple and the separator. */
  lemma AccumulateFeature(l: Layer, grant: string, wkt: Geometry -> string, j: nat, acc: string, values: seq<string>)
    requires LayerFits(l) && j < |l.features| && l.features[j].Some?
    requires acc == Terminated(Tuples(l.fields, l.features[..j], grant, wkt), ",\n")
    requires values == Items(l.fields, l.features[j].value, grant, wkt)
    ensures acc + "(" + Join(values, ",") + "),\n" == Terminated(Tuples(l.fields, l.features[..j + 1], grant, wkt), ",\n")
  {
    var body := Join(values, ",");
    var tuple := "(" + body + ")";
    assert tuple == Tuple(l.fields, l.features[j].value, grant, wkt);
    var ts := Tuples(l.fields, l.features[..j], grant, wkt);
    TerminatedSnoc(ts, tuple, ",\n");
    TuplesSnoc(l.fields, l.features, grant, wkt, j);
    TupleThenSeparator(acc, body);
  }

  lemma TupleThenSeparator(acc: string, body: string)
    ensures acc + "(" + body + "),\n" == acc + ("(" + body + ")") + ",\n"
  {
  }

  lemma TerminatedSnoc(ts: seq<string>, t: string, sep: string)
    ensures Terminated(ts + [t], sep) == Terminated(ts, sep) + t + sep
  {
    assert (ts + [t])[..|ts|] == ts;
  }

  /** The body of the feature loop: the geometry, then each key's value, then the grant id. */
  method FeatureValues(fields: seq<FieldDefn>, f: Feature, grant: string, wkt: Geometry -> string)
    returns (values: seq<string>)
    requires Fits(fields, f)
    ensures values == Items(fields, f, grant, wkt)
  {
    values := [];
    var geom := f.geom;
    if geom.Some? {
      values := values + ["st_geomfromtext('" + wkt(geom.value) + "',27700)"];
    }
    ghost var head := values;
    assert head == GeomItem(f.geom, wkt);
    var keys := Names(fields);
    var i := 0;
    while i < |keys|
      invariant 0 <= i <= |keys|
      invariant |values| == |head| + i && values[..|head|] == head
      invariant forall k :: 0 <= k < i ==> values[|head| + k] == FieldItem(fields, f, k)
    {
      var idx := FirstIndex(keys, keys[i]);
      var fldDefn := fields[idx];
      var val := Render(fldDefn, f.values[idx]);
      values := values + [val];
      i := i + 1;
    }
    ghost var body := values;
    values := values + ["'" + grant + "'"];
    assert values[..|head|] == body[..|head|];
    ItemsFrom(fields, f, grant, wkt, values, |head|);
  }

  /** A list laid out as geometry, fields in key order and grant id is `Items`. */
  lemma ItemsFrom(fields: seq<FieldDefn>, f: Feature, grant: string, wkt: Geometry -> string, values: seq<string>, g: nat)
    requires Fits(fields, f) && g == |GeomItem(f.geom, wkt)|
    requires |values| == g + |fields| + 1 && values[..g] == GeomItem(f.geom, wkt)
    requires forall k :: 0 <= k < |fields| ==> values[g + k] == FieldItem(fields, f, k)
    requires values[|values| - 1] == "'" + grant + "'"
    ensures values == Items(fields, f, grant, wkt)
  {
    var r := Items(fields, f, grant, wkt);
    forall k | 0 <= k < |r| ensures values[k] == r[k] {
      if k < g {
        assert values[k] == values[..g][k];
      }
    }
  }

  // ---------------------------------------------------------------------------
  // The rules in main

  const SchemaChoices: seq<string> := ["pa_final_report", "pa_application", "pa_feasibility", "test_data_model"]

  /** The arguments that get past argparse and the year-end check: one of the four schemas,
      and a year end whenever the schema is `pa_final_report`. */
  predicate ArgsAccepted(schema: string, yearEnd: Option<string>) {
    schema in SchemaChoices && (schema == "pa_final_report" ==> yearEnd.Some?)
  }

  lemma ArgsRules(schema: string, yearEnd: Option<string>)
    ensures schema == "pa_final_report" && yearEnd.None? ==> !ArgsAccepted(schema, yearEnd)
    ensures schema in ["pa_application", "pa_feasibility", "test_data_model"] ==> ArgsAccepted(schema, yearEnd)
    ensures schema !in SchemaChoices ==> !ArgsAccepted(schema, yearEnd)
  {
  }

  /** The schema holding the grant and feasibility references. */
  function MetadataSchema(schema: string): (r: string)
    ensures r == "pa_metadata" || r == "test_data_model"
    ensures r == "pa_metadata" <==> schema == "pa_final_report" || schema == "pa_application" || schema == "pa_feasibility"
  {
    if schema in ["pa_final_report", "pa_application", "pa_feasibility"] then "pa_metadata" else "test_data_model"
  }

  /** The count query whose answer gates the import: grant references for the grant
      schemas, feasibility references otherwise. */
  function ReferenceQuery(schema: string): (q: string)
    requires schema in SchemaChoices
    ensures schema != "pa_feasibility" ==>
      q == "SELECT count(*) from " + MetadataSchema(schema) + ".grant_reference where grant_id = %s"
    ensures schema == "pa_feasibility" ==>
      q == "SELECT count(*) from " + "pa_metadata" + ".feasibility_reference where fs_id = %s"
  {
    if schema in ["pa_final_report", "pa_application", "test_data_model"] then
      "SELECT count(*) from " + MetadataSchema(schema) + ".grant_reference where grant_id = %s"
    else
      "SELECT count(*) from " + MetadataSchema(schema) + ".feasibility_reference where fs_id = %s"
  }

  /** A layer is loaded when it has features and the database has a table of its name. */
  predicate Eligible(l: Layer, tableList: seq<string>) {
    |l.features| > 0 && l.name in tableList
  }

  /** The statement for one layer, `format`ted from the field list and the `VALUES` text:
      a single statement, closed by its ';'. */
  function InsertStatement(schema: string, l: Layer, grant: string, wkt: Geometry -> string): (r: string)
    requires LayerFits(l)
    ensures |r| > 0 && r[|r| - 1] == ';'
  {
    "INSERT INTO " + schema + "." + l.name + " (" + Join(FieldList(l, schema), ",") + ")\n VALUES " +
      ValuesString(l, grant, wkt)
  }

  predicate AllLayersFit(layers: seq<Layer>) {
    forall k :: 0 <= k < |layers| ==> LayerFits(layers[k])
  }

  /** The statements sent to the database, supposing each is accepted: none when the
      reference count is not positive, otherwise one per eligible layer, in layer order. */
  function Statements(schema: string, grant: string, count: int, tableList: seq<string>, layers: seq<Layer>,
                      wkt: Geometry -> string): (r: seq<string>)
    requires AllLayersFit(layers)
    ensures count <= 0 ==> r == []
    ensures count > 0 ==> |r| == |Filter(layers, (l: Layer) => Eligible(l, tableList))|
    decreases |layers|
  {
    if count <= 0 || layers == [] then []
    else
      var n := |layers| - 1;
      var p := (l: Layer) => Eligible(l, tableList);
      assert layers == layers[..n] + [layers[n]];
      FilterConcat(layers[..n], [layers[n]], p);
      Statements(schema, grant, count, tableList, layers[..n], wkt) +
        (if Eligible(layers[n], tableList) then [InsertStatement(schema, layers[n], grant, wkt)] else [])
  }

  /** Every statement inserts one eligible layer, into `schema` and the table of the
      layer's name. */
  lemma {:induction false} StatementsOfEligible(schema: string, grant: string, count: int, tableList: seq<string>,
                                               layers: seq<Layer>, wkt: Geometry -> string, i: nat)
    returns (k: nat)
    requires AllLayersFit(layers) && i < |Statements(schema, grant, count, tableList, layers, wkt)|
    ensures count > 0
    ensures k < |layers| && Eligible(layers[k], tableList)
    ensures Statements(schema, grant, count, tableList, layers, wkt)[i] == InsertStatement(schema, layers[k], grant, wkt)
    decreases |layers|
  {
    var n := |layers| - 1;
    var ss := Statements(schema, grant, count, tableList, layers[..n], wkt);
    StatementsSnoc(schema, grant, count, tableList, layers, wkt, n);
    assert layers[..n + 1] == layers;
    if i < |ss| {
      k := StatementsOfEligible(schema, grant, count, tableList, layers[..n], wkt, i);
      assert layers[k] == layers[..n][k];
    } else {
      k := n;
    }
  }

  /** Conversely, every eligible layer has its statement in the list, at the position given
      by the number of eligible layers before it. */
  lemma {:induction false} StatementOfEligible(schema: string, grant: string, count: int, tableList: seq<string>,
                                              layers: seq<Layer>, wkt: Geometry -> string, k: nat)
    requires AllLayersFit(layers) && count > 0 && k < |layers| && Eligible(layers[k], tableList)
    ensures var pos := |Filter(layers[..k], (l: Layer) => Eligible(l, tableList))|;
      pos < |Statements(schema, grant, count, tableList, layers, wkt)| &&
      Statements(schema, grant, count, tableList, layers, wkt)[pos] == InsertStatement(schema, layers[k], grant, wkt)
    decreases |layers|
  {
    var n := |layers| - 1;
    var p := (l: Layer) => Eligible(l, tableList);
    var init := layers[..n];
    var ss := Statements(schema, grant, count, tableList, init, wkt);
    var pos := |Filter(layers[..k], p)|;
    StatementsSnoc(schema, grant, count, tableList, layers, wkt, n);
    assert layers[..n + 1] == layers;
    if k == n {
      assert init == layers[..k];
    } else {
      assert init[..k] == layers[..k] && init[k] == layers[k];
      StatementOfEligible(schema, grant, count, tableList, init, wkt, k);
      assert pos < |ss| && ss[pos] == InsertStatement(schema, layers[k], grant, wkt);
    }
  }

  lemma StatementsSnoc(schema: string, grant: string, count: int, tableList: seq<string>, layers: seq<Layer>,
                       wkt: Geometry -> string, k: nat)
    requires AllLayersFit(layers) && k < |layers| && count > 0
    ensures Statements(schema, grant, count, tableList, layers[..k + 1], wkt) ==
      Statements(schema, grant, count, tableList, layers[..k], wkt) +
        (if Eligible(layers[k], tableList) then [InsertStatement(schema, layers[k], grant, wkt)] else [])
  {
    assert layers[..k + 1][..k] == layers[..k];
    assert layers[..k + 1][k] == layers[k];
  }

  /** Lines 202-239 of `main`, after the argument checks and the two queries: `count` is
      the reference count and `tableList` the base tables of the database. */
  method ImportGeopackage(schema: string, grant: string, count: int, tableList: seq<string>, layers: seq<Layer>,
                          wkt: Geometry -> string)
    returns (statements: seq<string>)
    requires AllLayersFit(layers)
    ensures statements == Statements(schema, grant, count, tableList, layers, wkt)
  {
    statements := [];
    if count > 0 {
      var k := 0;
      while k < |layers|
        invariant 0 <= k <= |layers|
        invariant statements == Statements(schema, grant, count, tableList, layers[..k], wkt)
      {
        var layer := layers[k];
        StatementsSnoc(schema, grant, count, tableList, layers, wkt, k);
        if |layer.features| > 0 && layer.name in tableList {
          var fieldList := CreateFieldList(layer, schema);
          var valuesString := CreateValuesString(layer, grant, wkt);
          var sqlString := "INSERT INTO " + schema + "." + layer.name + " (" + Join(fieldList, ",") + ")\n VALUES " +
            valuesString;
          statements := statements + [sqlString];
        }
        k := k + 1;
      }
      assert layers[..k] == layers;
    }
  }

  /** `main` from the argument checks on (lines 128-239): arguments argparse or the
      year-end check refuse end the script with nothing sent; otherwise the reference
      count is the answer `countOf` gives to the schema's count query for the grant id,
      and the layer loop runs under it. */
  method RunImport(schema: string, yearEnd: Option<string>, grant: string, countOf: (string, string) -> int,
                   tableList: seq<string>, layers: seq<Layer>, wkt: Geometry -> string)
    returns (statements: Option<seq<string>>)
    requires AllLayersFit(layers)
    ensures !ArgsAccepted(schema, yearEnd) <==> statements.None?
    ensures ArgsAccepted(schema, yearEnd) ==>
      statements == Some(Statements(schema, grant, countOf(ReferenceQuery(schema), grant), tableList, layers, wkt))
  {
    if !ArgsAccepted(schema, yearEnd) {
      return None;
    }
    var count := countOf(ReferenceQuery(schema), grant);
    var ss := ImportGeopackage(schema, grant, count, tableList, layers, wkt);
    statements := Some(ss);
  }

  /** Under accepted arguments every statement's column list ends in the schema's id
      column (`grant_id`, or `fs_id` for pa_feasibility), and was allowed by a positive
      reference count for the grant id. */
  lemma {:induction false} StatementsCarryId(schema: string, yearEnd: Option<string>, grant: string,
                                            countOf: (string, string) -> int, tableList: seq<string>,
                                            layers: seq<Layer>, wkt: Geometry -> string, i: nat)
    returns (k: nat)
    requires ArgsAccepted(schema, yearEnd) && AllLayersFit(layers)
    requires i < |Statements(schema, grant, countOf(ReferenceQuery(schema), grant), tableList, layers, wkt)|
    ensures countOf(ReferenceQuery(schema), grant) > 0
    ensures k < |layers| && Eligible(layers[k], tableList)
    ensures Statements(schema, grant, countOf(ReferenceQuery(schema), grant), tableList, layers, wkt)[i]
      == InsertStatement(schema, layers[k], grant, wkt)
    ensures var fl := FieldList(layers[k], schema);
      |fl| > 0 && fl[|fl| - 1] == (if schema == "pa_feasibility" then "fs_id" else "grant_id")
  {
    k := StatementsOfEligible(schema, grant, countOf(ReferenceQuery(schema), grant), tableList, layers, wkt, i);
    FieldListEndsInId(layers[k], schema);
  }

  lemma FieldListEndsInId(l: Layer, schema: string)
    requires schema in SchemaChoices
    ensures var fl := FieldList(l, schema);
      |fl| > 0 && fl[|fl| - 1] == (if schema == "pa_feasibility" then "fs_id" else "grant_id")
  {
    var fl := FieldList(l, schema);
    var g := if l.geometryColumn != "" then 1 else 0;
    assert IdColumn(schema) == [if schema == "pa_feasibility" then "fs_id" else "grant_id"];
    assert fl[g + |l.fields|..] == IdColumn(schema);
  }
}
