/** Value-level rules of the spatial layer reader: the sampling-point identifier padding,
    the polygon-to-multipolygon promotion and the blank/NaN-to-None clean-up. */
module SpatialValues {
  import opened Wrappers
  import opened Seqs
  import opened Cells

  // ---------------------------------------------------------------------------
  // modify_sampling_point

  /** Position of the last '_' in `s`, if any. */
  function LastUnderscore(s: string): (k: Option<nat>)
    ensures k.Some? ==> k.value < |s| && s[k.value] == '_' && forall j :: k.value < j < |s| ==> s[j] != '_'
    ensures k.None? ==> forall j :: 0 <= j < |s| ==> s[j] != '_'
  {
    if s == [] then None
    else if s[|s| - 1] == '_' then Some(|s| - 1)
    else LastUnderscore(s[..|s| - 1])
  }

  /** Python `s.rsplit("_", 1)`. */
  function RSplitOnce(s: string): (parts: seq<string>)
    ensures 1 <= |parts| <= 2
  {
    match LastUnderscore(s)
    case None => [s]
    case Some(k) => [s[..k], s[k + 1..]]
  }

  lemma JoinPair(a: string, b: string, sep: string)
    ensures Join([a, b], sep) == a + sep + b
  {
    assert [a, b][1..] == [b];
  }

  /** `"_".join(s.rsplit("_", 1))` gives `s` back. */
  lemma RSplitJoin(s: string)
    ensures Join(RSplitOnce(s), "_") == s
  {
    match LastUnderscore(s)
    case None =>
    case Some(k) =>
      JoinPair(s[..k], s[k + 1..], "_");
      assert s[..k] + "_" + s[k + 1..] == s;
  }

  predicate IsAsciiDigit(ch: char) {
    '0' <= ch <= '9'
  }

  /** Python `str.isdigit()`, restricted to the ASCII digits. */
  predicate IsDigits(s: string) {
    |s| > 0 && forall k :: 0 <= k < |s| ==> IsAsciiDigit(s[k])
  }

  /** The identifier ends in '_' and one digit. */
  predicate SingleDigitSuffix(value: string) {
    |value| >= 2 && value[|value| - 2] == '_' && IsAsciiDigit(value[|value| - 1])
  }

  /** `modify_sampling_point`: a single-digit suffix after the last '_' gets a leading 0,
      and every other identifier comes back as it was. */
  function ModifySamplingPoint(value: string): (r: string)
    ensures r == if SingleDigitSuffix(value) then value[..|value| - 1] + "0" + value[|value| - 1..] else value
  {
    var parts := RSplitOnce(value);
    var parts' :=
      if |parts| == 2 && IsDigits(parts[1]) && |parts[1]| == 1 then [parts[0], "0" + parts[1]]
      else parts;
    PaddedJoin(value, parts');
    Join(parts', "_")
  }

  /** The identifier changes exactly when the text after its last '_' is one digit, and
      then only by a '0' put in front of that digit. */
  lemma ModifySamplingPointSpec(value: string)
    ensures match LastUnderscore(value)
      case None => ModifySamplingPoint(value) == value
      case Some(k) =>
        if k == |value| - 2 && IsAsciiDigit(value[k + 1])
        then ModifySamplingPoint(value) == value[..k] + "_" + ("0" + value[k + 1..])
        else ModifySamplingPoint(value) == value
  {
    match LastUnderscore(value)
    case None =>
    case Some(k) =>
      if k == |value| - 2 && IsAsciiDigit(value[k + 1]) {
        PadsSingleDigit(value, k);
      } else {
        KeepsOtherSuffix(value, k);
      }
  }

  /** Joining the padded `rsplit` parts again pads a single-digit suffix and keeps anything else. */
  lemma PaddedJoin(value: string, parts': seq<string>)
    requires var parts := RSplitOnce(value);
      parts' == if |parts| == 2 && IsDigits(parts[1]) && |parts[1]| == 1 then [parts[0], "0" + parts[1]] else parts
    ensures Join(parts', "_") ==
      if SingleDigitSuffix(value) then value[..|value| - 1] + "0" + value[|value| - 1..] else value
  {
    RSplitJoin(value);
    match LastUnderscore(value)
    case None =>
    case Some(k) =>
      var head, tail := value[..k], value[k + 1..];
      assert RSplitOnce(value) == [head, tail];
      SuffixAt(value, k);
      assert IsDigits(tail) && |tail| == 1 <==> SingleDigitSuffix(value) by {
        if |tail| == 1 {
          assert tail[0] == value[k + 1];
        }
      }
      if SingleDigitSuffix(value) {
        JoinPair(head, "0" + tail, "_");
        assert head + "_" == value[..|value| - 1];
      }
  }

  /** With the last '_' at `k`, the identifier has a single-digit suffix exactly when that
      '_' is the second-last character and a digit follows it. */
  lemma SuffixAt(value: string, k: nat)
    requires LastUnderscore(value) == Some(k)
    ensures SingleDigitSuffix(value) <==> k == |value| - 2 && IsAsciiDigit(value[k + 1])
  {
    if SingleDigitSuffix(value) {
      assert value[|value| - 1] != '_';
    }
  }

  lemma PadsSingleDigit(value: string, k: nat)
    requires LastUnderscore(value) == Some(k) && k == |value| - 2 && IsAsciiDigit(value[k + 1])
    ensures ModifySamplingPoint(value) == value[..k] + "_" + ("0" + value[k + 1..])
  {
    SuffixAt(value, k);
    assert value[..k] + "_" == value[..|value| - 1];
  }

  lemma KeepsOtherSuffix(value: string, k: nat)
    requires LastUnderscore(value) == Some(k) && !(k == |value| - 2 && IsAsciiDigit(value[k + 1]))
    ensures ModifySamplingPoint(value) == value
  {
    SuffixAt(value, k);
  }

  /** Padding twice is padding once. */
  lemma ModifySamplingPointIdempotent(value: string)
    ensures ModifySamplingPoint(ModifySamplingPoint(value)) == ModifySamplingPoint(value)
  {
    var r := ModifySamplingPoint(value);
    if SingleDigitSuffix(value) {
      assert r[|r| - 2] == '0';
    }
  }

  // ---------------------------------------------------------------------------
  // to_multipolygon

  /** `to_multipolygon`: a polygon is wrapped into a one-part multipolygon, anything else
      is returned as it is. */
  function ToMultiPolygon(g: Geometry): (r: Geometry)
    ensures !r.Polygon?
    ensures g.Polygon? ==> r.MultiPolygon? && r.parts == [g]
    ensures !g.Polygon? ==> r == g
  {
    if g.Polygon? then MultiPolygon([g]) else g
  }

  /** The same rule on a cell; `None` and NaN are not polygons and pass through.
      A second application finds no polygon left to wrap. */
  function ToMultiPolygonCell(c: Cell): (r: Cell)
    ensures r.Geom? <==> c.Geom?
    ensures c.Geom? ==> r.g == ToMultiPolygon(c.g) && !r.g.Polygon?
    ensures !c.Geom? ==> r == c
  {
    if c.Geom? then Geom(ToMultiPolygon(c.g)) else c
  }

  // ---------------------------------------------------------------------------
  // df.replace('^\s*$', np.nan, regex=True) then df.replace({np.nan: None})

  function BlankToNaN(c: Cell): Cell {
    if c.Str? && IsBlank(c.s) then Missing else c
  }

  function NaNToNone(c: Cell): Cell {
    if c.Missing? then Null else c
  }

  /** A cell becomes `None` exactly when it is `None`, NaN/NaT or a blank string; every
      other cell is unchanged, and neither a NaN nor a blank string survives (so cleaning
      twice is cleaning once). */
  function CleanCell(c: Cell): (r: Cell)
    ensures r == Null <==> c.Null? || c.Missing? || (c.Str? && IsBlank(c.s))
    ensures r != Null ==> r == c
    ensures !r.Missing? && !(r.Str? && IsBlank(r.s))
  {
    NaNToNone(BlankToNaN(c))
  }

  // ---------------------------------------------------------------------------
  // sampling_point / drain_point columns

  /** `modify_sampling_point` applied to a cell: only strings have `rsplit`. */
  function PadCell(c: Cell): Result<Cell> {
    if c.Str? then Ok(Str(ModifySamplingPoint(c.s))) else Err(AttributeError)
  }

  /** The drain point built from a sampling point that is a string or null. */
  function DrainOf(c: Cell): Cell {
    if c.Str? then Str(c.s + "_drain") else Missing
  }

  /** `sampling_point + "_drain"` on a cell of an object column: pandas leaves a null
      out of the addition, so it comes back as NaN, and any other non-string value
      cannot be concatenated. */
  function DrainCell(c: Cell): Result<Cell> {
    if c.Str? || IsNull(c) then Ok(DrainOf(c)) else Err(TypeError)
  }
}
