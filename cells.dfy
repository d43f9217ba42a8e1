/** Cell values of a data frame, and the geometries a geopackage layer carries. */
module Cells {

  /** Geometries are abstract apart from their kind; coordinates are integers because
      floating point is not modelled. */
  datatype Geometry =
    | Point(x: int, y: int)
    | Polygon(shell: seq<(int, int)>)
    | MultiPolygon(parts: seq<Geometry>)
    | LineString(coords: seq<(int, int)>)

  /** One cell of a data frame.
      `Null` is Python `None`; `Missing` is NaN, NaT or `pd.NA`; a `Date` carries its
      year and an opaque position within the year. */
  datatype Cell =
    | Null
    | Missing
    | Str(s: string)
    | Num(n: int)
    | Bool(b: bool)
    | Date(year: int, rest: int)
    | Geom(g: Geometry)

  /** What pandas' `isna` / `dropna` treat as null. */
  predicate IsNull(c: Cell) {
    c.Null? || c.Missing?
  }

  /** Python's `str.isspace` characters, which the regular expression class `\s` matches. */
  predicate IsSpace(ch: char) {
    ch == ' ' || ('\t' <= ch <= '\r') || ('\U{1c}' <= ch <= '\U{1f}')
    || ch == '\U{85}' || ch == '\U{a0}' || ch == '\U{1680}' || ('\U{2000}' <= ch <= '\U{200a}')
    || ch == '\U{2028}' || ch == '\U{2029}' || ch == '\U{202f}' || ch == '\U{205f}' || ch == '\U{3000}'
  }

  /** The whole string matches `^\s*$`: empty or whitespace only. */
  predicate IsBlank(s: string) {
    forall k :: 0 <= k < |s| ==> IsSpace(s[k])
  }

  /** The text of a string column label (column labels of the frames read here are strings). */
  function LabelText(c: Cell): string {
    if c.Str? then c.s else ""
  }
}
