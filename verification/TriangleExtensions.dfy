/**
 * The scanline rasterizer of texture triangles: vertices are rounded, sorted by y,
 * and the triangle is filled row by row as a bottom-flat and a top-flat half.
 * The fills accumulate edge positions with `x += slope` over exact reals (the source
 * uses doubles); the rows they emit are specified in exact integer arithmetic.
 */
module TriangleExtensions {
  import opened Common
  import opened Geometry

  /** An element of the triangle argument: a `Vector2`, a two-number array, or anything else. */
  datatype Coord = Vector2Coord(v: Vec2) | ArrayCoord(ax: real, ay: real) | OtherCoord

  const NoValidCoordinate := "No valid coordinate!"

  /** One row of a fill: the row's y and the two rounded edge positions. */
  datatype Span = Span(y: int, x1: int, x2: int)

  /** The pixels of a row: every integer x from the smaller to the larger edge position. */
  function SpanPixels(s: Span): (ps: seq<Int2>)
    ensures |ps| == MaxInt(s.x1, s.x2) - MinInt(s.x1, s.x2) + 1
    ensures forall i | 0 <= i < |ps| :: ps[i] == Int2(MinInt(s.x1, s.x2) + i, s.y)
    ensures forall p :: p in ps <==> p.y == s.y && MinInt(s.x1, s.x2) <= p.x <= MaxInt(s.x1, s.x2)
  {
    var lo := MinInt(s.x1, s.x2);
    var ps := seq(MaxInt(s.x1, s.x2) - lo + 1, i => Int2(lo + i, s.y));
    assert forall p: Int2 | p.y == s.y && lo <= p.x <= MaxInt(s.x1, s.x2) :: ps[p.x - lo] == p;
    ps
  }

  /** The pixels of a list of rows, row after row. */
  function Flatten(rows: seq<Span>): seq<Int2>
  {
    if rows == [] then [] else Flatten(rows[..|rows| - 1]) + SpanPixels(rows[|rows| - 1])
  }

  /** The number of pixels of a row. */
  function Width(s: Span): int {
    MaxInt(s.x1, s.x2) - MinInt(s.x1, s.x2) + 1
  }

  /** The number of pixels of the first n rows. */
  function PrefixWidths(rows: seq<Span>, n: nat): int
    requires n <= |rows|
  {
    if n == 0 then 0 else PrefixWidths(rows, n - 1) + Width(rows[n - 1])
  }

  lemma FlattenStep(rows: seq<Span>, k: nat)
    requires k < |rows|
    ensures Flatten(rows[..k + 1]) == Flatten(rows[..k]) + SpanPixels(rows[k])
  {
    assert rows[..k + 1][..k] == rows[..k];
  }

  /** The number of pixels a fill emits is the sum of its row widths. */
  lemma FlattenLength(rows: seq<Span>)
    ensures |Flatten(rows)| == PrefixWidths(rows, |rows|)
  {
    PrefixLength(rows, |rows|);
    assert rows[..|rows|] == rows;
  }

  lemma {:induction false} PrefixLength(rows: seq<Span>, n: nat)
    requires n <= |rows|
    ensures |Flatten(rows[..n])| == PrefixWidths(rows, n)
  {
    if n > 0 {
      PrefixLength(rows, n - 1);
      FlattenStep(rows, n - 1);
    }
  }

  /**
   * `dx / dy`: the slope of an edge. For a horizontal edge the source divides by zero;
   * 0 is taken here, and such a slope is never used past the edge's first row.
   */
  function Slope(dx: int, dy: int): real {
    if dy == 0 then 0.0 else dx as real / dy as real
  }

  /** The accumulator of a fill after k steps of `x += slope` from x0, computed exactly. */
  function EdgeX(x0: int, k: nat, slope: real): real {
    if k == 0 then x0 as real else EdgeX(x0, k - 1, slope) + slope
  }

  /**
   * `Math.round(x0 + k * dx / dy)` in integer arithmetic: where an edge of slope dx / dy
   * leaving x0 is after k rows, rounded; a horizontal edge stays at x0.
   */
  function EdgeAt(x0: int, k: nat, dx: int, dy: int): int {
    if dy == 0 then x0 else x0 + RoundQuotient(k * dx, dy)
  }

  /** Row k (from 0) of `fillBottomFlatTriangle([v1, v2, v3])`: y = v1.y + k, edges from v1 towards v2 and v3. */
  function BottomRow(v1: Int2, v2: Int2, v3: Int2, k: nat): Span {
    Span(v1.y + k, EdgeAt(v1.x, k, v2.x - v1.x, v2.y - v1.y), EdgeAt(v1.x, k, v3.x - v1.x, v3.y - v1.y))
  }

  /** The rows `fillBottomFlatTriangle([v1, v2, v3])` emits: y = v1.y up to v2.y. */
  function BottomRows(v1: Int2, v2: Int2, v3: Int2): (rows: seq<Span>)
    ensures |rows| == MaxInt(v2.y - v1.y + 1, 0)
  {
    seq(MaxInt(v2.y - v1.y + 1, 0), k requires 0 <= k => BottomRow(v1, v2, v3, k))
  }

  /** Row k (from 0) of `fillTopFlatTriangle([v1, v2, v3], _)`: y = v3.y - k, edges from v3 towards v1 and v2. */
  function TopRow(v1: Int2, v2: Int2, v3: Int2, k: nat): Span {
    Span(v3.y - k, EdgeAt(v3.x, k, v1.x - v3.x, v3.y - v1.y), EdgeAt(v3.x, k, v2.x - v3.x, v3.y - v2.y))
  }

  /**
   * The rows `fillTopFlatTriangle([v1, v2, v3], includeFlatLine)` emits: y = v3.y down
   * to v1.y, the last row only when `includeFlatLine`.
   */
  function TopRows(v1: Int2, v2: Int2, v3: Int2, includeFlatLine: bool): (rows: seq<Span>)
    ensures |rows| == MaxInt(v3.y - v1.y + (if includeFlatLine then 1 else 0), 0)
  {
    seq(MaxInt(v3.y - v1.y + (if includeFlatLine then 1 else 0), 0), k requires 0 <= k => TopRow(v1, v2, v3, k))
  }

  lemma RoundInteger(n: int)
    ensures Round(n as real) == n
  {
  }

  /** `Math.round` commutes with adding an integer. */
  lemma RoundShift(n: int, x: real)
    ensures Round(n as real + x) == n + Round(x)
  {
  }

  /** The accumulator after k steps is `x0 + k * slope`. */
  lemma {:induction false} EdgeXLinear(x0: int, k: nat, slope: real)
    ensures EdgeX(x0, k, slope) == x0 as real + k as real * slope
  {
    if k > 0 {
      EdgeXLinear(x0, k - 1, slope);
    }
  }

  lemma ScaleQuotient(k: int, dx: int, dy: int)
    requires dy != 0
    ensures k as real * (dx as real / dy as real) == (k * dx) as real / dy as real
  {
    var s := dx as real / dy as real;
    assert s * dy as real == dx as real;
    CastMul(k, dx);
    assert (k as real * s) * dy as real == (k * dx) as real;
    QuotientOf((k * dx) as real, dy as real, k as real * s);
  }

  /** Rounding the exact accumulator of a fill gives the row's edge position. */
  lemma EdgeAtIsRounded(x0: int, k: nat, dx: int, dy: int)
    ensures Round(EdgeX(x0, k, Slope(dx, dy))) == EdgeAt(x0, k, dx, dy)
  {
    var e := EdgeX(x0, k, Slope(dx, dy));
    EdgeXLinear(x0, k, Slope(dx, dy));
    if dy == 0 {
      assert e == x0 as real + k as real * 0.0;
      RoundInteger(x0);
    } else {
      var f := (k * dx) as real / dy as real;
      ScaleQuotient(k, dx, dy);
      assert e == x0 as real + f;
      RoundShift(x0, f);
      RoundOfQuotient(k * dx, dy);
    }
  }

  function RowPixels(y: int, minX: int, maxX: int): seq<Int2> {
    seq(MaxInt(maxX - minX + 1, 0), i => Int2(minX + i, y))
  }

  /** The inner loop of both fills: report (x, y) for x = minX up to maxX. */
  method FillRow(pixels: seq<Int2>, y: int, minX: int, maxX: int) returns (out: seq<Int2>)
    ensures out == pixels + RowPixels(y, minX, maxX)
  {
    out := pixels;
    var x := minX;
    while x <= maxX
      invariant minX <= x <= MaxInt(maxX + 1, minX)
      invariant out == pixels + RowPixels(y, minX, x - 1)
    {
      out := out + [Int2(x, y)];
      x := x + 1;
    }
  }

  /** The inner loop emits exactly the pixels of the row's span. */
  lemma SpanIsRowPixels(s: Span)
    ensures SpanPixels(s) == RowPixels(s.y, MinInt(s.x1, s.x2), MaxInt(s.x1, s.x2))
  {
  }

  /** Row k of the bottom fill is where the loop's rounded accumulators put it. */
  lemma BottomRowIs(v1: Int2, v2: Int2, v3: Int2, k: nat, x1: real, x2: real)
    requires k < |BottomRows(v1, v2, v3)|
    requires x1 == EdgeX(v1.x, k, Slope(v2.x - v1.x, v2.y - v1.y))
    requires x2 == EdgeX(v1.x, k, Slope(v3.x - v1.x, v3.y - v1.y))
    ensures BottomRows(v1, v2, v3)[k] == Span(v1.y + k, Round(x1), Round(x2))
  {
    EdgeAtIsRounded(v1.x, k, v2.x - v1.x, v2.y - v1.y);
    EdgeAtIsRounded(v1.x, k, v3.x - v1.x, v3.y - v1.y);
  }

  /** One iteration of a fill's row loop emits row k of its specification. */
  lemma EmitRow(rows: seq<Span>, k: nat, y: int, a: int, b: int)
    requires k < |rows| && rows[k] == Span(y, a, b)
    ensures Flatten(rows[..k + 1]) == Flatten(rows[..k]) + RowPixels(y, MinInt(a, b), MaxInt(a, b))
  {
    SpanIsRowPixels(rows[k]);
    FlattenStep(rows, k);
  }

  /** `fillBottomFlatTriangle`: a row loop over y with an inner loop over x. */
  method FillBottomFlatTriangle(v1: Int2, v2: Int2, v3: Int2) returns (pixels: seq<Int2>)
    ensures pixels == Flatten(BottomRows(v1, v2, v3))
  {
    ghost var rows := BottomRows(v1, v2, v3);
    var slope1 := Slope(v2.x - v1.x, v2.y - v1.y);
    var slope2 := Slope(v3.x - v1.x, v3.y - v1.y);
    var x1 := v1.x as real;
    var x2 := v1.x as real;
    pixels := [];
    var y := v1.y;
    ghost var k: nat := 0;
    while y <= v2.y
      invariant y == v1.y + k && k <= |rows|
      invariant x1 == EdgeX(v1.x, k, slope1)
      invariant x2 == EdgeX(v1.x, k, slope2)
      invariant pixels == Flatten(rows[..k])
      decreases v2.y - y
    {
      var x1R := Round(x1);
      var x2R := Round(x2);
      var minX := MinInt(x1R, x2R);
      var maxX := MaxInt(x1R, x2R);
      BottomRowIs(v1, v2, v3, k, x1, x2);
      EmitRow(rows, k, y, x1R, x2R);
      pixels := FillRow(pixels, y, minX, maxX);
      x1 := x1 + slope1;
      x2 := x2 + slope2;
      y := y + 1;
      k := k + 1;
    }
    assert rows[..k] == rows;
  }

  /** Row k of the top fill is where the loop's rounded accumulators put it. */
  lemma TopRowIs(v1: Int2, v2: Int2, v3: Int2, includeFlatLine: bool, k: nat, x1: real, x2: real)
    requires k < |TopRows(v1, v2, v3, includeFlatLine)|
    requires x1 == EdgeX(v3.x, k, -Slope(v3.x - v1.x, v3.y - v1.y))
    requires x2 == EdgeX(v3.x, k, -Slope(v3.x - v2.x, v3.y - v2.y))
    ensures TopRows(v1, v2, v3, includeFlatLine)[k] == Span(v3.y - k, Round(x1), Round(x2))
  {
    assert -Slope(v3.x - v1.x, v3.y - v1.y) == Slope(v1.x - v3.x, v3.y - v1.y);
    assert -Slope(v3.x - v2.x, v3.y - v2.y) == Slope(v2.x - v3.x, v3.y - v2.y);
    EdgeAtIsRounded(v3.x, k, v1.x - v3.x, v3.y - v1.y);
    EdgeAtIsRounded(v3.x, k, v2.x - v3.x, v3.y - v2.y);
  }

  /** `fillTopFlatTriangle`: a row loop downwards from v3.y with an inner loop over x. */
  method FillTopFlatTriangle(v1: Int2, v2: Int2, v3: Int2, includeFlatLine: bool) returns (pixels: seq<Int2>)
    ensures pixels == Flatten(TopRows(v1, v2, v3, includeFlatLine))
  {
    ghost var rows := TopRows(v1, v2, v3, includeFlatLine);
    var slope1 := Slope(v3.x - v1.x, v3.y - v1.y);
    var slope2 := Slope(v3.x - v2.x, v3.y - v2.y);
    var x1 := v3.x as real;
    var x2 := v3.x as real;
    pixels := [];
    var y := v3.y;
    ghost var k: nat := 0;
    while if includeFlatLine then y >= v1.y else y > v1.y
      invariant y == v3.y - k && k <= |rows|
      invariant x1 == EdgeX(v3.x, k, -slope1)
      invariant x2 == EdgeX(v3.x, k, -slope2)
      invariant pixels == Flatten(rows[..k])
      decreases y - v1.y + 1
    {
      var x1R := Round(x1);
      var x2R := Round(x2);
      var minX := MinInt(x1R, x2R);
      var maxX := MaxInt(x1R, x2R);
      TopRowIs(v1, v2, v3, includeFlatLine, k, x1, x2);
      EmitRow(rows, k, y, x1R, x2R);
      pixels := FillRow(pixels, y, minX, maxX);
      x1 := x1 - slope1;
      x2 := x2 - slope2;
      y := y - 1;
      k := k + 1;
    }
    assert rows[..k] == rows;
  }

  /** The first map of `rasterize`: a Vector2 as it is, an array as a Vector2, else nothing. */
  function AsVector(c: Coord): Option<Vec2> {
    match c
    case Vector2Coord(v) => Some(v)
    case ArrayCoord(x, y) => Some(Vec2(x, y))
    case OtherCoord => None
  }

  function RoundPoint(v: Vec2): Int2 {
    Int2(Round(v.x), Round(v.y))
  }

  /**
   * The positions of the stable sort by y of three points: the sorted list is
   * `[p[o[0]], p[o[1]], p[o[2]]]`.
   */
  function SortOrder(p: seq<Int2>): (o: seq<nat>)
    requires |p| == 3
    ensures |o| == 3 && {o[0], o[1], o[2]} == {0, 1, 2}
    ensures p[o[0]].y <= p[o[1]].y <= p[o[2]].y
    ensures p[o[0]].y == p[o[1]].y ==> o[0] < o[1]
    ensures p[o[1]].y == p[o[2]].y ==> o[1] < o[2]
  {
    var ab := if p[1].y < p[0].y then [1, 0] else [0, 1];
    if p[2].y < p[ab[1]].y then
      if p[2].y < p[ab[0]].y then [2, ab[0], ab[1]] else [ab[0], 2, ab[1]]
    else [ab[0], ab[1], 2]
  }

  function SortByY(p: seq<Int2>): (s: seq<Int2>)
    requires |p| == 3
  {
    var o := SortOrder(p);
    [p[o[0]], p[o[1]], p[o[2]]]
  }

  /** The rows `rasterize` fills for sorted vertices v1.y <= v2.y <= v3.y. */
  function Rows(v1: Int2, v2: Int2, v3: Int2): seq<Span> {
    if v2.y == v3.y then BottomRows(v1, v2, v3)
    else if v1.y == v2.y then TopRows(v1, v2, v3, true)
    else
      BottomRows(v1, v2, SplitVertex(v1, v2, v3)) + TopRows(v2, SplitVertex(v1, v2, v3), v3, false)
  }

  /**
   * The vertex where the row y = v2.y meets the long edge from v1 to v3:
   * `Math.round(v1.x + (v2.y - v1.y) / (v3.y - v1.y) * (v3.x - v1.x))` in integer arithmetic.
   * `rasterize` only computes it for v1.y < v2.y < v3.y; v1.x is taken for a flat edge.
   */
  function SplitVertex(v1: Int2, v2: Int2, v3: Int2): Int2 {
    if v3.y == v1.y then Int2(v1.x, v2.y)
    else Int2(v1.x + RoundQuotient((v2.y - v1.y) * (v3.x - v1.x), v3.y - v1.y), v2.y)
  }

  /** The split vertex computed over reals, as `rasterize` does, is the exact one. */
  lemma SplitVertexIsRounded(v1: Int2, v2: Int2, v3: Int2)
    requires v3.y != v1.y
    ensures Round(v1.x as real + (v2.y - v1.y) as real / (v3.y - v1.y) as real * (v3.x - v1.x) as real)
      == SplitVertex(v1, v2, v3).x
  {
    var p, q := (v2.y - v1.y) * (v3.x - v1.x), v3.y - v1.y;
    var t := (v2.y - v1.y) as real / q as real;
    ScaleQuotient(v3.x - v1.x, v2.y - v1.y, q);
    assert (v3.x - v1.x) * (v2.y - v1.y) == p;
    assert t * (v3.x - v1.x) as real == p as real / q as real;
    RoundShift(v1.x, p as real / q as real);
    RoundOfQuotient(p, q);
  }

  /** The pixels `rasterize(triangle, callback)` reports, in order, or its error. */
  function RasterizeSpec(triangle: seq<Coord>): Result<seq<Int2>>
    requires |triangle| == 3
  {
    if exists i | 0 <= i < 3 :: AsVector(triangle[i]).None? then Err(NoValidCoordinate)
    else
      var v := SortByY(RoundedPoints(triangle));
      Ok(Flatten(Rows(v[0], v[1], v[2])))
  }

  /** The pixels of the triangle with corners a, b and c given as vectors. */
  function VectorPixels(a: Vec2, b: Vec2, c: Vec2): seq<Int2> {
    var v := SortByY([RoundPoint(a), RoundPoint(b), RoundPoint(c)]);
    Flatten(Rows(v[0], v[1], v[2]))
  }

  lemma RasterizeVectors(a: Vec2, b: Vec2, c: Vec2)
    ensures RasterizeSpec([Vector2Coord(a), Vector2Coord(b), Vector2Coord(c)]) == Ok(VectorPixels(a, b, c))
  {
    var t := [Vector2Coord(a), Vector2Coord(b), Vector2Coord(c)];
    assert RoundedPoints(t) == [RoundPoint(a), RoundPoint(b), RoundPoint(c)];
  }

  /** The three coordinates as vectors, each coordinate rounded. */
  function RoundedPoints(triangle: seq<Coord>): (ps: seq<Int2>)
    requires |triangle| == 3 && forall i | 0 <= i < 3 :: AsVector(triangle[i]).Some?
    ensures |ps| == 3 && forall i | 0 <= i < 3 :: ps[i] == RoundPoint(AsVector(triangle[i]).value)
  {
    [RoundPoint(AsVector(triangle[0]).value), RoundPoint(AsVector(triangle[1]).value), RoundPoint(AsVector(triangle[2]).value)]
  }

  /** `rasterize`: validation, rounding, sorting, then one or two fills. */
  method Rasterize(triangle: seq<Coord>) returns (r: Result<seq<Int2>>)
    requires |triangle| == 3
    ensures r == RasterizeSpec(triangle)
  {
    var points: seq<Int2> := [];
    var i := 0;
    while i < 3
      invariant 0 <= i <= 3
      invariant forall j | 0 <= j < i :: AsVector(triangle[j]).Some?
      invariant |points| == i
      invariant forall j | 0 <= j < i :: points[j] == RoundPoint(AsVector(triangle[j]).value)
    {
      var v := AsVector(triangle[i]);
      if v.None? {
        return Err(NoValidCoordinate);
      }
      points := points + [RoundPoint(v.value)];
      i := i + 1;
    }
    assert points == RoundedPoints(triangle);
    var sorted := SortByY(points);
    var v1, v2, v3 := sorted[0], sorted[1], sorted[2];
    var pixels: seq<Int2>;
    if v2.y == v3.y {
      pixels := FillBottomFlatTriangle(v1, v2, v3);
    } else if v1.y == v2.y {
      pixels := FillTopFlatTriangle(v1, v2, v3, true);
    } else {
      var t := (v2.y - v1.y) as real / (v3.y - v1.y) as real;
      var vTmp := Int2(Round(v1.x as real + t * (v3.x - v1.x) as real), v2.y);
      SplitVertexIsRounded(v1, v2, v3);
      assert vTmp == SplitVertex(v1, v2, v3);
      var bottom := FillBottomFlatTriangle(v1, v2, vTmp);
      var top := FillTopFlatTriangle(v2, vTmp, v3, false);
      FlattenAppend(BottomRows(v1, v2, vTmp), TopRows(v2, vTmp, v3, false));
      pixels := bottom + top;
    }
    r := Ok(pixels);
  }

  lemma {:induction false} FlattenAppend(a: seq<Span>, b: seq<Span>)
    ensures Flatten(a + b) == Flatten(a) + Flatten(b)
    decreases |b|
  {
    if b == [] {
      assert a + b == a;
    } else {
      assert (a + b)[..|a + b| - 1] == a + b[..|b| - 1];
      FlattenAppend(a, b[..|b| - 1]);
    }
  }


  /** Row k of the bottom fill is at y = v1.y + k, row k of the top fill at y = v3.y - k. */
  lemma RowHeights(v1: Int2, v2: Int2, v3: Int2, includeFlatLine: bool)
    ensures forall k | 0 <= k < |BottomRows(v1, v2, v3)| :: BottomRows(v1, v2, v3)[k].y == v1.y + k
    ensures forall k | 0 <= k < |TopRows(v1, v2, v3, includeFlatLine)| :: TopRows(v1, v2, v3, includeFlatLine)[k].y == v3.y - k
  {
  }

  /** The position in `Rows(v1, v2, v3)` of the row at height y. */
  function RowIndex(v1: Int2, v2: Int2, v3: Int2, y: int): int {
    if v2.y == v3.y then y - v1.y
    else if v1.y == v2.y then v3.y - y
    else if y <= v2.y then y - v1.y
    else v2.y - v1.y + 1 + v3.y - y
  }

  /**
   * For vertices sorted by y, the fills emit one row for every y from v1.y to v3.y and
   * no row twice: the bottom half includes the row of v2 and the top half excludes it.
   */
  lemma RowsCoverEachLineOnce(v1: Int2, v2: Int2, v3: Int2)
    requires v1.y <= v2.y <= v3.y
    ensures |Rows(v1, v2, v3)| == v3.y - v1.y + 1
    ensures forall k | 0 <= k < |Rows(v1, v2, v3)| :: v1.y <= Rows(v1, v2, v3)[k].y <= v3.y
    ensures forall i, j | 0 <= i < j < |Rows(v1, v2, v3)| :: Rows(v1, v2, v3)[i].y != Rows(v1, v2, v3)[j].y
    ensures forall y | v1.y <= y <= v3.y ::
      0 <= RowIndex(v1, v2, v3, y) < |Rows(v1, v2, v3)| && Rows(v1, v2, v3)[RowIndex(v1, v2, v3, y)].y == y
  {
    if v2.y == v3.y {
      RowHeights(v1, v2, v3, false);
    } else if v1.y == v2.y {
      RowHeights(v1, v2, v3, true);
    } else {
      SplitRows(v1, v2, v3);
    }
  }

  lemma SplitRows(v1: Int2, v2: Int2, v3: Int2)
    requires v1.y < v2.y < v3.y
    ensures |Rows(v1, v2, v3)| == v3.y - v1.y + 1
    ensures forall k | 0 <= k < |Rows(v1, v2, v3)| ::
      Rows(v1, v2, v3)[k].y == if k <= v2.y - v1.y then v1.y + k else v3.y - (k - (v2.y - v1.y + 1))
  {
    var s := SplitVertex(v1, v2, v3);
    var bottom, top := BottomRows(v1, v2, s), TopRows(v2, s, v3, false);
    RowHeights(v1, v2, s, false);
    RowHeights(v2, s, v3, false);
    assert Rows(v1, v2, v3) == bottom + top;
  }

  /** Every pixel reported lies on one of the emitted rows, between the row's two edge positions. */
  lemma {:induction false} FlattenMembers(rows: seq<Span>, p: Int2)
    ensures p in Flatten(rows) <==> exists k | 0 <= k < |rows| :: p in SpanPixels(rows[k])
  {
    if rows != [] {
      var init, last := rows[..|rows| - 1], rows[|rows| - 1];
      FlattenMembers(init, p);
      assert Flatten(rows) == Flatten(init) + SpanPixels(last);
      if p in Flatten(rows) {
        if p in SpanPixels(last) {
          assert p in SpanPixels(rows[|rows| - 1]);
        } else {
          var k :| 0 <= k < |init| && p in SpanPixels(init[k]);
          assert p in SpanPixels(rows[k]);
        }
      }
      if exists k | 0 <= k < |rows| :: p in SpanPixels(rows[k]) {
        var k :| 0 <= k < |rows| && p in SpanPixels(rows[k]);
        if k < |init| {
          assert p in SpanPixels(init[k]);
        }
      }
    }
  }

  /** When the three rounded y are equal, exactly one pixel is reported: the first sorted vertex. */
  lemma FlatLine(triangle: seq<Coord>)
    requires |triangle| == 3
    requires forall i | 0 <= i < 3 :: AsVector(triangle[i]).Some?
    requires Round(AsVector(triangle[0]).value.y) == Round(AsVector(triangle[1]).value.y) == Round(AsVector(triangle[2]).value.y)
    ensures RasterizeSpec(triangle) == Ok([RoundPoint(AsVector(triangle[0]).value)])
  {
    var pts := RoundedPoints(triangle);
    var v := SortByY(pts);
    assert v[0] == pts[0];
    var rows := BottomRows(v[0], v[1], v[2]);
    assert rows == [Span(v[0].y, v[0].x, v[0].x)];
    assert SpanPixels(rows[0]) == [v[0]];
    assert Flatten(rows) == Flatten([]) + SpanPixels(rows[0]);
    assert v[1].y == v[2].y;
    assert Rows(v[0], v[1], v[2]) == rows;
    assert !exists i | 0 <= i < 3 :: AsVector(triangle[i]).None?;
    assert RasterizeSpec(triangle) == Ok(Flatten(Rows(v[0], v[1], v[2])));
    assert Flatten(rows) == [v[0]];
    assert v[0] == RoundPoint(AsVector(triangle[0]).value);
  }

  /** A triangle given as three integer arrays, already in y order, is filled from its own vertices. */
  lemma RasterizeIntegerPoints(x1: int, y1: int, x2: int, y2: int, x3: int, y3: int)
    requires y1 <= y2 <= y3
    ensures RasterizeSpec([ArrayCoord(x1 as real, y1 as real), ArrayCoord(x2 as real, y2 as real), ArrayCoord(x3 as real, y3 as real)])
      == Ok(Flatten(Rows(Int2(x1, y1), Int2(x2, y2), Int2(x3, y3))))
  {
    var t := [ArrayCoord(x1 as real, y1 as real), ArrayCoord(x2 as real, y2 as real), ArrayCoord(x3 as real, y3 as real)];
    RoundInteger(x1); RoundInteger(y1);
    RoundInteger(x2); RoundInteger(y2);
    RoundInteger(x3); RoundInteger(y3);
    var v := [Int2(x1, y1), Int2(x2, y2), Int2(x3, y3)];
    assert RoundedPoints(t) == v;
    assert SortOrder(v) == [0, 1, 2];
    assert SortByY(v) == v;
  }

  /** The fixture `[[0, 0], [3, 0], [0, 3]]`: a top-flat triangle of 10 pixels. */
  lemma FixtureTopFlat()
    ensures RasterizeSpec([ArrayCoord(0.0, 0.0), ArrayCoord(3.0, 0.0), ArrayCoord(0.0, 3.0)]).Ok?
    ensures |RasterizeSpec([ArrayCoord(0.0, 0.0), ArrayCoord(3.0, 0.0), ArrayCoord(0.0, 3.0)]).value| == 10
  {
    RasterizeIntegerPoints(0, 0, 3, 0, 0, 3);
    assert Rows(Int2(0, 0), Int2(3, 0), Int2(0, 3)) == TopRows(Int2(0, 0), Int2(3, 0), Int2(0, 3), true);
    FlattenLength(TopRows(Int2(0, 0), Int2(3, 0), Int2(0, 3), true));
    TopFlatWidths();
  }

  lemma TopFlatWidths()
    ensures PrefixWidths(TopRows(Int2(0, 0), Int2(3, 0), Int2(0, 3), true), 4) == 10
  {
    TopFlatRowsAre();
  }

  lemma TopFlatRowsAre()
    ensures TopRow(Int2(0, 0), Int2(3, 0), Int2(0, 3), 0) == Span(3, 0, 0)
    ensures TopRow(Int2(0, 0), Int2(3, 0), Int2(0, 3), 1) == Span(2, 0, 1)
    ensures TopRow(Int2(0, 0), Int2(3, 0), Int2(0, 3), 2) == Span(1, 0, 2)
    ensures TopRow(Int2(0, 0), Int2(3, 0), Int2(0, 3), 3) == Span(0, 0, 3)
  {
  }

  /** The fixture `[[0, 0], [3, 0], [3, 3]]`: a top-flat triangle of 10 pixels. */
  lemma FixtureTopFlatRight()
    ensures RasterizeSpec([ArrayCoord(0.0, 0.0), ArrayCoord(3.0, 0.0), ArrayCoord(3.0, 3.0)]).Ok?
    ensures |RasterizeSpec([ArrayCoord(0.0, 0.0), ArrayCoord(3.0, 0.0), ArrayCoord(3.0, 3.0)]).value| == 10
  {
    RasterizeIntegerPoints(0, 0, 3, 0, 3, 3);
    assert Rows(Int2(0, 0), Int2(3, 0), Int2(3, 3)) == TopRows(Int2(0, 0), Int2(3, 0), Int2(3, 3), true);
    FlattenLength(TopRows(Int2(0, 0), Int2(3, 0), Int2(3, 3), true));
    TopFlatRightWidths();
  }

  lemma TopFlatRightWidths()
    ensures PrefixWidths(TopRows(Int2(0, 0), Int2(3, 0), Int2(3, 3), true), 4) == 10
  {
    TopFlatRightRowsAre();
  }

  lemma TopFlatRightRowsAre()
    ensures TopRow(Int2(0, 0), Int2(3, 0), Int2(3, 3), 0) == Span(3, 3, 3)
    ensures TopRow(Int2(0, 0), Int2(3, 0), Int2(3, 3), 1) == Span(2, 2, 3)
    ensures TopRow(Int2(0, 0), Int2(3, 0), Int2(3, 3), 2) == Span(1, 1, 3)
    ensures TopRow(Int2(0, 0), Int2(3, 0), Int2(3, 3), 3) == Span(0, 0, 3)
  {
  }

  /** The fixture `[[0, 0], [3, 3], [0, 6]]`: the general case, split at (0, 3), of 16 pixels. */
  lemma FixtureSplit()
    ensures RasterizeSpec([ArrayCoord(0.0, 0.0), ArrayCoord(3.0, 3.0), ArrayCoord(0.0, 6.0)]).Ok?
    ensures |RasterizeSpec([ArrayCoord(0.0, 0.0), ArrayCoord(3.0, 3.0), ArrayCoord(0.0, 6.0)]).value| == 16
  {
    RasterizeIntegerPoints(0, 0, 3, 3, 0, 6);
    assert SplitVertex(Int2(0, 0), Int2(3, 3), Int2(0, 6)) == Int2(0, 3);
    assert Rows(Int2(0, 0), Int2(3, 3), Int2(0, 6)) == BottomRows(Int2(0, 0), Int2(3, 3), Int2(0, 3)) + TopRows(Int2(3, 3), Int2(0, 3), Int2(0, 6), false);
    FlattenAppend(BottomRows(Int2(0, 0), Int2(3, 3), Int2(0, 3)), TopRows(Int2(3, 3), Int2(0, 3), Int2(0, 6), false));
    FlattenLength(BottomRows(Int2(0, 0), Int2(3, 3), Int2(0, 3)));
    FlattenLength(TopRows(Int2(3, 3), Int2(0, 3), Int2(0, 6), false));
    SplitBottomWidths();
    SplitTopWidths();
  }

  lemma SplitBottomWidths()
    ensures PrefixWidths(BottomRows(Int2(0, 0), Int2(3, 3), Int2(0, 3)), 4) == 10
  {
    SplitBottomRowsAre();
  }

  lemma SplitBottomRowsAre()
    ensures BottomRow(Int2(0, 0), Int2(3, 3), Int2(0, 3), 0) == Span(0, 0, 0)
    ensures BottomRow(Int2(0, 0), Int2(3, 3), Int2(0, 3), 1) == Span(1, 1, 0)
    ensures BottomRow(Int2(0, 0), Int2(3, 3), Int2(0, 3), 2) == Span(2, 2, 0)
    ensures BottomRow(Int2(0, 0), Int2(3, 3), Int2(0, 3), 3) == Span(3, 3, 0)
  {
  }

  lemma SplitTopWidths()
    ensures PrefixWidths(TopRows(Int2(3, 3), Int2(0, 3), Int2(0, 6), false), 3) == 6
  {
    SplitTopRowsAre();
  }

  lemma SplitTopRowsAre()
    ensures TopRow(Int2(3, 3), Int2(0, 3), Int2(0, 6), 0) == Span(6, 0, 0)
    ensures TopRow(Int2(3, 3), Int2(0, 3), Int2(0, 6), 1) == Span(5, 1, 0)
    ensures TopRow(Int2(3, 3), Int2(0, 3), Int2(0, 6), 2) == Span(4, 2, 0)
  {
  }

  /** The fixture `[[0, 0], [0, 5], [2, 5]]`: a bottom-flat triangle with a fractional slope, of 12 pixels. */
  lemma FixtureThin()
    ensures RasterizeSpec([ArrayCoord(0.0, 0.0), ArrayCoord(0.0, 5.0), ArrayCoord(2.0, 5.0)]).Ok?
    ensures |RasterizeSpec([ArrayCoord(0.0, 0.0), ArrayCoord(0.0, 5.0), ArrayCoord(2.0, 5.0)]).value| == 12
  {
    RasterizeIntegerPoints(0, 0, 0, 5, 2, 5);
    assert Rows(Int2(0, 0), Int2(0, 5), Int2(2, 5)) == BottomRows(Int2(0, 0), Int2(0, 5), Int2(2, 5));
    FlattenLength(BottomRows(Int2(0, 0), Int2(0, 5), Int2(2, 5)));
    ThinWidths();
  }

  lemma ThinWidths()
    ensures PrefixWidths(BottomRows(Int2(0, 0), Int2(0, 5), Int2(2, 5)), 6) == 12
  {
    ThinRowsAre();
  }

  lemma ThinRowsAre()
    ensures BottomRow(Int2(0, 0), Int2(0, 5), Int2(2, 5), 0) == Span(0, 0, 0)
    ensures BottomRow(Int2(0, 0), Int2(0, 5), Int2(2, 5), 1) == Span(1, 0, 0)
    ensures BottomRow(Int2(0, 0), Int2(0, 5), Int2(2, 5), 2) == Span(2, 0, 1)
    ensures BottomRow(Int2(0, 0), Int2(0, 5), Int2(2, 5), 3) == Span(3, 0, 1)
    ensures BottomRow(Int2(0, 0), Int2(0, 5), Int2(2, 5), 4) == Span(4, 0, 2)
    ensures BottomRow(Int2(0, 0), Int2(0, 5), Int2(2, 5), 5) == Span(5, 0, 2)
  {
  }
}
