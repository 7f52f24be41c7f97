/**
 * The slicer's polygon operations: clipping a convex polygon against a plane,
 * mapping a triangle into texture space, and averaging the texture under a polygon.
 */
module PolygonExtensions {
  import opened Common
  import opened Geometry
  import opened Vertices
  import opened Polygons
  import opened TriangleExtensions
  import opened WeightedColors

  /** Points closer to the plane than this count as lying on it. */
  const Epsilon: real := 0.00001

  /** The classes of a point or polygon, as bits: Front 1, Back 2, both 3. */
  const Coplanar := 0
  const Front := 1
  const Back := 2
  const Spanning := 3

  /** The bitwise OR `a | b` of two classes. */
  function BitOr(a: int, b: int): int
    requires 0 <= a < 4 && 0 <= b < 4
  {
    ((a as bv2) | (b as bv2)) as int
  }

  /** OR-ing classes unions their bits. */
  lemma BitOrBits(a: int, b: int)
    requires 0 <= a < 4 && 0 <= b < 4
    ensures BitOr(a, b) % 2 == 1 <==> a % 2 == 1 || b % 2 == 1
    ensures BitOr(a, b) >= 2 <==> a >= 2 || b >= 2
    ensures 0 <= BitOr(a, b) < 4
  {
    if a == 0 {
    } else if a == 1 {
    } else if a == 2 {
    } else {
    }
  }

  /** The class of a point whose signed distance from the plane is t. */
  function Classify(t: real): (c: int)
    ensures c == Back <==> t < -Epsilon
    ensures c == Front <==> t > Epsilon
    ensures c == Coplanar <==> -Epsilon <= t <= Epsilon
  {
    if t < -Epsilon then Back else if t > Epsilon then Front else Coplanar
  }

  function TypeOf(plane: Plane, v: Vertex): int {
    Classify(Distance(plane, v.position))
  }

  /** The `types` list of `split`. */
  function TypesOf(plane: Plane, points: seq<Vertex>): (types: seq<int>)
    ensures |types| == |points|
    ensures forall i | 0 <= i < |points| :: types[i] == TypeOf(plane, points[i])
  {
    seq(|points|, i requires 0 <= i < |points| => TypeOf(plane, points[i]))
  }

  predicate ValidTypes(types: seq<int>) {
    forall i | 0 <= i < |types| :: 0 <= types[i] <= 2
  }

  /** The class of the whole polygon, `polygonType |= type` over the points in order. */
  function OrAll(types: seq<int>): int
    requires ValidTypes(types)
  {
    if types == [] then Coplanar else
    var r := OrAll(types[..|types| - 1]);
    if 0 <= r < 4 then BitOr(r, types[|types| - 1]) else r
  }

  predicate Has(types: seq<int>, c: int) {
    exists i | 0 <= i < |types| :: types[i] == c
  }

  /** The polygon's class has the Front bit iff some point is in front, the Back bit iff some is behind. */
  lemma {:induction false} OrAllIs(types: seq<int>)
    requires ValidTypes(types)
    ensures OrAll(types) == (if Has(types, Front) then 1 else 0) + (if Has(types, Back) then 2 else 0)
  {
    if types != [] {
      var init, last := types[..|types| - 1], types[|types| - 1];
      OrAllIs(init);
      BitOrBits(OrAll(init), last);
      assert types == init + [last];
      assert Has(types, Front) <==> Has(init, Front) || last == Front by {
        if Has(types, Front) && last != Front {
          var i :| 0 <= i < |types| && types[i] == Front;
          assert init[i] == Front;
        }
      }
      assert Has(types, Back) <==> Has(init, Back) || last == Back by {
        if Has(types, Back) && last != Back {
          var i :| 0 <= i < |types| && types[i] == Back;
          assert init[i] == Back;
        }
      }
    }
  }

  /** The cyclic successor `(i + 1) % n` of point i among n points. */
  function Next(i: nat, n: nat): nat
    requires i < n
  {
    if i == n - 1 then 0 else i + 1
  }

  lemma Successor(i: nat, n: nat)
    requires i < n
    ensures (i + 1) % n == Next(i, n) < n
  {
    if i == n - 1 {
      DivModUnique(i + 1, n, 1, 0);
    } else {
      DivModUnique(i + 1, n, 0, i + 1);
    }
  }

  /** The edge from point i to its cyclic successor joins a Front and a Back point. */
  predicate SpanningEdge(types: seq<int>, i: nat)
    requires ValidTypes(types) && i < |types|
  {
    BitOr(types[i], types[Next(i, |types|)]) == Spanning
  }

  lemma SpanningEdgeIs(types: seq<int>, i: nat)
    requires ValidTypes(types) && i < |types|
    ensures SpanningEdge(types, i) <==>
      (types[i] == Front && types[Next(i, |types|)] == Back) || (types[i] == Back && types[Next(i, |types|)] == Front)
  {
    BitOrBits(types[i], types[Next(i, |types|)]);
  }

  /** Where a vertex of a fragment comes from: point i itself, or the cut on the edge from point i. */
  datatype Piece = Original(i: nat) | Seam(i: nat)

  /** The position of a piece along the polygon's boundary. */
  function Key(pc: Piece): nat {
    if pc.Original? then 2 * pc.i else 2 * pc.i + 1
  }

  /** The class a fragment's side excludes: the front list drops Back points and vice versa. */
  function Opposite(side: int): int { Spanning - side }

  /** What the loop over edges 0..n-1 has pushed onto the list for `side` (Front or Back). */
  function Pieces(types: seq<int>, side: int, n: nat): (pcs: seq<Piece>)
    requires ValidTypes(types) && n <= |types|
    ensures forall k | 0 <= k < |pcs| :: pcs[k].i < n && (pcs[k].Seam? ==> SpanningEdge(types, pcs[k].i))
  {
    if n == 0 then []
    else
      Pieces(types, side, n - 1)
      + (if types[n - 1] != Opposite(side) then [Original(n - 1)] else [])
      + (if SpanningEdge(types, n - 1) then [Seam(n - 1)] else [])
  }

  /** Whether piece `pc` belongs on the list for `side`. */
  predicate Kept(types: seq<int>, side: int, pc: Piece)
    requires ValidTypes(types) && pc.i < |types|
  {
    if pc.Original? then types[pc.i] != Opposite(side) else SpanningEdge(types, pc.i)
  }

  /**
   * A fragment keeps exactly the points not on the opposite side and the cuts of the
   * spanning edges (the same cuts for both sides).
   */
  lemma {:induction false} PiecesMembers(types: seq<int>, side: int, n: nat)
    requires ValidTypes(types) && n <= |types|
    ensures forall pc :: pc in Pieces(types, side, n) <==> pc.i < n && Kept(types, side, pc)
  {
    if n > 0 {
      PiecesMembers(types, side, n - 1);
    }
  }

  /** The pieces of a fragment follow the polygon's boundary order, each once. */
  lemma {:induction false} PiecesOrdered(types: seq<int>, side: int, n: nat)
    requires ValidTypes(types) && n <= |types|
    ensures forall a, b | 0 <= a < b < |Pieces(types, side, n)| :: Key(Pieces(types, side, n)[a]) < Key(Pieces(types, side, n)[b])
  {
    if n > 0 {
      PiecesOrdered(types, side, n - 1);
      var pcs := Pieces(types, side, n);
      var prev := Pieces(types, side, n - 1);
      assert pcs[..|prev|] == prev;
      forall a, b | 0 <= a < b < |pcs|
        ensures Key(pcs[a]) < Key(pcs[b])
      {
        if b < |prev| {
          assert pcs[a] == prev[a] && pcs[b] == prev[b];
        } else if a < |prev| {
          assert pcs[a] == prev[a];
        }
      }
    }
  }

  /** Three distinct members make a sequence at least three long. */
  lemma AtLeastThree<T>(s: seq<T>, x: T, y: T, z: T)
    requires x in s && y in s && z in s && x != y && y != z && x != z
    ensures |s| >= 3
  {
  }

  /**
   * A point of class `side` contributes itself and, towards each neighbour, either the
   * neighbour or the cut of the edge between them: the fragment of that side has at least
   * three vertices.
   */
  lemma FragmentHasThree(types: seq<int>, side: int, f: nat)
    requires ValidTypes(types) && |types| >= 3 && f < |types|
    requires side == Front || side == Back
    requires types[f] == side
    ensures |Pieces(types, side, |types|)| >= 3
  {
    var n := |types|;
    var pcs := Pieces(types, side, n);
    PiecesMembers(types, side, n);
    var p := if f == 0 then n - 1 else f - 1;
    var s := if f == n - 1 then 0 else f + 1;
    assert Next(p, n) == f && Next(f, n) == s;
    SpanningEdgeIs(types, p);
    SpanningEdgeIs(types, f);
    assert Kept(types, side, Original(f));
    if types[p] != Opposite(side) {
      assert Kept(types, side, Original(p));
      if types[s] != Opposite(side) {
        assert Kept(types, side, Original(s));
        AtLeastThree(pcs, Original(p), Original(f), Original(s));
      } else {
        assert Kept(types, side, Seam(f));
        AtLeastThree(pcs, Original(p), Original(f), Seam(f));
      }
    } else {
      assert Kept(types, side, Seam(p));
      if types[s] != Opposite(side) {
        assert Kept(types, side, Original(s));
        AtLeastThree(pcs, Seam(p), Original(f), Original(s));
      } else {
        assert Kept(types, side, Seam(f));
        AtLeastThree(pcs, Seam(p), Original(f), Seam(f));
      }
    }
  }

  /** The denominator of `part`: the plane normal against the edge from `cur` to `next`. */
  function EdgeDot(plane: Plane, cur: Vertex, next: Vertex): real {
    Dot(plane.normal, Sub(next.position, cur.position))
  }

  lemma EdgeDotIsDifference(plane: Plane, cur: Vertex, next: Vertex)
    ensures EdgeDot(plane, cur, next) == Distance(plane, next.position) - Distance(plane, cur.position)
  {
  }

  /** `part`: how far along the edge the plane cuts it. */
  function Part(plane: Plane, cur: Vertex, next: Vertex): real
    requires EdgeDot(plane, cur, next) != 0.0
  {
    (-plane.constant - Dot(plane.normal, cur.position)) / EdgeDot(plane, cur, next)
  }

  /**
   * On an edge from Back to Front or from Front to Back the denominator exceeds 2 epsilon in
   * magnitude, the cut lies strictly inside the edge, and the intersection vertex is on the plane.
   */
  lemma SeamOnPlane(plane: Plane, cur: Vertex, next: Vertex)
    requires BitOr(TypeOf(plane, cur), TypeOf(plane, next)) == Spanning
    ensures EdgeDot(plane, cur, next) > 2.0 * Epsilon || EdgeDot(plane, cur, next) < -2.0 * Epsilon
    ensures EdgeDot(plane, cur, next) != 0.0 && 0.0 < Part(plane, cur, next) < 1.0
    ensures Distance(plane, cur.Lerp(next, Part(plane, cur, next)).position) == 0.0
  {
    BitOrBits(TypeOf(plane, cur), TypeOf(plane, next));
    EdgeDotIsDifference(plane, cur, next);
    var tc, tn := Distance(plane, cur.position), Distance(plane, next.position);
    var d := tn - tc;
    var part := -tc / d;
    assert Part(plane, cur, next) == part;
    assert part * d == -tc;
    if d > 0.0 {
      assert 0.0 < part by { PositiveFactor(part, d); }
      assert part < 1.0 by { PositiveFactor(1.0 - part, d); }
    } else {
      assert 0.0 < part by { PositiveFactor(part, -d); }
      assert part < 1.0 by { PositiveFactor(1.0 - part, -d); }
    }
    var v := cur.Lerp(next, part);
    assert Sub(v.position, cur.position) == Scale(Sub(next.position, cur.position), part);
    assert Dot(plane.normal, Scale(Sub(next.position, cur.position), part)) == part * d;
  }

  /** The cut on the spanning edge from point i. */
  function SeamVertex(p: Polygon, plane: Plane, i: nat): Vertex
    requires i < |p.points| && SpanningEdge(TypesOf(plane, p.points), i)
  {
    var cur, next := p.points[i], p.points[Next(i, |p.points|)];
    SeamOnPlane(plane, cur, next);
    cur.Lerp(next, Part(plane, cur, next))
  }

  predicate ResolvablePiece(p: Polygon, plane: Plane, pc: Piece) {
    pc.i < |p.points| && (pc.Seam? ==> SpanningEdge(TypesOf(plane, p.points), pc.i))
  }

  predicate Resolvable(p: Polygon, plane: Plane, pcs: seq<Piece>) {
    forall k | 0 <= k < |pcs| :: ResolvablePiece(p, plane, pcs[k])
  }

  /** The vertex a piece stands for; a seam is one vertex object shared by both lists. */
  function Resolve(p: Polygon, plane: Plane, pc: Piece): Vertex
    requires ResolvablePiece(p, plane, pc)
  {
    if pc.Original? then p.points[pc.i] else SeamVertex(p, plane, pc.i)
  }

  /** The vertices a list of pieces stands for. */
  function Realize(p: Polygon, plane: Plane, pcs: seq<Piece>): (vs: seq<Vertex>)
    requires Resolvable(p, plane, pcs)
    ensures |vs| == |pcs|
  {
    seq(|pcs|, k requires 0 <= k < |pcs| => Resolve(p, plane, pcs[k]))
  }

  /** The vertex list for `side` of a spanning polygon. */
  function FragmentPoints(p: Polygon, plane: Plane, side: int): seq<Vertex> {
    Realize(p, plane, Pieces(TypesOf(plane, p.points), side, |p.points|))
  }

  /**
   * `split(polygon, plane, returnItem)`, the calls of `returnItem` in order. A polygon
   * that does not span the plane is passed on unchanged: in front if no point is behind
   * and some point is in front, or, when every point is on the plane, if the plane faces
   * the polygon's way. A spanning polygon gives a front and then a back fragment.
   */
  function SplitSpec(p: Polygon, plane: Plane): (r: seq<(Polygon, bool)>)
    requires p.Valid()
    ensures var types := TypesOf(plane, p.points);
      !(Has(types, Front) && Has(types, Back)) ==>
        |r| == 1 && r[0].0 == p &&
        (r[0].1 <==> !Has(types, Back) && (Has(types, Front) || Dot(plane.normal, p.Normal()) > 0.0))
    ensures var types := TypesOf(plane, p.points);
      Has(types, Front) && Has(types, Back) ==>
        |r| == 2 && r[0] == (Polygon(p.material, FragmentPoints(p, plane, Front)), true)
        && r[1] == (Polygon(p.material, FragmentPoints(p, plane, Back)), false)
        && r[0].0.Valid() && r[1].0.Valid()
  {
    var types := TypesOf(plane, p.points);
    OrAllIs(types);
    var kind := OrAll(types);
    if kind == Coplanar then [(p, Dot(plane.normal, p.Normal()) > 0.0)]
    else if kind == Front then [(p, true)]
    else if kind == Back then [(p, false)]
    else
      var front, back := FragmentPoints(p, plane, Front), FragmentPoints(p, plane, Back);
      assert |front| >= 3 by {
        var f :| 0 <= f < |types| && types[f] == Front;
        FragmentHasThree(types, Front, f);
      }
      assert |back| >= 3 by {
        var b :| 0 <= b < |types| && types[b] == Back;
        FragmentHasThree(types, Back, b);
      }
      (if |front| >= 3 then [(Polygon(p.material, front), true)] else [])
      + (if |back| >= 3 then [(Polygon(p.material, back), false)] else [])
  }

  /** The classifying loop of `split`. */
  method ClassifyPoints(p: Polygon, plane: Plane) returns (polygonType: int, types: seq<int>)
    ensures types == TypesOf(plane, p.points) && polygonType == OrAll(types)
  {
    polygonType := 0;
    types := [];
    for vertexIndex := 0 to |p.points|
      invariant types == TypesOf(plane, p.points)[..vertexIndex]
      invariant polygonType == OrAll(types)
    {
      var t := Dot(plane.normal, p.points[vertexIndex].position) + plane.constant;
      var kind := if t < -Epsilon then Back else if t > Epsilon then Front else Coplanar;
      OrAllIs(types);
      assert types + [kind] == TypesOf(plane, p.points)[..vertexIndex + 1];
      assert (types + [kind])[..|types|] == types;
      polygonType := BitOr(polygonType, kind);
      types := types + [kind];
    }
    assert TypesOf(plane, p.points)[..|p.points|] == TypesOf(plane, p.points);
  }

  /** One edge of the spanning loop extends the list for `side` by the pieces of point i. */
  lemma PiecesStep(p: Polygon, plane: Plane, side: int, i: nat)
    requires i < |p.points|
    ensures var types := TypesOf(plane, p.points);
      Realize(p, plane, Pieces(types, side, i + 1))
      == Realize(p, plane, Pieces(types, side, i))
        + (if types[i] != Opposite(side) then [p.points[i]] else [])
        + (if SpanningEdge(types, i) then [SeamVertex(p, plane, i)] else [])
  {
  }

  /** The loop of `split` over the edges of a spanning polygon: the front and back vertex lists. */
  method CutPolygon(p: Polygon, plane: Plane, types: seq<int>) returns (front: seq<Vertex>, back: seq<Vertex>)
    requires p.Valid() && types == TypesOf(plane, p.points)
    ensures front == FragmentPoints(p, plane, Front) && back == FragmentPoints(p, plane, Back)
  {
    var n := |p.points|;
    front, back := [], [];
    for current := 0 to n
      invariant front == Realize(p, plane, Pieces(types, Front, current))
      invariant back == Realize(p, plane, Pieces(types, Back, current))
    {
      PiecesStep(p, plane, Front, current);
      PiecesStep(p, plane, Back, current);
      var next := (current + 1) % n;
      Successor(current, n);
      var currentVertex, nextVertex := p.points[current], p.points[next];
      if types[current] != Back {
        front := front + [currentVertex];
      }
      assert front == Realize(p, plane, Pieces(types, Front, current)) + (if types[current] != Opposite(Front) then [p.points[current]] else []);
      if types[current] != Front {
        back := back + [currentVertex];
      }
      assert back == Realize(p, plane, Pieces(types, Back, current)) + (if types[current] != Opposite(Back) then [p.points[current]] else []);
      if BitOr(types[current], types[next]) == Spanning {
        SeamOnPlane(plane, currentVertex, nextVertex);
        var part := (-plane.constant - Dot(plane.normal, currentVertex.position))
          / Dot(plane.normal, Sub(nextVertex.position, currentVertex.position));
        var intersectingVertex := currentVertex.Lerp(nextVertex, part);
        assert intersectingVertex == SeamVertex(p, plane, current);
        front := front + [intersectingVertex];
        back := back + [intersectingVertex];
      }
    }
  }

  /** `split`; each `returnItem` call is an element of `items`, in order. */
  method Split(p: Polygon, plane: Plane) returns (items: seq<(Polygon, bool)>)
    requires p.Valid()
    ensures items == SplitSpec(p, plane)
  {
    var polygonType, types := ClassifyPoints(p, plane);
    OrAllIs(types);
    if polygonType == Coplanar {
      items := [(p, Dot(plane.normal, p.Normal()) > 0.0)];
    } else if polygonType == Front {
      items := [(p, true)];
    } else if polygonType == Back {
      items := [(p, false)];
    } else {
      var front, back := CutPolygon(p, plane, types);
      items := [];
      if |front| >= 3 {
        items := items + [(Polygon(p.material, front), true)];
      }
      if |back| >= 3 {
        items := items + [(Polygon(p.material, back), false)];
      }
    }
  }

  const NotATriangle := "Convert only polygons with three points!"

  /** A texture coordinate scaled to pixel units of a w by h image. */
  function TexturePoint(uv: Vec2, w: int, h: int): Vec2 {
    Vec2(uv.x * (w - 1) as real, uv.y * (h - 1) as real)
  }

  /**
   * `toTextureTriangle(polygon, width, height)`: the uv of each of exactly three points in
   * pixel units, where a width or height of 0 counts as 1.
   */
  function ToTextureTriangle(p: Polygon, width: int, height: int): (r: Result<seq<Vec2>>)
    ensures r.Ok? <==> |p.points| == 3
    ensures r.Err? ==> r.error == NotATriangle
    ensures r.Ok? ==> |r.value| == 3
    ensures r.Ok? ==> forall i | 0 <= i < 3 ::
      r.value[i] == Vec2(p.points[i].uv.x * (OrOne(width) - 1) as real, p.points[i].uv.y * (OrOne(height) - 1) as real)
  {
    if |p.points| != 3 then Err(NotATriangle)
    else Ok([TexturePoint(p.points[0].uv, OrOne(width), OrOne(height)), TexturePoint(p.points[1].uv, OrOne(width), OrOne(height)), TexturePoint(p.points[2].uv, OrOne(width), OrOne(height))])
  }

  /**
   * Texture coordinates in the unit square land inside the image: between 0 and width - 1
   * and between 0 and height - 1 (0 for a zero width or height).
   */
  lemma TextureTriangleInBounds(p: Polygon, width: nat, height: nat)
    requires |p.points| == 3
    requires forall i | 0 <= i < 3 :: 0.0 <= p.points[i].uv.x <= 1.0 && 0.0 <= p.points[i].uv.y <= 1.0
    ensures var r := ToTextureTriangle(p, width, height);
      r.Ok? && forall i | 0 <= i < 3 ::
        0.0 <= r.value[i].x <= (OrOne(width) - 1) as real && 0.0 <= r.value[i].y <= (OrOne(height) - 1) as real
  {
    var w, h := OrOne(width), OrOne(height);
    TexturePointInBounds(p.points[0].uv, w, h);
    TexturePointInBounds(p.points[1].uv, w, h);
    TexturePointInBounds(p.points[2].uv, w, h);
  }

  lemma TexturePointInBounds(uv: Vec2, w: int, h: int)
    requires 0.0 <= uv.x <= 1.0 && 0.0 <= uv.y <= 1.0 && w >= 1 && h >= 1
    ensures var q := TexturePoint(uv, w, h); 0.0 <= q.x <= (w - 1) as real && 0.0 <= q.y <= (h - 1) as real
  {
    MulNonneg(uv.x, (w - 1) as real);
    MulNonneg(uv.y, (h - 1) as real);
    MulNonneg(1.0 - uv.x, (w - 1) as real);
    MulNonneg(1.0 - uv.y, (h - 1) as real);
  }

  /** The rasterizer's input for a texture triangle: three Vector2 coordinates. */
  function AsCoords(t: seq<Vec2>): (c: seq<Coord>)
    requires |t| == 3
    ensures |c| == 3 && forall i | 0 <= i < 3 :: c[i].Vector2Coord?
  {
    [Vector2Coord(t[0]), Vector2Coord(t[1]), Vector2Coord(t[2])]
  }

  /** The pixels `getColor` samples for one triangle of the fan. */
  function TrianglePixels(t: Polygon): seq<Int2>
    requires |t.points| == 3
  {
    var w, h := OrOne(t.material.width), OrOne(t.material.height);
    VectorPixels(TexturePoint(t.points[0].uv, w, h), TexturePoint(t.points[1].uv, w, h), TexturePoint(t.points[2].uv, w, h))
  }

  /** The pixels of the first n triangles of the fan, in order. */
  function FanPixels(p: Polygon, n: nat): seq<Int2>
    requires n + 2 <= |p.points|
  {
    if n == 0 then [] else FanPixels(p, n - 1) + TrianglePixels(FanTriangle(p, n - 1))
  }

  /** `(y * width + x) * 4`: where the RGBA bytes of a pixel start. */
  function TexelIndex(tex: Texture, pt: Int2): int {
    (pt.y * tex.width + pt.x) * 4
  }

  /** `(r << 16) + (g << 8) + b` of the texel; bytes outside the image read as `undefined`, i.e. 0. */
  function TexelColor(tex: Texture, pt: Int2): int {
    var i := TexelIndex(tex, pt);
    Pack(0, ByteOr0(tex.data, i), ByteOr0(tex.data, i + 1), ByteOr0(tex.data, i + 2))
  }

  /** The accumulator after `add(color)` for each pixel in order. */
  function Sampled(tex: Texture, acc: ColorSum, pts: seq<Int2>): ColorSum {
    if pts == [] then acc else Sampled(tex, acc, pts[..|pts| - 1]).PlusHex(TexelColor(tex, pts[|pts| - 1]), 0)
  }

  /** The sum of one channel (0 red, 1 green, 2 blue) of the texels under the pixels. */
  function ChannelSum(tex: Texture, pts: seq<Int2>, channel: nat): int {
    if pts == [] then 0 else ChannelSum(tex, pts[..|pts| - 1], channel) + ByteOr0(tex.data, TexelIndex(tex, pts[|pts| - 1]) + channel)
  }

  /**
   * Sampling adds one to the weight per pixel and, to each channel, exactly the bytes the
   * pixels read from the texture.
   */
  lemma {:induction false} SampledIs(tex: Texture, acc: ColorSum, pts: seq<Int2>)
    ensures Sampled(tex, acc, pts)
      == ColorSum(acc.weight + |pts|, acc.r + ChannelSum(tex, pts, 0), acc.g + ChannelSum(tex, pts, 1), acc.b + ChannelSum(tex, pts, 2))
  {
    if pts != [] {
      var last := pts[|pts| - 1];
      var i := TexelIndex(tex, last);
      SampledIs(tex, acc, pts[..|pts| - 1]);
      UnpackPack(0, ByteOr0(tex.data, i), ByteOr0(tex.data, i + 1), ByteOr0(tex.data, i + 2));
    }
  }

  /** Sampling a concatenation samples the first part, then the second. */
  lemma {:induction false} SampledAppend(tex: Texture, acc: ColorSum, a: seq<Int2>, b: seq<Int2>)
    ensures Sampled(tex, acc, a + b) == Sampled(tex, Sampled(tex, acc, a), b)
  {
    if b != [] {
      SampledAppend(tex, acc, a, b[..|b| - 1]);
      assert (a + b)[..|a + b| - 1] == a + b[..|b| - 1];
    } else {
      assert a + b == a;
    }
  }

  /**
   * The body of `getColor`'s loop for one triangle: map it into texture space, rasterize
   * it, and add the texel under each pixel.
   */
  method SampleTriangle(result: WeightedColor, t: Polygon)
    requires |t.points| == 3
    modifies result
    ensures result.Snapshot() == Sampled(t.material, old(result.Snapshot()), TrianglePixels(t))
  {
    var triangle := ToTextureTriangle(t, t.material.width, t.material.height).value;
    var pixels := Rasterize(AsCoords(triangle));
    RasterizeVectors(triangle[0], triangle[1], triangle[2]);
    SamplePixels(result, t.material, pixels.value);
  }

  /** The rasterize callback of `getColor`, for each pixel of one triangle in turn. */
  method SamplePixels(result: WeightedColor, tex: Texture, pixels: seq<Int2>)
    modifies result
    ensures result.Snapshot() == Sampled(tex, old(result.Snapshot()), pixels)
  {
    var width, data := tex.width, tex.data;
    for j := 0 to |pixels|
      invariant result.Snapshot() == Sampled(tex, old(result.Snapshot()), pixels[..j])
    {
      var x, y := pixels[j].x, pixels[j].y;
      var index := (y * width + x) * 4;
      var r: int, g: int, b: int := ByteOr0(data, index), ByteOr0(data, index + 1), ByteOr0(data, index + 2);
      var color := r * 0x1_0000 + g * 0x100 + b;
      assert index == TexelIndex(tex, pixels[j]);
      assert color == TexelColor(tex, pixels[j]);
      assert pixels[..j + 1][..j] == pixels[..j];
      result.AddHex(color, 0);
    }
    assert pixels[..|pixels|] == pixels;
  }

  /** One more triangle of the fan: its pixels are sampled after those of the triangles before it. */
  lemma SampleFanStep(p: Polygon, k: nat)
    requires k + 3 <= |p.points|
    ensures Sampled(p.material, Empty, FanPixels(p, k + 1))
         == Sampled(p.material, Sampled(p.material, Empty, FanPixels(p, k)), TrianglePixels(FanTriangle(p, k)))
  {
    SampledAppend(p.material, Empty, FanPixels(p, k), TrianglePixels(FanTriangle(p, k)));
  }

  /**
   * `getColor(polygon)`: a fresh WeightedColor to which every pixel of every fan triangle,
   * rasterized in texture space, has added its texel with weight 1.
   */
  method GetColor(p: Polygon) returns (result: WeightedColor)
    requires p.Valid()
    ensures fresh(result)
    ensures result.Snapshot() == Sampled(p.material, Empty, FanPixels(p, |p.points| - 2))
  {
    result := new WeightedColor();
    var subPolygons := Triangulate(p);
    for k := 0 to |subPolygons|
      invariant result.Snapshot() == Sampled(p.material, Empty, FanPixels(p, k))
    {
      SampleFanStep(p, k);
      SampleTriangle(result, subPolygons[k]);
    }
  }
}
