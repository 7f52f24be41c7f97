/** A convex polygon of the slicer: a material and at least three vertices. */
module Polygons {
  import opened Common
  import opened Geometry
  import opened Vertices

  /** What the slicer reads from a material: `toImageData()`'s width, height and RGBA bytes. */
  datatype Texture = Texture(width: int, height: int, data: seq<byte>)

  datatype Polygon = Polygon(material: Texture, points: seq<Vertex>)
  {
    /** What the constructor establishes. */
    predicate Valid() { |points| >= 3 }

    /**
     * The direction of the plane through the first three points, as
     * `Plane.setFromCoplanarPoints(p0, p1, p2)` computes it before normalising:
     * `(p2 - p1) x (p0 - p1)`. Only the sign of its dot product is ever used.
     */
    function Normal(): Vec3
      requires Valid()
    {
      Cross(Sub(points[2].position, points[1].position), Sub(points[0].position, points[1].position))
    }
  }

  const TooFewPoints := "You need at least three vertices to form a polygon!"
  const NotAllVertices := "All points must be of type \"Vertex\"!"

  /** An element of the `points` argument: a Vertex or any other value. */
  datatype PointArg = VertexArg(v: Vertex) | NotAVertex

  /** `new Polygon(material, points)`: the length check comes before the type check. */
  function NewPolygon(material: Texture, points: seq<PointArg>): (r: Result<Polygon>)
    ensures |points| < 3 ==> r == Err(TooFewPoints)
    ensures |points| >= 3 && (exists i | 0 <= i < |points| :: points[i].NotAVertex?) ==> r == Err(NotAllVertices)
    ensures r.Ok? <==> |points| >= 3 && forall i | 0 <= i < |points| :: points[i].VertexArg?
    ensures r.Ok? ==> r.value.Valid() && r.value.material == material && |r.value.points| == |points|
    ensures r.Ok? ==> forall i | 0 <= i < |points| :: r.value.points[i] == points[i].v
  {
    if |points| < 3 then Err(TooFewPoints)
    else if exists i | 0 <= i < |points| :: points[i].NotAVertex? then Err(NotAllVertices)
    else Ok(Polygon(material, seq(|points|, i requires 0 <= i < |points| => points[i].v)))
  }

  /** The k-th triangle of the fan around the first point. */
  function FanTriangle(p: Polygon, k: nat): Polygon
    requires k + 2 < |p.points|
  {
    Polygon(p.material, [p.points[0], p.points[k + 1], p.points[k + 2]])
  }

  /**
   * `triangulate()`: the fan of n - 2 triangles around the first point, each with the
   * polygon's material and its original vertices; the polygon itself is a value and
   * does not change.
   */
  method Triangulate(p: Polygon) returns (result: seq<Polygon>)
    requires p.Valid()
    ensures |result| == |p.points| - 2
    ensures forall k | 0 <= k < |result| :: result[k] == FanTriangle(p, k)
    ensures forall k | 0 <= k < |result| :: result[k].Valid() && |result[k].points| == 3
  {
    result := [];
    var first := p.points[0];
    var a := p.points[1];
    var b := p.points[2];
    var index := 3;
    while true
      invariant 3 <= index <= |p.points|
      invariant a == p.points[index - 2] && b == p.points[index - 1]
      invariant |result| == index - 3
      invariant forall k | 0 <= k < |result| :: result[k] == FanTriangle(p, k)
      decreases |p.points| - index
    {
      result := result + [Polygon(p.material, [first, a, b])];
      if index >= |p.points| {
        break;
      }
      a := b;
      b := p.points[index];
      index := index + 1;
    }
  }
}
