/** A vertex of a mesh face: a 3-D position and a texture coordinate. */
module Vertices {
  import opened Common
  import opened Geometry

  /** Vertices are values here: `clone` gives an equal vertex and nothing is shared. */
  datatype Vertex = Vertex(position: Vec3, uv: Vec2)
  {
    /**
     * `lerp(other, t)`: the vertex a fraction t of the way towards `other`, in space and
     * in texture coordinates; neither input changes.
     */
    function Lerp(other: Vertex, t: real): (v: Vertex)
      ensures t == 0.0 ==> v == this
      ensures t == 1.0 ==> v == other
      ensures Sub(v.position, position) == Scale(Sub(other.position, position), t)
      ensures Sub2(v.uv, uv) == Scale2(Sub2(other.uv, uv), t)
    {
      LerpCoordinate(position.x, other.position.x, t);
      LerpCoordinate(position.y, other.position.y, t);
      LerpCoordinate(position.z, other.position.z, t);
      LerpCoordinate(uv.x, other.uv.x, t);
      LerpCoordinate(uv.y, other.uv.y, t);
      Vertex(Lerp3(position, other.position, t), Lerp2(uv, other.uv, t))
    }
  }

  /** For 0 <= t <= 1 every coordinate of `u.lerp(w, t)` lies between those of u and w. */
  lemma LerpInRange(u: Vertex, w: Vertex, t: real)
    requires 0.0 <= t <= 1.0
    ensures var v := u.Lerp(w, t);
      Between(v.position.x, u.position.x, w.position.x) &&
      Between(v.position.y, u.position.y, w.position.y) &&
      Between(v.position.z, u.position.z, w.position.z) &&
      Between(v.uv.x, u.uv.x, w.uv.x) && Between(v.uv.y, u.uv.y, w.uv.y)
  {
    Lerp3InRange(u.position, w.position, t);
    Lerp2InRange(u.uv, w.uv, t);
  }

  lemma Lerp3InRange(p: Vec3, q: Vec3, t: real)
    requires 0.0 <= t <= 1.0
    ensures var r := Lerp3(p, q, t); Between(r.x, p.x, q.x) && Between(r.y, p.y, q.y) && Between(r.z, p.z, q.z)
  {
    LerpCoordinate(p.x, q.x, t);
    LerpCoordinate(p.y, q.y, t);
    LerpCoordinate(p.z, q.z, t);
  }

  lemma Lerp2InRange(p: Vec2, q: Vec2, t: real)
    requires 0.0 <= t <= 1.0
    ensures var r := Lerp2(p, q, t); Between(r.x, p.x, q.x) && Between(r.y, p.y, q.y)
  {
    LerpCoordinate(p.x, q.x, t);
    LerpCoordinate(p.y, q.y, t);
  }

  /** One coordinate of a linear interpolation: its offset, its two ends, and its range. */
  lemma LerpCoordinate(a: real, b: real, t: real)
    ensures (a + (b - a) * t) - a == (b - a) * t
    ensures t == 0.0 ==> a + (b - a) * t == a
    ensures t == 1.0 ==> a + (b - a) * t == b
    ensures 0.0 <= t <= 1.0 ==> Between(a + (b - a) * t, a, b)
  {
    if t < 0.0 || t > 1.0 {
    } else if a <= b {
      MulNonneg(b - a, t);
      MulNonneg(b - a, 1.0 - t);
      assert (b - a) * (1.0 - t) == (b - a) - (b - a) * t;
    } else {
      MulNonneg(a - b, t);
      MulNonneg(a - b, 1.0 - t);
      assert (a - b) * (1.0 - t) == (a - b) - (a - b) * t;
      assert (b - a) * t == -((a - b) * t);
    }
  }

  /** A constructor argument: a THREE vector, stored as given, or an array of numbers. */
  datatype Arg3 = Vector3Arg(v3: Vec3) | Array3Arg(items3: seq<real>)

  datatype Arg2 = Vector2Arg(v2: Vec2) | Array2Arg(items2: seq<real>)

  /** `new Vertex(positionArg, uvArg)`: arrays become vectors of their leading entries. */
  function NewVertex(position: Arg3, uv: Arg2): (v: Vertex)
    requires position.Array3Arg? ==> |position.items3| >= 3
    requires uv.Array2Arg? ==> |uv.items2| >= 2
    ensures position.Vector3Arg? ==> v.position == position.v3
    ensures position.Array3Arg? ==>
      [v.position.x, v.position.y, v.position.z] == position.items3[..3]
    ensures uv.Vector2Arg? ==> v.uv == uv.v2
    ensures uv.Array2Arg? ==> [v.uv.x, v.uv.y] == uv.items2[..2]
  {
    var p := match position
      case Vector3Arg(v) => v
      case Array3Arg(a) => Vec3(a[0], a[1], a[2]);
    var u := match uv
      case Vector2Arg(v) => v
      case Array2Arg(a) => Vec2(a[0], a[1]);
    Vertex(p, u)
  }
}
