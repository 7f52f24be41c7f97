/**
 * The unit sieve: a binary space partition of an integer box into unit cubes, built by
 * halving the longest side, and the routing of items down it through a split function.
 */
module Sieves {
  import opened Common
  import opened Geometry
  import opened Vertices
  import opened Polygons
  import opened PolygonExtensions

  datatype Axis = X | Y | Z

  /** `THREE.Box3` with integer corners, as the sieve builds it (`min` floored, `max` ceiled). */
  datatype Box = Box(min: Int3, max: Int3)

  /** A box with real corners, as passed to the `UnitSieve` constructor. */
  datatype RealBox = RealBox(min: Vec3, max: Vec3)

  function Coord(p: Int3, a: Axis): int {
    match a
    case X => p.x
    case Y => p.y
    case Z => p.z
  }

  /** p with its coordinate on axis a replaced by v. */
  function With(p: Int3, a: Axis, v: int): (q: Int3)
    ensures Coord(q, a) == v
    ensures forall b: Axis | b != a :: Coord(q, b) == Coord(p, b)
  {
    match a
    case X => Int3(v, p.y, p.z)
    case Y => Int3(p.x, v, p.z)
    case Z => Int3(p.x, p.y, v)
  }

  /** `box.isEmpty()`: on some axis the maximum lies below the minimum. */
  predicate IsEmpty(b: Box) {
    b.max.x < b.min.x || b.max.y < b.min.y || b.max.z < b.min.z
  }

  /** `box.getSize()`: `max - min` on each axis, and (0, 0, 0) for an empty box. */
  function GetSize(b: Box): (s: Int3)
    ensures 0 <= s.x && 0 <= s.y && 0 <= s.z
  {
    if IsEmpty(b) then Int3(0, 0, 0) else Int3(b.max.x - b.min.x, b.max.y - b.min.y, b.max.z - b.min.z)
  }

  /** `box.getSize()` along one axis. */
  function Extent(b: Box, a: Axis): int {
    Coord(GetSize(b), a)
  }

  /**
   * The size is never negative; it is 0 on every axis of an empty box, and otherwise the
   * distance from the minimum to the maximum.
   */
  lemma ExtentIs(b: Box, a: Axis)
    ensures 0 <= Extent(b, a)
    ensures IsEmpty(b) ==> Extent(b, X) == 0 && Extent(b, Y) == 0 && Extent(b, Z) == 0
    ensures !IsEmpty(b) ==> Extent(b, a) == Coord(b.max, a) - Coord(b.min, a)
  {
  }

  /** `Math.max(size.x, size.y, size.z)`. */
  function MaxExtent(b: Box): (m: int)
    ensures m >= Extent(b, X) && m >= Extent(b, Y) && m >= Extent(b, Z)
    ensures m == Extent(b, X) || m == Extent(b, Y) || m == Extent(b, Z)
  {
    MaxInt(MaxInt(Extent(b, X), Extent(b, Y)), Extent(b, Z))
  }

  /** The axis `buildNode` splits: the first of x, y, z whose extent is the largest. */
  function SplitAxis(b: Box): (a: Axis)
    ensures Extent(b, a) == MaxExtent(b)
    ensures a == Y ==> Extent(b, X) < MaxExtent(b)
    ensures a == Z ==> Extent(b, X) < MaxExtent(b) && Extent(b, Y) < MaxExtent(b)
  {
    if Extent(b, X) == MaxExtent(b) then X
    else if Extent(b, Y) == MaxExtent(b) then Y
    else Z
  }

  /** `box.min[a] + Math.floor(size[a] / 2)`. */
  function Middle(b: Box, a: Axis): int {
    Coord(b.min, a) + Extent(b, a) / 2
  }

  /** The back child's box: the part of b up to m on axis a. */
  function BackBox(b: Box, a: Axis, m: int): Box {
    Box(b.min, With(b.max, a, m))
  }

  /** The front child's box: the part of b from m on axis a. */
  function FrontBox(b: Box, a: Axis, m: int): Box {
    Box(With(b.min, a, m), b.max)
  }

  function UnitNormal(a: Axis): Vec3 {
    match a
    case X => Vec3(1.0, 0.0, 0.0)
    case Y => Vec3(0.0, 1.0, 0.0)
    case Z => Vec3(0.0, 0.0, 1.0)
  }

  /** `new Plane(normal, -m)`: the plane where coordinate a equals m. */
  function AxisPlane(a: Axis, m: int): Plane {
    Plane(UnitNormal(a), -m as real)
  }

  function CoordOf(p: Vec3, a: Axis): real {
    match a
    case X => p.x
    case Y => p.y
    case Z => p.z
  }

  /** The signed distance of a point to an axis plane is its coordinate minus m. */
  lemma AxisPlaneDistance(a: Axis, m: int, p: Vec3)
    ensures Distance(AxisPlane(a, m), p) == CoordOf(p, a) - m as real
  {
  }

  /**
   * The sieve tree. `P` is how a node holds its plane: a value in the specification, a
   * shared cache entry in the built sieve.
   */
  datatype Tree<P> = Leaf(box: Box) | Node(plane: P, back: Tree<P>, front: Tree<P>)

  /** The sum of the positive extents: it drops with every split, so building terminates. */
  function Size(b: Box): nat {
    MaxInt(Extent(b, X), 0) + MaxInt(Extent(b, Y), 0) + MaxInt(Extent(b, Z), 0)
  }

  /**
   * Splitting a box whose largest extent exceeds 1 on its split axis at its middle gives two
   * boxes, each with a strictly smaller but positive extent on that axis and the same
   * extents on the other axes; the back one ends where the front one starts.
   */
  lemma SplitShrinks(b: Box)
    requires MaxExtent(b) > 1
    ensures var a, m := SplitAxis(b), Middle(b, SplitAxis(b));
      var back, front := BackBox(b, a, m), FrontBox(b, a, m);
      0 < Extent(back, a) < Extent(b, a) && 0 < Extent(front, a) < Extent(b, a) &&
      Extent(back, a) + Extent(front, a) == Extent(b, a) &&
      (forall c: Axis | c != a :: Extent(back, c) == Extent(b, c) && Extent(front, c) == Extent(b, c)) &&
      Size(back) < Size(b) && Size(front) < Size(b)
  {
  }

  /** `buildNode(box, getPlane)` with the planes as values. */
  function Build(b: Box): (t: Tree<Plane>)
    ensures t.Leaf? <==> MaxExtent(b) <= 1
    ensures t.Leaf? ==> t.box == b
    ensures IsEmpty(b) ==> t == Leaf(b)
    decreases Size(b)
  {
    if MaxExtent(b) <= 1 then Leaf(b)
    else
      var a := SplitAxis(b);
      var m := Middle(b, a);
      SplitShrinks(b);
      Node(AxisPlane(a, m), Build(BackBox(b, a, m)), Build(FrontBox(b, a, m)))
  }

  /** The leaf boxes from back to front. */
  function Leaves<P>(t: Tree<P>): seq<Box> {
    match t
    case Leaf(b) => [b]
    case Node(_, back, front) => Leaves(back) + Leaves(front)
  }

  /** The unit cube whose minimum corner is c. */
  function Cell(c: Int3): Box {
    Box(c, Int3(c.x + 1, c.y + 1, c.z + 1))
  }

  /** c is the minimum corner of a unit cube inside b. */
  predicate Inside(c: Int3, b: Box) {
    b.min.x <= c.x < b.max.x && b.min.y <= c.y < b.max.y && b.min.z <= c.z < b.max.z
  }

  predicate Solid(b: Box) {
    Extent(b, X) >= 1 && Extent(b, Y) >= 1 && Extent(b, Z) >= 1
  }

  /**
   * The sieve of a box with all extents at least 1 tiles it with unit cubes: every leaf is
   * a unit cube, the leaves are pairwise distinct (so disjoint), and the cube at c is a leaf
   * exactly when c lies inside the box.
   */
  lemma Tiling(b: Box)
    requires Solid(b)
    ensures var leaves := Leaves(Build(b));
      (forall i | 0 <= i < |leaves| :: leaves[i] == Cell(leaves[i].min)) &&
      (forall c :: Inside(c, b) <==> Cell(c) in leaves) &&
      (forall i, j | 0 <= i < j < |leaves| :: leaves[i] != leaves[j])
  {
    LeavesAreCells(b);
    LeavesCover(b);
    LeavesDistinct(b);
  }

  /** Every box of s is a unit cube. */
  predicate AllCells(s: seq<Box>) {
    forall i | 0 <= i < |s| :: s[i] == Cell(s[i].min)
  }

  /** Every leaf of the sieve of a solid box is a unit cube. */
  lemma {:induction false} LeavesAreCells(b: Box)
    requires Solid(b)
    ensures AllCells(Leaves(Build(b)))
    decreases Size(b)
  {
    if MaxExtent(b) <= 1 {
      assert b == Cell(b.min);
    } else {
      var a := SplitAxis(b);
      var m := Middle(b, a);
      SplitShrinks(b);
      var back, front := BackBox(b, a, m), FrontBox(b, a, m);
      LeavesAreCells(back);
      LeavesAreCells(front);
      var lb, lf := Leaves(Build(back)), Leaves(Build(front));
      assert AllCells(lb) && AllCells(lf);
      assert Leaves(Build(b)) == lb + lf;
      assert AllCells(lb + lf);
    }
  }

  /** The unit cube at c is a leaf of the sieve of a solid box exactly when c lies inside the box. */
  lemma {:induction false} LeavesCover(b: Box)
    requires Solid(b)
    ensures forall c :: Inside(c, b) <==> Cell(c) in Leaves(Build(b))
    decreases Size(b)
  {
    if MaxExtent(b) <= 1 {
      assert b == Cell(b.min);
    } else {
      var a := SplitAxis(b);
      var m := Middle(b, a);
      SplitShrinks(b);
      var back, front := BackBox(b, a, m), FrontBox(b, a, m);
      LeavesCover(back);
      LeavesCover(front);
      assert Leaves(Build(b)) == Leaves(Build(back)) + Leaves(Build(front));
      forall c
        ensures Inside(c, b) <==> Inside(c, back) || Inside(c, front)
      {
        SplitInside(c, b, a, m);
      }
    }
  }

  /** No box occurs twice in s. */
  predicate Distinct(s: seq<Box>) {
    forall i, j | 0 <= i < j < |s| :: s[i] != s[j]
  }

  /** Two runs without repeats and without a common box join into a run without repeats. */
  lemma DistinctAppend(s: seq<Box>, t: seq<Box>)
    requires Distinct(s) && Distinct(t)
    requires forall i, j | 0 <= i < |s| && 0 <= j < |t| :: s[i] != t[j]
    ensures Distinct(s + t)
  {
    forall i, j | 0 <= i < j < |s + t|
      ensures (s + t)[i] != (s + t)[j]
    {
      if j < |s| {
        assert (s + t)[i] == s[i] && (s + t)[j] == s[j];
      } else if i < |s| {
        assert (s + t)[i] == s[i] && (s + t)[j] == t[j - |s|];
      } else {
        assert (s + t)[i] == t[i - |s|] && (s + t)[j] == t[j - |s|];
      }
    }
  }

  /** The leaves of the sieve of a solid box are pairwise distinct. */
  lemma {:induction false} LeavesDistinct(b: Box)
    requires Solid(b)
    ensures Distinct(Leaves(Build(b)))
    decreases Size(b)
  {
    if MaxExtent(b) > 1 {
      var a := SplitAxis(b);
      var m := Middle(b, a);
      SplitShrinks(b);
      var back, front := BackBox(b, a, m), FrontBox(b, a, m);
      LeavesDistinct(back);
      LeavesDistinct(front);
      var lb, lf := Leaves(Build(back)), Leaves(Build(front));
      assert Leaves(Build(b)) == lb + lf;
      forall i, j | 0 <= i < |lb| && 0 <= j < |lf|
        ensures lb[i] != lf[j]
      {
        LeafIsInside(back, i);
        LeafIsInside(front, j);
        SplitInside(lb[i].min, b, a, m);
        SplitInside(lf[j].min, b, a, m);
      }
      DistinctAppend(lb, lf);
    }
  }

  /** Leaf i of the sieve of a solid box is the unit cube at its minimum, which lies inside the box. */
  lemma LeafIsInside(b: Box, i: nat)
    requires Solid(b) && i < |Leaves(Build(b))|
    ensures var leaf := Leaves(Build(b))[i]; leaf == Cell(leaf.min) && Inside(leaf.min, b)
  {
    LeavesAreCells(b);
    LeavesCover(b);
    var leaf := Leaves(Build(b))[i];
    assert Cell(leaf.min) in Leaves(Build(b));
  }

  /** A cube inside b lies in the back part or in the front part, as its coordinate is below m or not. */
  lemma SplitInside(c: Int3, b: Box, a: Axis, m: int)
    requires Coord(b.min, a) <= m <= Coord(b.max, a)
    ensures Inside(c, BackBox(b, a, m)) <==> Inside(c, b) && Coord(c, a) < m
    ensures Inside(c, FrontBox(b, a, m)) <==> Inside(c, b) && Coord(c, a) >= m
  {
  }

  /** A plane object of the cache: the plane where coordinate `axis` equals `coordinate`. */
  class SplitPlane {
    const axis: Axis
    const coordinate: int

    constructor (a: Axis, m: int)
      ensures axis == a && coordinate == m
    {
      axis, coordinate := a, m;
    }

    function Value(): Plane {
      AxisPlane(axis, coordinate)
    }
  }

  /** The plane maps `xPlanes`, `yPlanes` and `zPlanes` of `build`, keyed by coordinate. */
  class PlaneCache {
    var xPlanes: map<int, SplitPlane>
    var yPlanes: map<int, SplitPlane>
    var zPlanes: map<int, SplitPlane>

    function Planes(a: Axis): map<int, SplitPlane>
      reads this
    {
      match a
      case X => xPlanes
      case Y => yPlanes
      case Z => zPlanes
    }

    /** Each entry is the plane for its own axis and key. */
    ghost predicate Valid()
      reads this
    {
      forall a: Axis, m | m in Planes(a) :: Planes(a)[m].axis == a && Planes(a)[m].coordinate == m
    }

    constructor ()
      ensures Valid()
      ensures forall a: Axis :: Planes(a) == map[]
    {
      xPlanes, yPlanes, zPlanes := map[], map[], map[];
    }

    /**
     * `lookupAxis(map, normal, m)`: the cached plane for m, created and stored on first use.
     * Nothing already cached changes.
     */
    method LookupAxis(a: Axis, m: int) returns (plane: SplitPlane)
      requires Valid()
      modifies this
      ensures Valid()
      ensures plane.axis == a && plane.coordinate == m
      ensures m in old(Planes(a)) ==> plane == old(Planes(a))[m]
      ensures m !in old(Planes(a)) ==> fresh(plane)
      ensures Planes(a) == old(Planes(a))[m := plane]
      ensures forall b: Axis | b != a :: Planes(b) == old(Planes(b))
      ensures Grows(old(xPlanes), xPlanes) && Grows(old(yPlanes), yPlanes) && Grows(old(zPlanes), zPlanes)
    {
      var planes := Planes(a);
      if m !in planes {
        var created := new SplitPlane(a, m);
        planes := planes[m := created];
        match a
        case X => xPlanes := planes;
        case Y => yPlanes := planes;
        case Z => zPlanes := planes;
      }
      assert Planes(a) == planes;
      assert forall b: Axis | b != a :: Planes(b) == old(Planes(b));
      plane := planes[m];
    }

    /**
     * `lookup(x, y, z)`: the plane for the first of x, y, z that is a number; an error when
     * none is.
     */
    method Lookup(x: Option<int>, y: Option<int>, z: Option<int>) returns (r: Result<SplitPlane>)
      requires Valid()
      modifies this
      ensures Valid()
      ensures x.None? && y.None? && z.None? <==> r.Err?
      ensures r.Err? ==> (r.error == UnexpectedLookup &&
        Planes(X) == old(Planes(X)) && Planes(Y) == old(Planes(Y)) && Planes(Z) == old(Planes(Z)))
      ensures x.Some? ==> (r.Ok? && r.value.axis == X && r.value.coordinate == x.value &&
        Planes(X) == old(Planes(X))[x.value := r.value])
      ensures x.None? && y.Some? ==> (r.Ok? && r.value.axis == Y && r.value.coordinate == y.value &&
        Planes(Y) == old(Planes(Y))[y.value := r.value])
      ensures x.None? && y.None? && z.Some? ==> (r.Ok? && r.value.axis == Z && r.value.coordinate == z.value &&
        Planes(Z) == old(Planes(Z))[z.value := r.value])
      ensures r.Ok? ==> r.value.coordinate in Planes(r.value.axis) && Planes(r.value.axis)[r.value.coordinate] == r.value
      ensures Grows(old(xPlanes), xPlanes) && Grows(old(yPlanes), yPlanes) && Grows(old(zPlanes), zPlanes)
    {
      if x.Some? {
        var plane := LookupAxis(X, x.value);
        return Ok(plane);
      }
      if y.Some? {
        var plane := LookupAxis(Y, y.value);
        return Ok(plane);
      }
      if z.Some? {
        var plane := LookupAxis(Z, z.value);
        return Ok(plane);
      }
      return Err(UnexpectedLookup);
    }
  }

  const UnexpectedLookup := "Unexpected plane lookup!"

  /** The tree with each plane object replaced by the plane it stands for. */
  function Planes(t: Tree<SplitPlane>): Tree<Plane> {
    match t
    case Leaf(b) => Leaf(b)
    case Node(p, back, front) => Node(p.Value(), Planes(back), Planes(front))
  }

  function Pick<V>(a: Axis, x: V, y: V, z: V): V {
    match a
    case X => x
    case Y => y
    case Z => z
  }

  /** Every plane object of t is the entry for its axis and coordinate in the maps x, y, z. */
  ghost predicate CachedIn(t: Tree<SplitPlane>, x: map<int, SplitPlane>, y: map<int, SplitPlane>, z: map<int, SplitPlane>) {
    match t
    case Leaf(_) => true
    case Node(p, back, front) =>
      var planes := Pick(p.axis, x, y, z);
      p.coordinate in planes && planes[p.coordinate] == p
      && CachedIn(back, x, y, z) && CachedIn(front, x, y, z)
  }

  /** The cache only grows: every entry it had is still there. */
  ghost predicate Grows(before: map<int, SplitPlane>, after: map<int, SplitPlane>) {
    forall m | m in before :: m in after && after[m] == before[m]
  }

  lemma {:induction false} CachedInGrows(t: Tree<SplitPlane>, x: map<int, SplitPlane>, y: map<int, SplitPlane>, z: map<int, SplitPlane>,
                                         x': map<int, SplitPlane>, y': map<int, SplitPlane>, z': map<int, SplitPlane>)
    requires CachedIn(t, x, y, z) && Grows(x, x') && Grows(y, y') && Grows(z, z')
    ensures CachedIn(t, x', y', z')
  {
    match t
    case Leaf(_) =>
    case Node(p, back, front) =>
      CachedInGrows(back, x, y, z, x', y', z');
      CachedInGrows(front, x, y, z, x', y', z');
  }

  /** The plane objects of the nodes of t. */
  function PlaneObjects(t: Tree<SplitPlane>): set<SplitPlane> {
    match t
    case Leaf(_) => {}
    case Node(p, back, front) => {p} + PlaneObjects(back) + PlaneObjects(front)
  }

  /** Nodes that split at the same axis and coordinate hold the very same plane object. */
  ghost predicate Shared(t: Tree<SplitPlane>) {
    forall p, q | p in PlaneObjects(t) && q in PlaneObjects(t) ::
      p.axis == q.axis && p.coordinate == q.coordinate ==> p == q
  }

  lemma {:induction false} CachedObjects(t: Tree<SplitPlane>, x: map<int, SplitPlane>, y: map<int, SplitPlane>, z: map<int, SplitPlane>)
    requires CachedIn(t, x, y, z)
    ensures forall p | p in PlaneObjects(t) ::
      p.coordinate in Pick(p.axis, x, y, z) && Pick(p.axis, x, y, z)[p.coordinate] == p
  {
    match t
    case Leaf(_) =>
    case Node(p, back, front) =>
      CachedObjects(back, x, y, z);
      CachedObjects(front, x, y, z);
  }

  /** A tree whose planes all come from one cache shares them. */
  lemma CachedIsShared(t: Tree<SplitPlane>, x: map<int, SplitPlane>, y: map<int, SplitPlane>, z: map<int, SplitPlane>)
    requires CachedIn(t, x, y, z)
    ensures Shared(t)
  {
    CachedObjects(t, x, y, z);
  }

  /**
   * `buildNode(box, getPlane)`: the sieve tree of b, each split plane obtained from the
   * cache, which keeps every entry it had.
   */
  method BuildNode(b: Box, cache: PlaneCache) returns (t: Tree<SplitPlane>)
    requires cache.Valid()
    modifies cache
    ensures cache.Valid()
    ensures Planes(t) == Build(b)
    ensures CachedIn(t, cache.xPlanes, cache.yPlanes, cache.zPlanes)
    ensures Grows(old(cache.xPlanes), cache.xPlanes) && Grows(old(cache.yPlanes), cache.yPlanes)
      && Grows(old(cache.zPlanes), cache.zPlanes)
    decreases Size(b)
  {
    if MaxExtent(b) <= 1 {
      return Leaf(b);
    }
    var a := SplitAxis(b);
    var m := Middle(b, a);
    SplitShrinks(b);
    var r := cache.Lookup(if a == X then Some(m) else None, if a == Y then Some(m) else None,
                          if a == Z then Some(m) else None);
    var plane := r.value;
    ghost var x0, y0, z0 := cache.xPlanes, cache.yPlanes, cache.zPlanes;
    assert CachedIn(Node(plane, Leaf(b), Leaf(b)), x0, y0, z0);
    var back := BuildNode(BackBox(b, a, m), cache);
    ghost var x1, y1, z1 := cache.xPlanes, cache.yPlanes, cache.zPlanes;
    var front := BuildNode(FrontBox(b, a, m), cache);
    CachedInGrows(back, x1, y1, z1, cache.xPlanes, cache.yPlanes, cache.zPlanes);
    CachedInGrows(Node(plane, Leaf(b), Leaf(b)), x0, y0, z0, cache.xPlanes, cache.yPlanes, cache.zPlanes);
    t := Node(plane, back, front);
  }

  /** `build(box)`: a fresh plane cache, then the tree; equal planes are one shared object. */
  method BuildRoot(b: Box) returns (root: Tree<SplitPlane>)
    ensures Planes(root) == Build(b)
    ensures Shared(root)
  {
    var cache := new PlaneCache();
    root := BuildNode(b, cache);
    CachedIsShared(root, cache.xPlanes, cache.yPlanes, cache.zPlanes);
  }

  /** `box.min.floor()` and `box.max.ceil()`: the smallest integer box around the given one. */
  function Snap(b: RealBox): Box {
    Box(Int3(Floor(b.min.x), Floor(b.min.y), Floor(b.min.z)), Int3(Ceil(b.max.x), Ceil(b.max.y), Ceil(b.max.z)))
  }

  /** The sieve; its tree is built once, by the constructor. */
  class UnitSieve {
    const root: Tree<SplitPlane>

    /** `new UnitSieve(box)`: the sieve of the box with its corners floored and ceiled. */
    constructor (boxArg: RealBox)
      ensures Planes(root) == Build(Snap(boxArg))
      ensures Shared(root)
    {
      var tree := BuildRoot(Snap(boxArg));
      root := tree;
    }

    /** `sieveWith(item, callback, split)`: the deliveries of the root. */
    function SieveWith<T>(item: T, split: (T, Plane) -> seq<(T, bool)>): seq<Delivery<T>> {
      Route(Planes(root), item, split)
    }
  }

  /** The object `Leaf.add` passes to the callback. */
  datatype Delivery<T> = Delivery(item: T, box: Box)

  /**
   * `node.add(item, callback, split)`: the deliveries, in callback order, of the item and
   * of whatever `split` makes of it on the way down.
   */
  function Route<T>(t: Tree<Plane>, item: T, split: (T, Plane) -> seq<(T, bool)>): seq<Delivery<T>>
    decreases t, 1
  {
    match t
    case Leaf(b) => [Delivery(item, b)]
    case Node(plane, _, _) => Forward(t, split(item, plane), split)
  }

  /** The callback of `Node.add`: each part goes to the front child if `isFront`, else to the back one. */
  function Forward<T>(t: Tree<Plane>, parts: seq<(T, bool)>, split: (T, Plane) -> seq<(T, bool)>): seq<Delivery<T>>
    requires t.Node?
    decreases t, 0, |parts|
  {
    if parts == [] then []
    else Route(if parts[0].1 then t.front else t.back, parts[0].0, split) + Forward(t, parts[1..], split)
  }

  /** Every delivery of t carries one of t's leaf boxes. */
  lemma {:induction false} RouteBoxes<T>(t: Tree<Plane>, item: T, split: (T, Plane) -> seq<(T, bool)>)
    ensures forall d | d in Route(t, item, split) :: d.box in Leaves(t)
    decreases t, 1
  {
    match t
    case Leaf(b) =>
    case Node(plane, _, _) => ForwardBoxes(t, split(item, plane), split);
  }

  lemma {:induction false} ForwardBoxes<T>(t: Tree<Plane>, parts: seq<(T, bool)>, split: (T, Plane) -> seq<(T, bool)>)
    requires t.Node?
    ensures forall d | d in Forward(t, parts, split) :: d.box in Leaves(t)
    decreases t, 0, |parts|
  {
    if parts != [] {
      RouteBoxes(if parts[0].1 then t.front else t.back, parts[0].0, split);
      ForwardBoxes(t, parts[1..], split);
    }
  }

  /**
   * A delivery that reaches a back leaf of a node came from a part split reported with
   * isFront false, and one that reaches a front leaf from a part with isFront true (the
   * leaves of the two sides being distinct).
   */
  lemma {:induction false} ForwardSides<T>(t: Tree<Plane>, parts: seq<(T, bool)>, split: (T, Plane) -> seq<(T, bool)>)
    requires t.Node?
    requires forall i, j | 0 <= i < |Leaves(t.back)| && 0 <= j < |Leaves(t.front)| :: Leaves(t.back)[i] != Leaves(t.front)[j]
    ensures forall d | d in Forward(t, parts, split) && d.box in Leaves(t.back) ::
      exists i | 0 <= i < |parts| :: !parts[i].1 && d in Route(t.back, parts[i].0, split)
    ensures forall d | d in Forward(t, parts, split) && d.box in Leaves(t.front) ::
      exists i | 0 <= i < |parts| :: parts[i].1 && d in Route(t.front, parts[i].0, split)
    decreases |parts|
  {
    if parts != [] {
      var child := if parts[0].1 then t.front else t.back;
      RouteBoxes(child, parts[0].0, split);
      ForwardSides(t, parts[1..], split);
      forall d | d in Forward(t, parts, split)
        ensures d.box in Leaves(t.back) ==> exists i | 0 <= i < |parts| :: !parts[i].1 && d in Route(t.back, parts[i].0, split)
        ensures d.box in Leaves(t.front) ==> exists i | 0 <= i < |parts| :: parts[i].1 && d in Route(t.front, parts[i].0, split)
      {
        if d in Route(child, parts[0].0, split) {
        } else {
          assert d in Forward(t, parts[1..], split);
          if d.box in Leaves(t.back) {
            var i :| 0 <= i < |parts[1..]| && !parts[1..][i].1 && d in Route(t.back, parts[1..][i].0, split);
            assert parts[i + 1] == parts[1..][i];
          }
          if d.box in Leaves(t.front) {
            var i :| 0 <= i < |parts[1..]| && parts[1..][i].1 && d in Route(t.front, parts[1..][i].0, split);
            assert parts[i + 1] == parts[1..][i];
          }
        }
      }
    }
  }

  /** `PolygonExtensions.split` as the sieve's split function (polygons always have three points or more). */
  function SplitPolygon(p: Polygon, plane: Plane): seq<(Polygon, bool)> {
    if p.Valid() then SplitSpec(p, plane) else []
  }

  /** The 2 by 2 by 1 sieve splits at x = 1 and then, on the back side, at y = 1. */
  lemma TwoByTwoTree(whole: Box)
    requires whole == Box(Int3(0, 0, 0), Int3(2, 2, 1))
    ensures Build(whole) == Node(AxisPlane(X, 1),
      Node(AxisPlane(Y, 1), Leaf(Box(Int3(0, 0, 0), Int3(1, 1, 1))), Leaf(Box(Int3(0, 1, 0), Int3(1, 2, 1)))),
      Node(AxisPlane(Y, 1), Leaf(Box(Int3(1, 0, 0), Int3(2, 1, 1))), Leaf(Box(Int3(1, 1, 0), Int3(2, 2, 1)))))
  {
    assert GetSize(whole) == Int3(2, 2, 1);
    assert MaxExtent(whole) == 2;
    assert SplitAxis(whole) == X;
    assert Middle(whole, X) == 1;
    assert BackBox(whole, X, 1) == Box(Int3(0, 0, 0), Int3(1, 2, 1));
    assert FrontBox(whole, X, 1) == Box(Int3(1, 0, 0), Int3(2, 2, 1));
    Column(0);
    Column(1);
  }

  /** A box whose x maximum lies below its x minimum has size (0, 0, 0), so it is a single leaf. */
  lemma InvertedBoxIsLeaf()
    ensures Build(Box(Int3(3, 0, 0), Int3(0, 4, 1))) == Leaf(Box(Int3(3, 0, 0), Int3(0, 4, 1)))
    ensures GetSize(Box(Int3(3, 0, 0), Int3(0, 4, 1))) == Int3(0, 0, 0)
  {
  }

  /** A column one cell wide and two cells deep splits at y = 1 into two unit cubes. */
  lemma Column(x: int)
    ensures Build(Box(Int3(x, 0, 0), Int3(x + 1, 2, 1)))
      == Node(AxisPlane(Y, 1), Leaf(Box(Int3(x, 0, 0), Int3(x + 1, 1, 1))), Leaf(Box(Int3(x, 1, 0), Int3(x + 1, 2, 1))))
  {
    var column := Box(Int3(x, 0, 0), Int3(x + 1, 2, 1));
    assert GetSize(column) == Int3(1, 2, 1);
    assert MaxExtent(column) == 2;
    assert SplitAxis(column) == Y;
    assert Middle(column, Y) == 1;
    assert BackBox(column, Y, 1) == Box(Int3(x, 0, 0), Int3(x + 1, 1, 1));
    assert FrontBox(column, Y, 1) == Box(Int3(x, 1, 0), Int3(x + 1, 2, 1));
  }

  /** Every leaf of the sieve of a solid box lies inside it. */
  lemma LeavesInside(b: Box, d: Box)
    requires Solid(b) && d in Leaves(Build(b))
    ensures Inside(d.min, b)
  {
    Tiling(b);
    var leaves := Leaves(Build(b));
    var i :| 0 <= i < |leaves| && leaves[i] == d;
    assert Cell(d.min) in leaves;
  }

  /** The corners of a fixture triangle lying on and below the diagonal y = x of the plane z = 0. */
  const CornerA := Vertex(Vec3(0.0, 0.0, 0.0), Vec2(0.0, 0.0))
  const CornerB := Vertex(Vec3(2.0, 0.0, 0.0), Vec2(1.0, 0.0))
  const CornerC := Vertex(Vec3(2.0, 2.0, 0.0), Vec2(1.0, 1.0))

  /** Against x = 1 the first corner is behind and the other two are in front. */
  lemma CornersAgainstX()
    ensures TypesOf(AxisPlane(X, 1), [CornerA, CornerB, CornerC]) == [Back, Front, Front]
  {
    var px := AxisPlane(X, 1);
    TypesOfThree(px, CornerA, CornerB, CornerC);
    assert px.normal == Vec3(1.0, 0.0, 0.0) && px.constant == -1.0;
    assert TypeOf(px, CornerA) == Back;
    assert TypeOf(px, CornerB) == Front;
    assert TypeOf(px, CornerC) == Front;
  }

  /** The classes of three points. */
  lemma TypesOfThree(plane: Plane, a: Vertex, b: Vertex, c: Vertex)
    ensures TypesOf(plane, [a, b, c]) == [TypeOf(plane, a), TypeOf(plane, b), TypeOf(plane, c)]
  {
  }

  /** The back fragment of a Back, Front, Front triangle: the first point and the two cuts. */
  lemma BackPieces()
    ensures var types := [Back, Front, Front];
      ValidTypes(types) && Has(types, Front) && Has(types, Back)
      && SpanningEdge(types, 0) && SpanningEdge(types, 2)
      && Pieces(types, Back, 3) == [Original(0), Seam(0), Seam(2)]
  {
    var types := [Back, Front, Front];
    assert types[0] == Back && types[1] == Front;
    assert Next(0, 3) == 1 && Next(1, 3) == 2 && Next(2, 3) == 0;
    SpanningEdgeIs(types, 0);
    SpanningEdgeIs(types, 1);
    SpanningEdgeIs(types, 2);
    assert Pieces(types, Back, 1) == [Original(0), Seam(0)];
    assert Pieces(types, Back, 2) == [Original(0), Seam(0)];
  }

  /** The cut of an edge between x = 0 and x = 2 by x = 1 lies at the edge's mid height. */
  lemma HalfwayCut(cur: Vertex, next: Vertex)
    requires (cur.position.x == 0.0 && next.position.x == 2.0) || (cur.position.x == 2.0 && next.position.x == 0.0)
    ensures EdgeDot(AxisPlane(X, 1), cur, next) != 0.0
    ensures cur.Lerp(next, Part(AxisPlane(X, 1), cur, next)).position.y
      == (cur.position.y + next.position.y) / 2.0
  {
    var px := AxisPlane(X, 1);
    if cur.position.x == 0.0 {
      assert EdgeDot(px, cur, next) == 2.0;
    } else {
      assert EdgeDot(px, cur, next) == -2.0;
    }
    assert Part(px, cur, next) == 0.5;
  }

  /** A triangle with one point behind the plane and two in front splits into two fragments. */
  lemma SplitOneBehind(p: Polygon, plane: Plane)
    requires |p.points| == 3 && TypesOf(plane, p.points) == [Back, Front, Front]
    ensures var parts := SplitPolygon(p, plane);
      |parts| == 2 && parts[0].1 && !parts[1].1 && parts[1].0.points == FragmentPoints(p, plane, Back)
  {
    BackPieces();
  }

  /** The back fragment of such a triangle: its first point, then the cuts of its first and last edges. */
  lemma FragmentOneBehind(p: Polygon, plane: Plane)
    requires |p.points| == 3 && TypesOf(plane, p.points) == [Back, Front, Front]
    ensures var types, f := TypesOf(plane, p.points), FragmentPoints(p, plane, Back);
      ValidTypes(types) && SpanningEdge(types, 0) && SpanningEdge(types, 2) &&
      |f| == 3 && f[0] == p.points[0] && f[1] == SeamVertex(p, plane, 0) && f[2] == SeamVertex(p, plane, 2)
  {
    BackPieces();
    var f := FragmentPoints(p, plane, Back);
    assert f[1] == Resolve(p, plane, Seam(0));
    assert f[2] == Resolve(p, plane, Seam(2));
  }

  /** The cut of the fixture triangle's first edge, from A to B, by x = 1 is at height 0. */
  lemma FirstCut(tex: Texture)
    ensures var triangle, px := Polygon(tex, [CornerA, CornerB, CornerC]), AxisPlane(X, 1);
      var types := TypesOf(px, triangle.points);
      ValidTypes(types) && SpanningEdge(types, 0) && SeamVertex(triangle, px, 0).position.y == 0.0
  {
    CornersAgainstX();
    BackPieces();
    assert Next(0, 3) == 1;
    HalfwayCut(CornerA, CornerB);
  }

  /** The cut of the fixture triangle's last edge, from C to A, by x = 1 is at height 1. */
  lemma LastCut(tex: Texture)
    ensures var triangle, px := Polygon(tex, [CornerA, CornerB, CornerC]), AxisPlane(X, 1);
      var types := TypesOf(px, triangle.points);
      ValidTypes(types) && SpanningEdge(types, 2) && SeamVertex(triangle, px, 2).position.y == 1.0
  {
    CornersAgainstX();
    BackPieces();
    assert Next(2, 3) == 0;
    HalfwayCut(CornerC, CornerA);
  }

  /** The triangle's back fragment against x = 1: A, the cut of A-B and the cut of C-A. */
  lemma CutAtX(tex: Texture)
    ensures var parts := SplitPolygon(Polygon(tex, [CornerA, CornerB, CornerC]), AxisPlane(X, 1));
      |parts| == 2 && parts[0].1 && !parts[1].1 && |parts[1].0.points| == 3 &&
      parts[1].0.points[0].position.y == 0.0 && parts[1].0.points[1].position.y == 0.0 &&
      parts[1].0.points[2].position.y == 1.0
  {
    var triangle, px := Polygon(tex, [CornerA, CornerB, CornerC]), AxisPlane(X, 1);
    CornersAgainstX();
    SplitOneBehind(triangle, px);
    FragmentOneBehind(triangle, px);
    FirstCut(tex);
    LastCut(tex);
  }

  /** A triangle with its points at heights 0, 0 and 1 lies behind or on y = 1: it goes back whole. */
  lemma BehindY(q: Polygon)
    requires |q.points| == 3
    requires q.points[0].position.y == 0.0 && q.points[1].position.y == 0.0 && q.points[2].position.y == 1.0
    ensures SplitPolygon(q, AxisPlane(Y, 1)) == [(q, false)]
  {
    var types := TypesOf(AxisPlane(Y, 1), q.points);
    assert types == [Back, Back, Coplanar];
    assert !Has(types, Front) && Has(types, Back);
  }

  /** Two parts, the first in front and the second behind, as a list. */
  lemma FrontThenBack<T>(parts: seq<(T, bool)>)
    requires |parts| == 2 && parts[0].1 && !parts[1].1
    ensures parts == [(parts[0].0, true), (parts[1].0, false)]
  {
  }

  /** A node whose plane splits the item into a front part and a back part routes each to its side. */
  lemma RouteFrontBack<T>(t: Tree<Plane>, item: T, split: (T, Plane) -> seq<(T, bool)>, front: T, back: T)
    requires t.Node? && split(item, t.plane) == [(front, true), (back, false)]
    ensures Route(t, item, split) == Route(t.front, front, split) + Route(t.back, back, split)
  {
    var parts := split(item, t.plane);
    assert parts[1..] == [(back, false)] && parts[1..][1..] == [];
    assert Forward(t, parts[1..], split) == Route(t.back, back, split) + Forward(t, [], split);
    assert Forward(t, parts, split) == Route(t.front, front, split) + Forward(t, parts[1..], split);
  }

  /** A node that passes the item whole to its back side, where a leaf is, delivers it there. */
  lemma RouteBehind<T>(t: Tree<Plane>, item: T, split: (T, Plane) -> seq<(T, bool)>)
    requires t.Node? && t.back.Leaf? && split(item, t.plane) == [(item, false)]
    ensures Route(t, item, split) == [Delivery(item, t.back.box)]
  {
    var parts := split(item, t.plane);
    assert parts[1..] == [];
    assert Forward(t, parts, split) == Route(t.back, item, split) + Forward(t, [], split);
  }

  /**
   * A node that splits the item into a front and a back part, over a back node that passes the
   * back part whole to its back leaf: every delivery comes from the front side or is that one.
   */
  lemma RouteFrontBackLeaf<T>(t: Tree<Plane>, item: T, split: (T, Plane) -> seq<(T, bool)>, front: T, back: T)
    requires t.Node? && t.back.Node? && t.back.back.Leaf?
    requires split(item, t.plane) == [(front, true), (back, false)]
    requires split(back, t.back.plane) == [(back, false)]
    ensures forall d | d in Route(t, item, split) :: d in Route(t.front, front, split) || d == Delivery(back, t.back.back.box)
  {
    RouteFrontBack(t, item, split, front, back);
    RouteBehind(t.back, back, split);
  }

  /**
   * In such a tree whose front side is a node over two leaves, a cell that is none of those
   * two leaves' and not the back leaf's receives nothing.
   */
  lemma MissesCell<T>(t: Tree<Plane>, item: T, split: (T, Plane) -> seq<(T, bool)>, front: T, back: T, cell: Int3)
    requires t.Node? && t.back.Node? && t.back.back.Leaf? && t.back.back.box.min != cell
    requires t.front.Node? && t.front.back.Leaf? && t.front.front.Leaf?
    requires t.front.back.box.min != cell && t.front.front.box.min != cell
    requires split(item, t.plane) == [(front, true), (back, false)]
    requires split(back, t.back.plane) == [(back, false)]
    ensures forall d | d in Route(t, item, split) :: d.box.min != cell
  {
    RouteFrontBackLeaf(t, item, split, front, back);
    RouteBoxes(t.front, front, split);
    TwoLeaves(t.front.plane, t.front.back.box, t.front.front.box);
  }

  /** The leaves of a node over two leaves. */
  lemma TwoLeaves<P>(plane: P, b0: Box, b1: Box)
    ensures Leaves(Node(plane, Leaf(b0), Leaf(b1))) == [b0, b1]
  {
  }

  /** The fixture triangle splits at x = 1 into a front part and a back part that y = 1 passes back whole. */
  lemma FixtureParts(tex: Texture)
    ensures var parts := SplitPolygon(Polygon(tex, [CornerA, CornerB, CornerC]), AxisPlane(X, 1));
      parts == [(parts[0].0, true), (parts[1].0, false)]
      && SplitPolygon(parts[1].0, AxisPlane(Y, 1)) == [(parts[1].0, false)]
  {
    var parts := SplitPolygon(Polygon(tex, [CornerA, CornerB, CornerC]), AxisPlane(X, 1));
    CutAtX(tex);
    FrontThenBack(parts);
    BehindY(parts[1].0);
  }

  /** Routing the fixture triangle through the tree of the 2 by 2 by 1 box, written out. */
  lemma FixtureRoute(tex: Texture, tree: Tree<Plane>)
    requires tree == Node(AxisPlane(X, 1),
      Node(AxisPlane(Y, 1), Leaf(Box(Int3(0, 0, 0), Int3(1, 1, 1))), Leaf(Box(Int3(0, 1, 0), Int3(1, 2, 1)))),
      Node(AxisPlane(Y, 1), Leaf(Box(Int3(1, 0, 0), Int3(2, 1, 1))), Leaf(Box(Int3(1, 1, 0), Int3(2, 2, 1)))))
    ensures forall d | d in Route(tree, Polygon(tex, [CornerA, CornerB, CornerC]), SplitPolygon)
      :: d.box.min != Int3(0, 1, 0)
  {
    var triangle := Polygon(tex, [CornerA, CornerB, CornerC]);
    var parts := SplitPolygon(triangle, AxisPlane(X, 1));
    FixtureParts(tex);
    MissesCell(tree, triangle, SplitPolygon, parts[0].0, parts[1].0, Int3(0, 1, 0));
  }

  /**
   * A 2 by 2 by 1 sieve and the triangle with corners CornerA, CornerB and CornerC, which lies on and
   * below the diagonal y = x: the unit cube at (0,1,0), above the diagonal, receives nothing.
   */
  lemma TwoByTwoSieve(tex: Texture, whole: Box)
    requires whole == Box(Int3(0, 0, 0), Int3(2, 2, 1))
    ensures forall d | d in Route(Build(whole), Polygon(tex, [CornerA, CornerB, CornerC]), SplitPolygon)
      :: d.box.min != Int3(0, 1, 0)
  {
    TwoByTwoTree(whole);
    FixtureRoute(tex, Build(whole));
  }
}
