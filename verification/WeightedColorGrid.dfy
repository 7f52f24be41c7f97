/**
 * The slicer's grid of weighted colours: one cell per unit voxel of the integer box
 * around a model, stored in a flat array through an index formula. Colours are
 * accumulated per cell, a flood fill from a seed removes the empty space connected to
 * it, and the remaining cells are visited in index order.
 */
module ColorGrids {
  import opened Common
  import opened Geometry
  import opened WeightedColors
  import Sieves

  /** A cell: the colour accumulated so far, or null once the flood fill removed it. */
  datatype Cell = Null | Color(sum: ColorSum)

  /** What `add` is given: a hex number (added with the default weight) or a WeightedColor. */
  datatype Addend = HexColor(color: int) | Weighted(c: ColorSum)

  function AsSample(a: Addend): Sample {
    match a
    case HexColor(color) => OfHex(color, 0)
    case Weighted(c) => OfColor(c)
  }

  /** The colour an `add` starts from: a null cell is replaced by a fresh WeightedColor. */
  function Base(c: Cell): ColorSum {
    if c.Null? then Empty else c.sum
  }

  /** A cell the flood fill removes and passes through: present, with a weight that is not positive. */
  predicate Blank(c: Cell) {
    c.Color? && c.sum.weight <= 0
  }

  const NotIntegers := "Coordinates must be integers!"
  const OutOfBounds := "Coordinates are out of bounds!"

  /** The six unit steps of the flood fill, in the order it pushes them. */
  const Directions: seq<Int3> :=
    [Int3(1, 0, 0), Int3(0, 1, 0), Int3(0, 0, 1), Int3(-1, 0, 0), Int3(0, -1, 0), Int3(0, 0, -1)]

  function Plus(p: Int3, q: Int3): Int3 {
    Int3(p.x + q.x, p.y + q.y, p.z + q.z)
  }

  function Minus(p: Int3, q: Int3): Int3 {
    Int3(p.x - q.x, p.y - q.y, p.z - q.z)
  }

  function AsVec(c: Int3): Vec3 {
    Vec3(c.x as real, c.y as real, c.z as real)
  }

  /** `q` is one of the six face neighbours of `p`. */
  predicate Adjacent(p: Int3, q: Int3) {
    Minus(q, p) in Directions
  }

  lemma StepIsAdjacent(p: Int3, k: nat)
    requires k < 6
    ensures Adjacent(p, Plus(p, Directions[k]))
  {
    assert Minus(Plus(p, Directions[k]), p) == Directions[k];
  }

  /** Every neighbour is reached by one of the six steps. */
  lemma AdjacentIsStep(p: Int3, q: Int3) returns (k: nat)
    requires Adjacent(p, q)
    ensures k < 6 && q == Plus(p, Directions[k])
  {
    k :| k < 6 && Directions[k] == Minus(q, p);
  }

  /**
   * The index formula is one-to-one on the box: offsets `dx < sx`, `dy < sy`, `dz < sz`
   * give an index below `sx * sy * sz` from which the offsets are read back.
   */
  lemma EncodeIndex(dx: int, dy: int, dz: int, sx: int, sy: int, sz: int)
    requires 0 <= dx < sx && 0 <= dy < sy && 0 <= dz < sz
    ensures var i := dx + dy * (sx * sz) + dz * sx;
      0 <= i < sx * sy * sz && i / (sx * sz) == dy && i % (sx * sz) == dx + dz * sx
    ensures (dx + dz * sx) / sx == dz && (dx + dz * sx) % sx == dx
  {
    var layer := sx * sz;
    var r := dx + dz * sx;
    assert dz * sx <= (sz - 1) * sx by { MulMono(dz, sz - 1, sx); }
    assert 0 <= r < layer;
    DivModUnique(r, sx, dz, dx);
    var i := dx + dy * layer + dz * sx;
    assert i == dy * layer + r;
    DivModUnique(i, layer, dy, r);
    assert dy * layer <= (sy - 1) * layer by { MulMono(dy, sy - 1, layer); }
    assert sx * sy * sz == sy * layer;
  }

  lemma MulMono(a: int, b: int, c: int)
    requires a <= b && 0 <= c
    ensures a * c <= b * c
  {
    assert b * c - a * c == (b - a) * c;
  }

  /** Every index below `sx * sy * sz` is the index of offsets inside the box. */
  lemma DecodeIndex(i: int, sx: int, sy: int, sz: int)
    requires 0 <= sx && 0 <= sy && 0 <= sz && 0 <= i < sx * sy * sz
    ensures 0 < sx && 0 < sy && 0 < sz
    ensures var r := i % (sx * sz);
      0 <= r % sx < sx && 0 <= i / (sx * sz) < sy && 0 <= r / sx < sz
      && r % sx + (i / (sx * sz)) * (sx * sz) + (r / sx) * sx == i
  {
    assert sx * sy * sz == sy * (sx * sz);
    PositiveFactors(sy, sx * sz);
    PositiveFactors(sx, sz);
    QuotientBelow(i, sx * sz, sy);
    QuotientBelow(i % (sx * sz), sx, sz);
  }

  lemma PositiveFactors(a: int, b: int)
    requires 0 <= a && 0 <= b && 0 < a * b
    ensures 0 < a && 0 < b
  {
  }

  /** `i / d < n` for `0 <= i < n * d`. */
  lemma QuotientBelow(i: int, d: int, n: int)
    requires 0 < d && 0 <= i < n * d
    ensures 0 <= i / d < n && i == (i / d) * d + i % d
  {
    var q := i / d;
    if q >= n {
      MulMono(n, q, d);
    }
  }

  lemma ProductNonneg(a: int, b: int, c: int)
    requires 0 <= a && 0 <= b && 0 <= c
    ensures 0 <= a * b * c
  {
  }

  /** The `WeightedColorGrid`: its box and size are fixed, its cells are updated in place. */
  class WeightedColorGrid {
    /** `bbox.min`, floored. */
    const min: Int3
    /** `bbox.max`, ceiled and then lowered by one: the largest coordinates inside. */
    const max: Int3
    /** `size`: the extent of the snapped box, zero for an empty box. */
    const size: Int3
    /** `$cells`. */
    const cells: array<Cell>

    /**
     * The array holds one cell per voxel; along each axis the inclusive bounds span
     * `size` voxels, or, when some extent is zero, the bounds contain nothing.
     */
    predicate Valid() {
      0 <= size.x && 0 <= size.y && 0 <= size.z
      && cells.Length == size.x * size.y * size.z
      && if 0 < size.x && 0 < size.y && 0 < size.z
         then max == Int3(min.x + size.x - 1, min.y + size.y - 1, min.z + size.z - 1)
         else max.x < min.x || max.y < min.y || max.z < min.z
    }

    /**
     * A grid over `box` with its minimum floored and its maximum ceiled, every cell
     * holding the initial colour (an empty WeightedColor when none is given).
     */
    constructor (box: Sieves.RealBox, initial: Option<ColorSum>)
      ensures Valid() && fresh(cells)
      ensures min == Sieves.Snap(box).min
      ensures forall c :: Inside(c) <==> Sieves.Inside(c, Sieves.Snap(box))
      ensures forall i | 0 <= i < cells.Length :: cells[i] == Color(if initial.None? then Empty else initial.value)
    {
      var snapped := Sieves.Snap(box);
      var lo, hi := snapped.min, snapped.max;
      var extent := Sieves.GetSize(snapped);
      ProductNonneg(extent.x, extent.y, extent.z);
      min := lo;
      size := extent;
      max := Minus(hi, Int3(1, 1, 1));
      cells := new Cell[extent.x * extent.y * extent.z];
      new;
      var initialColor := if initial.None? then Empty else initial.value;
      for index := 0 to cells.Length
        invariant forall j | 0 <= j < index :: cells[j] == Color(initialColor)
      {
        cells[index] := Color(initialColor);
      }
    }

    /** `bbox.containsPoint` with the inclusive integer bounds. */
    predicate ContainsPoint(p: Vec3) {
      min.x as real <= p.x <= max.x as real
      && min.y as real <= p.y <= max.y as real
      && min.z as real <= p.z <= max.z as real
    }

    /** An integer point inside the grid. */
    predicate Inside(c: Int3) {
      min.x <= c.x <= max.x && min.y <= c.y <= max.y && min.z <= c.z <= max.z
    }

    /** The index formula of `$getIndex`: x, then z rows of `size.x`, then y layers. */
    function IndexOf(c: Int3): int {
      var d := Minus(c, min);
      d.x + d.y * (size.x * size.z) + d.z * size.x
    }

    /** `$getCoordinates`: the point an index addresses. */
    function Coordinates(i: int): Int3
      requires Valid() && 0 <= i < cells.Length
    {
      DecodeIndex(i, size.x, size.y, size.z);
      var layer := size.x * size.z;
      Plus(Int3((i % layer) % size.x, i / layer, (i % layer) / size.x), min)
    }

    /** The index of a point inside the grid addresses a cell and decodes back to the point. */
    lemma IndexRoundTrip(c: Int3)
      requires Valid() && Inside(c)
      ensures 0 <= IndexOf(c) < cells.Length && Coordinates(IndexOf(c)) == c
    {
      var d := Minus(c, min);
      EncodeIndex(d.x, d.y, d.z, size.x, size.y, size.z);
      var i, layer := IndexOf(c), size.x * size.z;
      assert i / layer == d.y && (i % layer) % size.x == d.x && (i % layer) / size.x == d.z;
    }

    /** Every index addresses a point inside the grid, whose index it is. */
    lemma CoordinatesRoundTrip(i: int)
      requires Valid() && 0 <= i < cells.Length
      ensures Inside(Coordinates(i)) && IndexOf(Coordinates(i)) == i
    {
      DecodeIndex(i, size.x, size.y, size.z);
    }

    /**
     * `$getIndex`: non-integer coordinates and points outside the bounds are refused, in
     * that order; otherwise the index addresses a cell whose coordinates are the point.
     */
    function GetIndex(p: Vec3): (r: Result<int>)
      requires Valid()
      ensures r.Ok? <==> IsInteger(p.x) && IsInteger(p.y) && IsInteger(p.z) && ContainsPoint(p)
      ensures r.Err? ==> r.error == if IsInteger(p.x) && IsInteger(p.y) && IsInteger(p.z) then OutOfBounds else NotIntegers
      ensures r.Ok? ==> 0 <= r.value < cells.Length && AsVec(Coordinates(r.value)) == p
    {
      if !(IsInteger(p.x) && IsInteger(p.y) && IsInteger(p.z)) then Err(NotIntegers)
      else if !ContainsPoint(p) then Err(OutOfBounds)
      else
        var c := Int3(p.x.Floor, p.y.Floor, p.z.Floor);
        IndexRoundTrip(c);
        Ok(IndexOf(c))
    }

    /** `get`: the cell under a point, or the error of `$getIndex`. */
    function Get(p: Vec3): (r: Result<Cell>)
      requires Valid()
      reads cells
      ensures r.Ok? <==> GetIndex(p).Ok?
      ensures r.Err? ==> r.error == GetIndex(p).error
      ensures r.Ok? ==> exists i | 0 <= i < cells.Length :: AsVec(Coordinates(i)) == p && r.value == cells[i]
    {
      var index :- GetIndex(p);
      Ok(cells[index])
    }

    /**
     * `add`: the cell under the point (a fresh colour if it was null) gains the colour;
     * no other cell changes. A refused point changes nothing.
     */
    method Add(p: Vec3, a: Addend) returns (r: Outcome)
      requires Valid()
      modifies cells
      ensures r.Fail? <==> GetIndex(p).Err?
      ensures r.Fail? ==> r.error == GetIndex(p).error && cells[..] == old(cells[..])
      ensures r.Pass? ==> Get(p) == Ok(Color(AddSample(Base(old(Get(p)).value), AsSample(a))))
      ensures r.Pass? ==> forall i | 0 <= i < cells.Length && i != GetIndex(p).value :: cells[i] == old(cells[i])
    {
      var index := GetIndex(p);
      if index.Err? {
        return Fail(index.error);
      }
      var cell := cells[index.value];
      cells[index.value] := Color(AddSample(Base(cell), AsSample(a)));
      r := Pass;
    }

    /** The cell of `s` at an integer point, null outside the array. */
    function CellAt(s: seq<Cell>, c: Int3): Cell {
      var i := IndexOf(c);
      if 0 <= i < |s| then s[i] else Null
    }

    /** A walk through face neighbours over blank cells inside the grid. */
    ghost predicate BlankPath(s: seq<Cell>, path: seq<Int3>) {
      && |path| > 0
      && (forall k | 0 <= k < |path| :: Inside(path[k]) && Blank(CellAt(s, path[k])))
      && (forall k | 0 <= k < |path| - 1 :: Adjacent(path[k], path[k + 1]))
    }

    /** `to` is reached from `from` through blank cells of `s`. */
    ghost predicate Reachable(s: seq<Cell>, from: Int3, to: Int3) {
      exists path :: BlankPath(s, path) && path[0] == from && path[|path| - 1] == to
    }

    /** The cells after a flood fill from `seed`: every reached cell becomes null. */
    ghost function Flooded(s: seq<Cell>, seed: Int3): (t: seq<Cell>)
      requires Valid() && |s| == cells.Length
      ensures |t| == |s|
    {
      seq(|s|, i requires 0 <= i < |s| => if Reachable(s, seed, Coordinates(i)) then Null else s[i])
    }

    /** The neighbours of `point` inside the grid among the first `k` steps, in step order. */
    function InBoundsNeighbours(point: Int3, k: nat): seq<Int3>
      requires k <= 6
    {
      if k == 0 then []
      else
        var n := Plus(point, Directions[k - 1]);
        InBoundsNeighbours(point, k - 1) + if Inside(n) then [n] else []
    }

    /** What the flood fill pushes are in-bounds neighbours of the point. */
    lemma {:induction false} PushedAreNeighbours(point: Int3, k: nat)
      requires k <= 6
      ensures forall n | n in InBoundsNeighbours(point, k) :: Inside(n) && Adjacent(point, n)
    {
      if k > 0 {
        PushedAreNeighbours(point, k - 1);
        StepIsAdjacent(point, k - 1);
      }
    }

    /** Every in-bounds neighbour of the point is pushed. */
    lemma {:induction false} NeighboursArePushed(point: Int3, k: nat)
      requires k <= 6
      ensures forall j | 0 <= j < k && Inside(Plus(point, Directions[j])) ::
        Plus(point, Directions[j]) in InBoundsNeighbours(point, k)
    {
      if k > 0 {
        NeighboursArePushed(point, k - 1);
      }
    }

    /** The `forEach` over the six steps: push every neighbour inside the bounds. */
    method PushNeighbours(queue: seq<Int3>, point: Int3) returns (q: seq<Int3>)
      ensures q == queue + InBoundsNeighbours(point, 6)
    {
      q := queue;
      for k := 0 to 6
        invariant q == queue + InBoundsNeighbours(point, k)
      {
        var neighbour := Plus(point, Directions[k]);
        if Inside(neighbour) {
          q := q + [neighbour];
        }
      }
    }

    /**
     * Every blank neighbour of a removed cell is removed or still queued
     * (the invariant that makes the removed set closed once the queue is empty).
     */
    ghost predicate Closed(s: seq<Cell>, removed: set<int>, queue: seq<Int3>)
      requires Valid()
    {
      forall i, k | i in removed && 0 <= i < cells.Length && 0 <= k < 6
        && Inside(Plus(Coordinates(i), Directions[k])) && Blank(CellAt(s, Plus(Coordinates(i), Directions[k]))) ::
        IndexOf(Plus(Coordinates(i), Directions[k])) in removed || Plus(Coordinates(i), Directions[k]) in queue
    }

    lemma Pop(queue: seq<Int3>)
      requires queue != []
      ensures queue == queue[..|queue| - 1] + [queue[|queue| - 1]]
    {
    }

    /** The blank cells of `s` the flood fill has not removed yet. */
    ghost function BlankLeft(s: seq<Cell>, removed: set<int>): set<int> {
      set i | 0 <= i < |s| && Blank(s[i]) && i !in removed
    }

    lemma RemoveShrinks(s: seq<Cell>, removed: set<int>, index: int)
      requires 0 <= index < |s| && Blank(s[index]) && index !in removed
      ensures BlankLeft(s, removed + {index}) < BlankLeft(s, removed)
    {
      assert index in BlankLeft(s, removed);
    }

    /** Popping a removed or non-blank point keeps the removed set closed. */
    lemma ClosedAfterPop(s: seq<Cell>, removed: set<int>, queue: seq<Int3>, point: Int3)
      requires Valid()
      requires Closed(s, removed, queue + [point])
      requires IndexOf(point) in removed || !Blank(CellAt(s, point))
      ensures Closed(s, removed, queue)
    {
      forall i, k | i in removed && 0 <= i < cells.Length && 0 <= k < 6
        && Inside(Plus(Coordinates(i), Directions[k])) && Blank(CellAt(s, Plus(Coordinates(i), Directions[k])))
        ensures IndexOf(Plus(Coordinates(i), Directions[k])) in removed || Plus(Coordinates(i), Directions[k]) in queue
      {
        var n := Plus(Coordinates(i), Directions[k]);
        if IndexOf(n) !in removed {
          assert n in queue + [point];
        }
      }
    }

    /** Removing a popped point and pushing its in-bounds neighbours keeps the removed set closed. */
    lemma ClosedAfterRemove(s: seq<Cell>, removed: set<int>, queue: seq<Int3>, point: Int3)
      requires Valid() && Inside(point)
      requires Closed(s, removed, queue + [point])
      ensures Closed(s, removed + {IndexOf(point)}, queue + InBoundsNeighbours(point, 6))
    {
      IndexRoundTrip(point);
      PushedAreNeighbours(point, 6);
      NeighboursArePushed(point, 6);
      var removed', queue' := removed + {IndexOf(point)}, queue + InBoundsNeighbours(point, 6);
      forall i, k | i in removed' && 0 <= i < cells.Length && 0 <= k < 6
        && Inside(Plus(Coordinates(i), Directions[k])) && Blank(CellAt(s, Plus(Coordinates(i), Directions[k])))
        ensures IndexOf(Plus(Coordinates(i), Directions[k])) in removed' || Plus(Coordinates(i), Directions[k]) in queue'
      {
        var n := Plus(Coordinates(i), Directions[k]);
        if i == IndexOf(point) {
          assert n in InBoundsNeighbours(point, 6);
        } else if IndexOf(n) !in removed {
          assert n in queue + [point];
        }
      }
    }

    /** A reached cell's blank neighbour is reached too. */
    lemma ExtendPath(s: seq<Cell>, from: Int3, point: Int3, n: Int3)
      requires Reachable(s, from, point) && Inside(n) && Blank(CellAt(s, n)) && Adjacent(point, n)
      ensures Reachable(s, from, n)
    {
      var path :| BlankPath(s, path) && path[0] == from && path[|path| - 1] == point;
      var longer := path + [n];
      assert BlankPath(s, longer);
    }

    /** Once the queue is empty, every walk from the seed stays inside the removed set. */
    lemma {:induction false} WalkRemoved(s: seq<Cell>, seed: Int3, removed: set<int>, path: seq<Int3>)
      requires Valid() && |s| == cells.Length
      requires BlankPath(s, path) && path[0] == seed
      requires IndexOf(seed) in removed || !Blank(CellAt(s, seed))
      requires Closed(s, removed, [])
      ensures IndexOf(path[|path| - 1]) in removed
    {
      if |path| > 1 {
        var prefix := path[..|path| - 1];
        assert BlankPath(s, prefix);
        WalkRemoved(s, seed, removed, prefix);
        var last, previous := path[|path| - 1], path[|path| - 2];
        IndexRoundTrip(previous);
        var k := AdjacentIsStep(previous, last);
        assert Plus(Coordinates(IndexOf(previous)), Directions[k]) == last;
      }
    }

    /**
     * The state of the flood fill between two pops: queued points are inside the grid,
     * every removed cell and every blank queued point is reached from the seed, the
     * removed set is closed up to the queue, and the seed is removed, queued or not blank.
     */
    ghost predicate Frontier(s: seq<Cell>, seed: Int3, removed: set<int>, queue: seq<Int3>)
      requires Valid()
    {
      && (forall q | q in queue :: Inside(q))
      && (forall i | i in removed :: 0 <= i < cells.Length && Reachable(s, seed, Coordinates(i)))
      && (forall q | q in queue && Blank(CellAt(s, q)) :: Reachable(s, seed, q))
      && Closed(s, removed, queue)
      && (IndexOf(seed) in removed || seed in queue || !Blank(CellAt(s, seed)))
    }

    lemma FrontierStart(s: seq<Cell>, seed: Int3)
      requires Valid() && Inside(seed)
      ensures Frontier(s, seed, {}, [seed])
    {
      if Blank(CellAt(s, seed)) {
        assert BlankPath(s, [seed]);
      }
    }

    /** Popping a point that is removed already or not blank. */
    lemma FrontierSkip(s: seq<Cell>, seed: Int3, removed: set<int>, queue: seq<Int3>, point: Int3)
      requires Valid() && Frontier(s, seed, removed, queue + [point])
      requires IndexOf(point) in removed || !Blank(CellAt(s, point))
      ensures Frontier(s, seed, removed, queue)
    {
      ClosedAfterPop(s, removed, queue, point);
    }

    /** Popping a blank point: it is removed and its in-bounds neighbours are pushed. */
    lemma FrontierRemove(s: seq<Cell>, seed: Int3, removed: set<int>, queue: seq<Int3>, point: Int3)
      requires Valid() && Frontier(s, seed, removed, queue + [point])
      requires Blank(CellAt(s, point))
      ensures Frontier(s, seed, removed + {IndexOf(point)}, queue + InBoundsNeighbours(point, 6))
    {
      assert point in queue + [point];
      IndexRoundTrip(point);
      ClosedAfterRemove(s, removed, queue, point);
      PushedAreNeighbours(point, 6);
      NeighboursArePushed(point, 6);
      forall n | n in queue + InBoundsNeighbours(point, 6) && Blank(CellAt(s, n))
        ensures Reachable(s, seed, n)
      {
        if n !in queue {
          ExtendPath(s, seed, point, n);
        } else {
          assert n in queue + [point];
        }
      }
    }

    /** The cells of `s` with the removed ones set to null. */
    ghost function Cleared(s: seq<Cell>, removed: set<int>): (t: seq<Cell>)
      ensures |t| == |s|
    {
      seq(|s|, i requires 0 <= i < |s| => if i in removed then Null else s[i])
    }

    lemma ClearOne(s: seq<Cell>, removed: set<int>, index: int)
      requires 0 <= index < |s|
      ensures Cleared(s, removed)[index := Null] == Cleared(s, removed + {index})
    {
    }

    /** With the queue empty, the removed cells are exactly those reached from the seed. */
    lemma FrontierDone(s: seq<Cell>, seed: Int3, removed: set<int>)
      requires Valid() && |s| == cells.Length && Frontier(s, seed, removed, [])
      ensures Cleared(s, removed) == Flooded(s, seed)
    {
      forall i | 0 <= i < cells.Length && Reachable(s, seed, Coordinates(i))
        ensures i in removed
      {
        var path :| BlankPath(s, path) && path[0] == seed && path[|path| - 1] == Coordinates(i);
        WalkRemoved(s, seed, removed, path);
        CoordinatesRoundTrip(i);
      }
    }

    /**
     * `floodDelete`: a refused seed changes nothing; otherwise exactly the cells reached
     * from the seed through present cells of non-positive weight become null.
     */
    method FloodDelete(seed: Vec3) returns (r: Outcome)
      requires Valid()
      modifies cells
      ensures r.Fail? <==> GetIndex(seed).Err?
      ensures r.Fail? ==> r.error == GetIndex(seed).error && cells[..] == old(cells[..])
      ensures r.Pass? ==> cells[..] == Flooded(old(cells[..]), Coordinates(GetIndex(seed).value))
    {
      var first := GetIndex(seed);
      if first.Err? {
        return Fail(first.error);
      }
      var start := Coordinates(first.value);
      CoordinatesRoundTrip(first.value);
      Flood(start);
      r := Pass;
    }

    /** The loop of `floodDelete` once the seed has been accepted: a stack of points. */
    method Flood(start: Int3)
      requires Valid() && Inside(start)
      modifies cells
      ensures cells[..] == Flooded(old(cells[..]), start)
    {
      ghost var s0 := cells[..];
      ghost var removed: set<int> := {};
      var queue := [start];
      FrontierStart(s0, start);
      while queue != []
        invariant Frontier(s0, start, removed, queue)
        invariant cells[..] == Cleared(s0, removed)
        decreases BlankLeft(s0, removed), |queue|
      {
        var point := queue[|queue| - 1];
        Pop(queue);
        queue := queue[..|queue| - 1];
        IndexRoundTrip(point);
        var index := IndexOf(point);
        var cell := cells[index];
        if cell.Null? || cell.sum.weight > 0 {
          FrontierSkip(s0, start, removed, queue, point);
          continue;
        }
        FrontierRemove(s0, start, removed, queue, point);
        RemoveShrinks(s0, removed, index);
        ClearOne(s0, removed, index);
        cells[index] := Null;
        removed := removed + {index};
        queue := PushNeighbours(queue, point);
      }
      FrontierDone(s0, start, removed);
    }

    /** A reached cell is blank. */
    lemma ReachedIsBlank(s: seq<Cell>, seed: Int3, i: int)
      requires Valid() && |s| == cells.Length && 0 <= i < |s|
      requires Reachable(s, seed, Coordinates(i))
      ensures Blank(s[i])
    {
      var path :| BlankPath(s, path) && path[0] == seed && path[|path| - 1] == Coordinates(i);
      CoordinatesRoundTrip(i);
      assert Blank(CellAt(s, path[|path| - 1]));
    }

    /** The flood fill only turns blank cells into null and leaves every other cell as it was. */
    lemma FloodOnlyClearsBlank(s: seq<Cell>, seed: Int3, i: int)
      requires Valid() && |s| == cells.Length && 0 <= i < |s|
      ensures Flooded(s, seed)[i] == s[i] || (Blank(s[i]) && Flooded(s, seed)[i] == Null)
    {
      if Reachable(s, seed, Coordinates(i)) {
        ReachedIsBlank(s, seed, i);
      }
    }

    /** A blank seed is reached from itself: its cell is cleared. */
    lemma SeedReached(s: seq<Cell>, seed: Int3)
      requires Valid() && |s| == cells.Length && Inside(seed) && Blank(CellAt(s, seed))
      ensures Reachable(s, seed, seed)
    {
      assert BlankPath(s, [seed]);
    }

    /**
     * Flooding twice from the same seed is flooding once: the seed's cell is null or not
     * blank afterwards, so nothing is reached the second time.
     */
    lemma FloodTwice(s: seq<Cell>, seed: Int3)
      requires Valid() && |s| == cells.Length && Inside(seed)
      ensures Flooded(Flooded(s, seed), seed) == Flooded(s, seed)
    {
      var t := Flooded(s, seed);
      IndexRoundTrip(seed);
      if Blank(CellAt(s, seed)) {
        SeedReached(s, seed);
      }
      assert !Blank(CellAt(t, seed));
      forall i | 0 <= i < |t|
        ensures !Reachable(t, seed, Coordinates(i))
      {
      }
    }

    /** The present cells among the first `|s|` ones, in index order, with their coordinates. */
    function Visits(s: seq<Cell>): seq<(Int3, ColorSum)>
      requires Valid() && |s| <= cells.Length
    {
      if s == [] then []
      else
        var i := |s| - 1;
        Visits(s[..i]) + if s[i].Null? then [] else [(Coordinates(i), s[i].sum)]
    }

    /** `forEach`: the callback receives every present cell in index order. */
    method ForEach() returns (visits: seq<(Int3, ColorSum)>)
      requires Valid()
      ensures visits == Visits(cells[..])
    {
      visits := [];
      for index := 0 to cells.Length
        invariant visits == Visits(cells[..index])
      {
        assert cells[..index + 1][..index] == cells[..index];
        var color := cells[index];
        if color != Null {
          var point := Coordinates(index);
          visits := visits + [(point, color.sum)];
        }
      }
      assert cells[..cells.Length] == cells[..];
    }

    /** Every visit is a present cell: the colour stored at the visited point. */
    lemma {:induction false} VisitsArePresent(s: seq<Cell>)
      requires Valid() && |s| <= cells.Length
      ensures forall v | v in Visits(s) :: Inside(v.0) && 0 <= IndexOf(v.0) < |s| && s[IndexOf(v.0)] == Color(v.1)
    {
      if s != [] {
        var i := |s| - 1;
        VisitsArePresent(s[..i]);
        CoordinatesRoundTrip(i);
      }
    }

    /** Every present cell is visited. */
    lemma {:induction false} PresentAreVisited(s: seq<Cell>)
      requires Valid() && |s| <= cells.Length
      ensures forall i | 0 <= i < |s| && s[i].Color? :: (Coordinates(i), s[i].sum) in Visits(s)
    {
      if s != [] {
        var i := |s| - 1;
        PresentAreVisited(s[..i]);
      }
    }

    /** The visits follow the index order: strictly increasing indices. */
    lemma {:induction false} VisitsInIndexOrder(s: seq<Cell>)
      requires Valid() && |s| <= cells.Length
      ensures forall j, k | 0 <= j < k < |Visits(s)| :: IndexOf(Visits(s)[j].0) < IndexOf(Visits(s)[k].0)
    {
      if s != [] {
        var i := |s| - 1;
        VisitsInIndexOrder(s[..i]);
        VisitsArePresent(s[..i]);
        CoordinatesRoundTrip(i);
        var v := Visits(s);
        var u := Visits(s[..i]);
        forall j, k | 0 <= j < k < |v|
          ensures IndexOf(v[j].0) < IndexOf(v[k].0)
        {
          if k >= |u| {
            assert v[j] in u;
          }
        }
      }
    }
  }
}
