/**
 * Export of a weighted colour grid into a layered container: one sprite per y layer
 * holding the layer's cells at (x, z), and a `model` meta object that lists the layers
 * from the top y down to the bottom y, with null for a y that has no cell.
 */
module GridExport {
  import opened Common
  import opened Geometry
  import opened WeightedColors
  import opened Tiles
  import opened Sprites
  import opened Containers
  import ColorGrids

  /** One call of the grid's `forEach`: the cell's coordinates and its colour. */
  type Visit = (Int3, ColorSum)

  const NoColorInformation := "Color grid did not seem to have color information!"
  const GridFormat := "grid-1.0.0"

  /** `(0x80 << 24) >>> 0`: the pixel written for a cell of weight 0. */
  const Transparent := 0x8000_0000

  /** The pixel written for a cell: its colour value, or `Transparent` at weight 0. */
  function PixelValue(c: ColorSum): int {
    if c.weight > 0 then c.Value() else Transparent
  }

  /** The distinct y coordinates of the visits, in order of first appearance. */
  function Ys(vs: seq<Visit>): seq<int> {
    if vs == [] then []
    else
      var i := |vs| - 1;
      var ys := Ys(vs[..i]);
      if vs[i].0.y in ys then ys else ys + [vs[i].0.y]
  }

  lemma {:induction false} YsExactly(vs: seq<Visit>, y: int)
    ensures y in Ys(vs) <==> exists j | 0 <= j < |vs| :: vs[j].0.y == y
  {
    if vs != [] {
      var i := |vs| - 1;
      YsExactly(vs[..i], y);
      if y in Ys(vs[..i]) {
        var j :| 0 <= j < i && vs[..i][j].0.y == y;
        assert vs[j].0.y == y;
      }
      if exists j | 0 <= j < |vs| :: vs[j].0.y == y {
        var j :| 0 <= j < |vs| && vs[j].0.y == y;
        if j < i {
          assert vs[..i][j].0.y == y;
        }
      }
    }
  }

  lemma {:induction false} YsDistinct(vs: seq<Visit>)
    ensures forall j, k | 0 <= j < k < |Ys(vs)| :: Ys(vs)[j] != Ys(vs)[k]
  {
    if vs != [] {
      YsDistinct(vs[..|vs| - 1]);
    }
  }

  /** The position of `y` in `s`: its first occurrence. */
  function IndexIn(s: seq<int>, y: int): (k: nat)
    requires y in s
    ensures k < |s| && s[k] == y
  {
    if s[0] == y then 0 else 1 + IndexIn(s[1..], y)
  }

  lemma {:induction false} IndexInExtend(s: seq<int>, z: int, y: int)
    requires y in s
    ensures IndexIn(s + [z], y) == IndexIn(s, y)
  {
    if s[0] != y {
      assert (s + [z])[1..] == s[1..] + [z];
      IndexInExtend(s[1..], z, y);
    }
  }

  /** The id of the sprite of layer `y`: sprites are numbered from 0 in order of first appearance. */
  function IdOf(vs: seq<Visit>, y: int): nat
    requires y in Ys(vs)
  {
    IndexIn(Ys(vs), y)
  }

  datatype Axis = X | Z

  function Along(p: Int3, a: Axis): int {
    if a == X then p.x else p.z
  }

  /** The running minimum of x (or z) over the cells of layer `y`, as the export keeps it. */
  function LayerMin(vs: seq<Visit>, y: int, a: Axis): int
    requires y in Ys(vs)
  {
    var i := |vs| - 1;
    if vs[i].0.y != y then LayerMin(vs[..i], y, a)
    else if y in Ys(vs[..i]) then MinInt(LayerMin(vs[..i], y, a), Along(vs[i].0, a))
    else Along(vs[i].0, a)
  }

  /** `m` is the least x (or z) among the cells of layer `y`. */
  predicate IsLayerMin(vs: seq<Visit>, y: int, a: Axis, m: int) {
    (exists j | 0 <= j < |vs| :: vs[j].0.y == y && Along(vs[j].0, a) == m)
    && forall j | 0 <= j < |vs| && vs[j].0.y == y :: m <= Along(vs[j].0, a)
  }

  lemma {:induction false} LayerMinIsLeast(vs: seq<Visit>, y: int, a: Axis)
    requires y in Ys(vs)
    ensures IsLayerMin(vs, y, a, LayerMin(vs, y, a))
  {
    var i := |vs| - 1;
    var m := LayerMin(vs, y, a);
    if y in Ys(vs[..i]) {
      LayerMinIsLeast(vs[..i], y, a);
      var m' := LayerMin(vs[..i], y, a);
      var j :| 0 <= j < i && vs[..i][j].0.y == y && Along(vs[..i][j].0, a) == m';
      assert forall k | 0 <= k < i :: vs[k] == vs[..i][k];
      if m != m' {
        assert vs[i].0.y == y && Along(vs[i].0, a) == m;
      }
    } else {
      YsExactly(vs[..i], y);
      assert forall k | 0 <= k < i :: vs[k] == vs[..i][k];
      assert vs[i].0.y == y && Along(vs[i].0, a) == m;
    }
  }

  /** The `borders` of the export: the least and the greatest y, updated visit by visit. */
  function Borders(vs: seq<Visit>): (b: (int, int))
    requires vs != []
    ensures b.0 <= b.1
  {
    var i := |vs| - 1;
    if i == 0 then (vs[0].0.y, vs[0].0.y)
    else
      var b := Borders(vs[..i]);
      (MinInt(b.0, vs[i].0.y), MaxInt(b.1, vs[i].0.y))
  }

  /** The borders are the least and the greatest y of a visit. */
  lemma {:induction false} BordersAreExtremes(vs: seq<Visit>)
    requires vs != []
    ensures Borders(vs).0 in Ys(vs) && Borders(vs).1 in Ys(vs)
    ensures forall j | 0 <= j < |vs| :: Borders(vs).0 <= vs[j].0.y <= Borders(vs).1
  {
    var i := |vs| - 1;
    if i > 0 {
      BordersAreExtremes(vs[..i]);
      assert forall k | 0 <= k < i :: vs[k] == vs[..i][k];
    }
    YsExactly(vs, Borders(vs).0);
    YsExactly(vs, Borders(vs).1);
    if i > 0 {
      YsExactly(vs[..i], Borders(vs[..i]).0);
      YsExactly(vs[..i], Borders(vs[..i]).1);
    }
  }

  /** One entry of `model.layers`: the layer's sprite id and target, or null. */
  function Entry(vs: seq<Visit>, y: int): Json {
    if y in Ys(vs)
    then JObj([
      ("spriteId", JNum(IdOf(vs, y) as real)),
      ("targetX", JNum(LayerMin(vs, y, X) as real)),
      ("targetY", JNum(LayerMin(vs, y, Z) as real))])
    else JNull
  }

  /** `model.layers`: from the greatest y down to the least. */
  function LayerEntries(vs: seq<Visit>): seq<Json>
    requires vs != []
  {
    var b := Borders(vs);
    seq(b.1 - b.0 + 1, i => Entry(vs, b.1 - i))
  }

  /** The `model` meta object. */
  function ModelJson(vs: seq<Visit>): Json
    requires vs != []
  {
    JObj([("format", JStr(GridFormat)), ("layers", JArr(LayerEntries(vs)))])
  }

  /**
   * `model.layers` has one entry per y from the greatest down to the least; an entry is
   * null exactly when no cell has that y, and otherwise names the layer's sprite and
   * the least x and z of the layer's cells.
   */
  lemma LayerEntryMeaning(vs: seq<Visit>, i: int)
    requires vs != []
    ensures |LayerEntries(vs)| == Borders(vs).1 - Borders(vs).0 + 1
    ensures 0 <= i < |LayerEntries(vs)| ==>
      var y := Borders(vs).1 - i;
      var e := LayerEntries(vs)[i];
      (e == JNull <==> forall j | 0 <= j < |vs| :: vs[j].0.y != y)
      && (e != JNull ==>
        y in Ys(vs)
        && e == JObj([
          ("spriteId", JNum(IdOf(vs, y) as real)),
          ("targetX", JNum(LayerMin(vs, y, X) as real)),
          ("targetY", JNum(LayerMin(vs, y, Z) as real))])
        && IsLayerMin(vs, y, X, LayerMin(vs, y, X)) && IsLayerMin(vs, y, Z, LayerMin(vs, y, Z)))
  {
    if 0 <= i < |LayerEntries(vs)| {
      var y := Borders(vs).1 - i;
      assert LayerEntries(vs)[i] == Entry(vs, y);
      YsExactly(vs, y);
      if y in Ys(vs) {
        LayerMinIsLeast(vs, y, X);
        LayerMinIsLeast(vs, y, Z);
      }
    }
  }

  /** The sprites are numbered 0, 1, ... in order of first appearance of their y, without gaps. */
  lemma IdsNumberLayers(vs: seq<Visit>, y: int, y': int)
    requires y in Ys(vs) && y' in Ys(vs)
    ensures IdOf(vs, y) < |Ys(vs)|
    ensures IdOf(vs, y) == IdOf(vs, y') <==> y == y'
  {
  }

  /** The tiles of the sprite of layer `y`: every cell of that layer written at (x, z) in turn. */
  function LayerTiles(vs: seq<Visit>, y: int): Columns {
    if vs == [] then map[]
    else
      var i := |vs| - 1;
      var prev := LayerTiles(vs[..i], y);
      if vs[i].0.y != y then prev
      else PutPixel(prev, vs[i].0.x, vs[i].0.z, Integer(PixelValue(vs[i].1))).1
  }

  lemma {:induction false} IndexInLast(s: seq<int>, y: int)
    requires y !in s
    ensures IndexIn(s + [y], y) == |s|
  {
    if s != [] {
      assert (s + [y])[1..] == s[1..] + [y];
      IndexInLast(s[1..], y);
    }
  }

  /** How one more visit `v` changes the layers, ids, minima and tiles of the layer `y`. */
  lemma Extend(vs: seq<Visit>, v: Visit, y: int, a: Axis)
    ensures Ys(vs + [v]) == if v.0.y in Ys(vs) then Ys(vs) else Ys(vs) + [v.0.y]
    ensures y in Ys(vs + [v]) <==> y in Ys(vs) || y == v.0.y
    ensures y in Ys(vs) ==> IdOf(vs + [v], y) == IdOf(vs, y)
    ensures y == v.0.y && y !in Ys(vs) ==> IdOf(vs + [v], y) == |Ys(vs)|
    ensures y in Ys(vs + [v]) ==>
      LayerMin(vs + [v], y, a) ==
        if y != v.0.y then LayerMin(vs, y, a)
        else if y in Ys(vs) then MinInt(LayerMin(vs, y, a), Along(v.0, a))
        else Along(v.0, a)
    ensures LayerTiles(vs + [v], y) ==
      if y != v.0.y then LayerTiles(vs, y)
      else PutPixel(LayerTiles(vs, y), v.0.x, v.0.z, Integer(PixelValue(v.1))).1
    ensures vs != [] ==> Borders(vs + [v]) == (MinInt(Borders(vs).0, v.0.y), MaxInt(Borders(vs).1, v.0.y))
  {
    assert (vs + [v])[..|vs|] == vs;
    if y in Ys(vs) {
      IndexInExtend(Ys(vs), v.0.y, y);
    }
    if y == v.0.y && y !in Ys(vs) {
      IndexInLast(Ys(vs), y);
    }
  }

  /** One more visit adds its y to the layers when it is new. */
  lemma YsStep(vs: seq<Visit>, v: Visit)
    ensures Ys(vs + [v]) == if v.0.y in Ys(vs) then Ys(vs) else Ys(vs) + [v.0.y]
  {
    assert (vs + [v])[..|vs|] == vs;
  }

  /** One more visit widens the borders to its y. */
  lemma BordersStep(vs: seq<Visit>, v: Visit)
    requires vs != []
    ensures Borders(vs + [v]) == (MinInt(Borders(vs).0, v.0.y), MaxInt(Borders(vs).1, v.0.y))
  {
    assert (vs + [v])[..|vs|] == vs;
  }

  /** Every cell lies where sprite tiles accept it: no negative x or z off a multiple of 16. */
  predicate AllFit(vs: seq<Visit>) {
    forall j | 0 <= j < |vs| :: Fits(vs[j].0.x) && Fits(vs[j].0.z)
  }

  /** One more visit fits exactly when it and all before it fit. */
  lemma AllFitStep(vs: seq<Visit>, v: Visit)
    ensures AllFit(vs + [v]) <==> AllFit(vs) && Fits(v.0.x) && Fits(v.0.z)
  {
    if AllFit(vs + [v]) {
      assert (vs + [v])[|vs|] == v;
      assert forall j | 0 <= j < |vs| :: (vs + [v])[j] == vs[j];
    }
  }

  /** A visit that does not fit spoils every longer sequence of visits. */
  lemma AllFitPrefix(vs: seq<Visit>, n: nat)
    requires n <= |vs|
    ensures AllFit(vs) ==> AllFit(vs[..n])
  {
    if AllFit(vs) {
      assert forall j | 0 <= j < n :: vs[..n][j] == vs[j];
    }
  }

  /** No two cells share their coordinates, as in the visits of a grid. */
  predicate DistinctPoints(vs: seq<Visit>) {
    forall j, k | 0 <= j < k < |vs| :: vs[j].0 != vs[k].0
  }

  /** Each cell of layer `y` reads back from that layer's sprite at (x, z) as its pixel value. */
  lemma {:induction false} LayerPixels(vs: seq<Visit>, j: int)
    requires AllFit(vs) && DistinctPoints(vs) && 0 <= j < |vs|
    ensures PixelOf(LayerTiles(vs, vs[j].0.y), vs[j].0.x, vs[j].0.z) == Ok(Some(PixelValue(vs[j].1)))
  {
    var i := |vs| - 1;
    var v := vs[i];
    var y := vs[j].0.y;
    var prev := LayerTiles(vs[..i], y);
    if j == i {
      GetAfterSet(prev, v.0.x, v.0.z, Integer(PixelValue(v.1)));
    } else {
      assert vs[..i][j] == vs[j];
      assert AllFit(vs[..i]) && DistinctPoints(vs[..i]) by {
        assert forall k | 0 <= k < i :: vs[..i][k] == vs[k];
      }
      LayerPixels(vs[..i], j);
      if v.0.y == y {
        assert vs[j].0 != v.0;
        SetKeepsOthers(prev, v.0.x, v.0.z, Integer(PixelValue(v.1)), vs[j].0.x, vs[j].0.z);
      }
    }
  }

  lemma {:induction false} LayerTilesCounted(vs: seq<Visit>, y: int)
    ensures TilesCounted(LayerTiles(vs, y))
  {
    if vs != [] {
      var i := |vs| - 1;
      LayerTilesCounted(vs[..i], y);
      PutKeepsCounted(LayerTiles(vs[..i], y), vs[i].0.x, vs[i].0.z, Integer(PixelValue(vs[i].1)));
    }
  }

  /** The grid visits each cell once, so no two visits share coordinates. */
  lemma GridVisitsDistinct(grid: ColorGrids.WeightedColorGrid)
    requires grid.Valid()
    ensures DistinctPoints(grid.Visits(grid.cells[..]))
  {
    grid.VisitsInIndexOrder(grid.cells[..]);
  }

  /** A layer never visited has no tiles. */
  lemma {:induction false} LayerTilesAbsent(vs: seq<Visit>, y: int)
    requires y !in Ys(vs)
    ensures LayerTiles(vs, y) == map[]
  {
    if vs != [] {
      LayerTilesAbsent(vs[..|vs| - 1], y);
    }
  }

  /** The tiles of every layer after the visits `vs`. */
  function TilesOf(vs: seq<Visit>): map<int, Columns> {
    map y | y in Ys(vs) :: LayerTiles(vs, y)
  }

  /** The tiles of layer `y`, or none. */
  function TilesAt(tiles: map<int, Columns>, y: int): Columns {
    if y in tiles then tiles[y] else map[]
  }

  /** The tiles of every layer after one more visit `v`. */
  function Drawing(tiles: map<int, Columns>, v: Visit): map<int, Columns> {
    tiles[v.0.y := PutPixel(TilesAt(tiles, v.0.y), v.0.x, v.0.z, Integer(PixelValue(v.1))).1]
  }

  lemma TilesOfStep(vs: seq<Visit>, v: Visit)
    ensures TilesOf(vs + [v]) == Drawing(TilesOf(vs), v)
  {
    forall y | true
      ensures (y in TilesOf(vs + [v]) <==> y in Drawing(TilesOf(vs), v))
      ensures y in TilesOf(vs + [v]) ==> TilesOf(vs + [v])[y] == Drawing(TilesOf(vs), v)[y]
    {
      Extend(vs, v, y, X);
      if y !in Ys(vs) {
        LayerTilesAbsent(vs, y);
      }
    }
  }

  /** What the export keeps per layer while it visits the cells. */
  datatype Layer = Layer(minX: int, minZ: int, sprite: Sprite)

  /** The sprites of `layers`. */
  function LayerSprites(layers: map<int, Layer>): set<Sprite> {
    set y | y in layers :: layers[y].sprite
  }

  /** The layers after one more visit `v`: minima lowered, or a new layer with sprite `s`. */
  function Updated(layers: map<int, Layer>, v: Visit, s: Sprite): map<int, Layer> {
    var y := v.0.y;
    if y in layers
    then layers[y := Layer(MinInt(layers[y].minX, v.0.x), MinInt(layers[y].minZ, v.0.z), layers[y].sprite)]
    else layers[y := Layer(v.0.x, v.0.z, s)]
  }

  /** The layers are those of the visits `vs`, with their least x and z. */
  ghost predicate Minima(layers: map<int, Layer>, vs: seq<Visit>) {
    (forall y :: y in layers <==> y in Ys(vs))
    && forall y | y in layers :: layers[y].minX == LayerMin(vs, y, X) && layers[y].minZ == LayerMin(vs, y, Z)
  }

  lemma MinimaStep(layers: map<int, Layer>, vs: seq<Visit>, v: Visit, s: Sprite)
    requires Minima(layers, vs)
    ensures Minima(Updated(layers, v, s), vs + [v])
  {
    forall y | true
      ensures y in Updated(layers, v, s) <==> y in Ys(vs + [v])
      ensures y in Updated(layers, v, s) ==>
        Updated(layers, v, s)[y].minX == LayerMin(vs + [v], y, X)
        && Updated(layers, v, s)[y].minZ == LayerMin(vs + [v], y, Z)
    {
      Extend(vs, v, y, X);
      Extend(vs, v, y, Z);
    }
  }

  /**
   * The sprites of the layers `ys` are numbered by position in `ys` and are the
   * container's sprites; the container holds nothing else.
   */
  ghost predicate Numbered(container: Container, layers: map<int, Layer>, ys: seq<int>)
    reads container
  {
    container.Valid()
    && container.metaObjects == map[]
    && container.spriteIdCounter == |ys|
    && (forall k :: k in container.sprites <==> 0 <= k < |ys|)
    && (forall y :: y in layers <==> y in ys)
    && forall y | y in layers ::
      layers[y].sprite.id == IndexIn(ys, y) && container.sprites[IndexIn(ys, y)] == layers[y].sprite
  }

  /** Each layer's sprite holds that layer's tiles. */
  ghost predicate Drawn(layers: map<int, Layer>, tiles: map<int, Columns>)
    reads LayerSprites(layers)
  {
    layers.Keys == tiles.Keys
    && forall y | y in layers :: layers[y].sprite.tiles == tiles[y] && layers[y].sprite.Valid()
  }

  /** The state of the export after the visits `vs`. */
  ghost predicate Built(container: Container, layers: map<int, Layer>, vs: seq<Visit>)
    reads container, LayerSprites(layers)
  {
    Numbered(container, layers, Ys(vs)) && Minima(layers, vs) && Drawn(layers, TilesOf(vs))
  }

  /**
   * The sprites of a container after the visits `vs`: sprite k, numbered from 0 in the
   * order the layers first appear, holds every cell of the k-th layer.
   */
  ghost predicate Holds(container: Container, vs: seq<Visit>)
    reads container, container.sprites.Values
  {
    container.spriteIdCounter == |Ys(vs)|
    && (forall k :: k in container.sprites <==> 0 <= k < |Ys(vs)|)
    && forall k | 0 <= k < |Ys(vs)| ::
      container.sprites[k].id == k && container.sprites[k].tiles == LayerTiles(vs, Ys(vs)[k])
  }

  /** The container after a complete export of the visits `vs`: its sprites and its model. */
  ghost predicate Exported(container: Container, vs: seq<Visit>)
    requires vs != []
    reads container, container.sprites.Values
  {
    container.metaObjects == map[ModelKey := ModelJson(vs)] && Holds(container, vs)
  }

  /** The state the visiting callback builds gives the sprites of the export. */
  lemma BuiltHolds(container: Container, layers: map<int, Layer>, vs: seq<Visit>)
    requires Built(container, layers, vs)
    ensures Holds(container, vs)
  {
    var ys := Ys(vs);
    YsDistinct(vs);
    forall k | 0 <= k < |ys|
      ensures container.sprites[k].id == k && container.sprites[k].tiles == LayerTiles(vs, ys[k])
    {
      var y := ys[k];
      assert y in layers;
      assert IndexIn(ys, y) == k;
    }
  }

  /** A new layer adds its sprite and nothing else; an existing one keeps the sprites. */
  lemma UpdatedSprites(layers: map<int, Layer>, v: Visit, s: Sprite)
    ensures LayerSprites(Updated(layers, v, s)) <= LayerSprites(layers) + {s}
    ensures v.0.y in layers ==> LayerSprites(Updated(layers, v, s)) == LayerSprites(layers)
  {
    var next := Updated(layers, v, s);
    forall t | t in LayerSprites(next)
      ensures t in LayerSprites(layers) + {s}
    {
      var y :| y in next && next[y].sprite == t;
      if y != v.0.y {
        assert layers[y].sprite == t;
      }
    }
    if v.0.y in layers {
      forall t | t in LayerSprites(layers)
        ensures t in LayerSprites(next)
      {
        var y :| y in layers && layers[y].sprite == t;
        assert next[y].sprite == t;
      }
    }
  }

  /**
   * The first half of the visiting callback of `toGridContainer`: the layer of `v` is
   * found, or created with a new sprite from the container, and its minima are updated.
   */
  method Locate(container: Container, layers: map<int, Layer>, ghost ys: seq<int>, v: Visit)
    returns (sprite: Sprite, next: map<int, Layer>, ghost ys': seq<int>)
    requires Numbered(container, layers, ys)
    modifies container
    ensures next == Updated(layers, v, sprite) && v.0.y in next && next[v.0.y].sprite == sprite
    ensures ys' == if v.0.y in ys then ys else ys + [v.0.y]
    ensures Numbered(container, next, ys')
    ensures v.0.y !in layers ==> fresh(sprite) && sprite.tiles == map[] && sprite.Valid()
  {
    var x, y, z := v.0.x, v.0.y, v.0.z;
    if y in layers {
      var data := layers[y];
      sprite := data.sprite;
      next := layers[y := Layer(MinInt(data.minX, x), MinInt(data.minZ, z), sprite)];
      ys' := ys;
    } else {
      sprite := container.AddSprite(None);
      next := layers[y := Layer(x, z, sprite)];
      ys' := ys + [y];
      IndexInLast(ys, y);
      forall y' | y' in ys
        ensures IndexIn(ys', y') == IndexIn(ys, y')
      {
        IndexInExtend(ys, y, y');
      }
    }
  }

  /**
   * The second half of the visiting callback of `toGridContainer`: the pixel of `v` is
   * written at (x, z) into the sprite of its layer, the only sprite that changes.
   */
  method Paint(layers: map<int, Layer>, ghost tiles: map<int, Columns>, v: Visit) returns (r: Outcome)
    requires v.0.y in layers && Drawn(layers, tiles[v.0.y := TilesAt(tiles, v.0.y)])
    requires forall y | y in layers && y != v.0.y :: layers[y].sprite != layers[v.0.y].sprite
    modifies layers[v.0.y].sprite
    ensures r.Fail? <==> !(Fits(v.0.x) && Fits(v.0.z))
    ensures r.Fail? ==> r.error == OutOfTile
    ensures r.Pass? ==> Drawn(layers, Drawing(tiles, v))
  {
    var sprite, x, z := layers[v.0.y].sprite, v.0.x, v.0.z;
    IntegerOutcome(sprite.tiles, x, z, PixelValue(v.1));
    r := sprite.SetPixel(x, z, Integer(PixelValue(v.1)));
    if r.Pass? {
      forall y | y in layers
        ensures layers[y].sprite.tiles == Drawing(tiles, v)[y] && layers[y].sprite.Valid()
      {
        if y != v.0.y {
          assert layers[y].sprite != sprite;
        }
      }
    }
  }

  /**
   * One call of the visiting callback of `toGridContainer`: the layer of `v` is located
   * and the pixel is written into its sprite at (x, z).
   */
  method Place(container: Container, layers: map<int, Layer>, ghost ys: seq<int>, ghost tiles: map<int, Columns>, v: Visit)
    returns (r: Outcome, next: map<int, Layer>, ghost ys': seq<int>)
    requires Numbered(container, layers, ys) && Drawn(layers, tiles)
    modifies container, LayerSprites(layers)
    ensures r.Fail? <==> !(Fits(v.0.x) && Fits(v.0.z))
    ensures r.Fail? ==> r.error == OutOfTile
    ensures v.0.y in next && next == Updated(layers, v, next[v.0.y].sprite)
    ensures ys' == if v.0.y in ys then ys else ys + [v.0.y]
    ensures Numbered(container, next, ys')
    ensures r.Pass? ==> Drawn(next, Drawing(tiles, v))
    ensures v.0.y !in layers ==> fresh(next[v.0.y].sprite)
  {
    var sprite;
    sprite, next, ys' := Locate(container, layers, ys, v);
    assert Drawn(next, tiles[v.0.y := TilesAt(tiles, v.0.y)]);
    assert forall y | y in next && y != v.0.y :: next[y].sprite.id != sprite.id;
    r := Paint(next, tiles, v);
  }

  /** One visit in terms of the visits so far: the export state moves from `vs` to `vs + [v]`. */
  method Advance(container: Container, layers: map<int, Layer>, ghost vs: seq<Visit>, v: Visit)
    returns (r: Outcome, next: map<int, Layer>)
    requires Built(container, layers, vs)
    modifies container, LayerSprites(layers)
    ensures r.Fail? <==> !(Fits(v.0.x) && Fits(v.0.z))
    ensures r.Fail? ==> r.error == OutOfTile
    ensures r.Pass? ==> Built(container, next, vs + [v])
    ensures forall y | y in next :: (y in layers && next[y].sprite == layers[y].sprite) || fresh(next[y].sprite)
  {
    ghost var ys;
    r, next, ys := Place(container, layers, Ys(vs), TilesOf(vs), v);
    forall y | y in next
      ensures (y in layers && next[y].sprite == layers[y].sprite) || fresh(next[y].sprite)
    {
      if y != v.0.y {
        assert next[y] == layers[y];
      }
    }
    MinimaStep(layers, vs, v, next[v.0.y].sprite);
    TilesOfStep(vs, v);
    YsStep(vs, v);
  }

  /**
   * The visiting callback of `toGridContainer` over all visits: one sprite per new y,
   * the pixel written at (x, z), the running minima and borders kept. It stops at the
   * first pixel a sprite refuses.
   */
  method Fill(visits: seq<Visit>)
    returns (r: Outcome, container: Container, layers: map<int, Layer>, borders: (int, int), initialized: bool)
    ensures r.Fail? <==> !AllFit(visits)
    ensures r.Pass? ==> (initialized <==> visits != [])
    ensures r.Fail? ==> r.error == OutOfTile
    ensures r.Pass? ==> fresh(container) && (forall y | y in layers :: fresh(layers[y].sprite)) && Built(container, layers, visits)
    ensures r.Pass? && visits != [] ==> borders == Borders(visits)
  {
    r := Pass;
    container := new Container();
    layers := map[];
    initialized := false;
    borders := (0, 0);
    ghost var done := [];
    for i := 0 to |visits|
      invariant done == visits[..i]
      invariant fresh(container) && forall y | y in layers :: fresh(layers[y].sprite)
      invariant r == Pass && AllFit(done)
      invariant Built(container, layers, done)
      invariant initialized <==> done != []
      invariant done != [] ==> borders == Borders(done)
    {
      var v := visits[i];
      assert visits[..i + 1] == done + [v];
      r, layers := Advance(container, layers, done, v);
      AllFitStep(done, v);
      if r.Fail? {
        AllFitPrefix(visits, i + 1);
        return;
      }
      if initialized {
        BordersStep(done, v);
        borders := (MinInt(borders.0, v.0.y), MaxInt(borders.1, v.0.y));
      } else {
        initialized := true;
        borders := (v.0.y, v.0.y);
      }
      done := done + [v];
    }
    assert visits[..|visits|] == visits;
  }

  /**
   * The model loop of `toGridContainer`: for each y from `maxY` down to `minY`, the
   * layer's sprite id and least x and z, or null where no cell has that y.
   */
  method Describe(layers: map<int, Layer>, ghost vs: seq<Visit>, minY: int, maxY: int) returns (entries: seq<Json>)
    requires vs != [] && (minY, maxY) == Borders(vs)
    requires Minima(layers, vs) && forall y | y in layers :: layers[y].sprite.id == IdOf(vs, y)
    ensures entries == LayerEntries(vs)
  {
    entries := [];
    var y := maxY;
    while y >= minY
      invariant minY - 1 <= y <= maxY
      invariant |entries| == maxY - y
      invariant forall i | 0 <= i < |entries| :: entries[i] == Entry(vs, maxY - i)
    {
      if y in layers {
        var data := layers[y];
        entries := entries + [JObj([
          ("spriteId", JNum(data.sprite.id as real)),
          ("targetX", JNum(data.minX as real)),
          ("targetY", JNum(data.minZ as real))])];
      } else {
        entries := entries + [JNull];
      }
      y := y - 1;
    }
  }

  /**
   * `toGridContainer`: every cell of the grid becomes a pixel of the sprite of its
   * layer (its y), and the `model` meta object lists the layers from the top down.
   * A cell outside what sprites accept stops the export with the sprite's error; a grid
   * without cells is refused.
   */
  method ToGridContainer(grid: ColorGrids.WeightedColorGrid) returns (r: Result<Container>)
    requires grid.Valid()
    ensures var vs := grid.Visits(grid.cells[..]);
      (r.Err? <==> vs == [] || !AllFit(vs))
      && (r.Err? ==> r.error == if AllFit(vs) then NoColorInformation else OutOfTile)
      && (r.Ok? ==> vs != [] && fresh(r.value) && Exported(r.value, vs))
  {
    var visits := grid.ForEach();
    var outcome, container, layers, borders, initialized := Fill(visits);
    if outcome.Fail? {
      return Err(outcome.error);
    }
    if !initialized {
      return Err(NoColorInformation);
    }
    BuiltHolds(container, layers, visits);
    var entries := Describe(layers, visits, borders.0, borders.1);
    container.SetMetaObject(ModelKey, JObj([("format", JStr(GridFormat)), ("layers", JArr(entries))]));
    r := Ok(container);
  }
}
