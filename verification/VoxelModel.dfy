/**
 * The in-memory voxel model: layers by `y`, each layer a sparse grid of 16 x 16 tiles
 * addressed by `Math.floor(x / 16)` and `Math.floor(z / 16)`, each tile an array of 256
 * 32-bit colours in which 0 stands for "no voxel".
 */
module VoxelModels {
  import opened Common
  import Tiles
  import opened Sprites

  const Size := Tiles.Size

  /** A colour as a `Uint32Array` holds it. */
  type Color = n: int | 0 <= n < 0x1_0000_0000

  /** What `setPixel` stores for a colour argument: null becomes 0. */
  function Raw(c: Option<Color>): Color {
    if c.None? then 0 else c.value
  }

  /** `getPixelByIndex`: a stored 0 reads as null. */
  function Visible(v: int): (r: Option<int>)
    ensures r.None? <==> v == 0
    ensures r.Some? ==> r.value == v
  {
    if v == 0 then None else Some(v)
  }

  /** The entries of a tile: always 256 of them. */
  type Cells = s: seq<int> | |s| == Size * Size witness seq(Size * Size, _ => 0)

  /** The entries of a new tile: all 0. */
  function Blank(): (s: Cells)
    ensures forall i | 0 <= i < |s| :: s[i] == 0
  {
    seq(Size * Size, _ => 0)
  }

  /** The number of non-zero entries, which `filledPixelsCount` keeps. */
  function Filled(s: seq<int>): (n: nat)
    ensures n <= |s|
  {
    if s == [] then 0 else (if s[0] != 0 then 1 else 0) + Filled(s[1..])
  }

  lemma {:induction false} FilledUpdate(s: seq<int>, i: int, v: int)
    requires 0 <= i < |s|
    ensures Filled(s[i := v]) == Filled(s) - (if s[i] != 0 then 1 else 0) + (if v != 0 then 1 else 0)
  {
    if i > 0 {
      FilledUpdate(s[1..], i - 1, v);
      assert s[i := v][1..] == s[1..][i - 1 := v];
    } else {
      assert s[i := v][1..] == s[1..];
    }
  }

  /** The counter is zero exactly when every entry is 0. */
  lemma {:induction false} NoneFilled(s: seq<int>)
    ensures Filled(s) == 0 <==> forall i | 0 <= i < |s| :: s[i] == 0
  {
    if s != [] {
      NoneFilled(s[1..]);
      assert forall i | 1 <= i < |s| :: s[i] == s[1..][i - 1];
    }
  }

  // Tiles as values.

  /** `Tile.getPixel` on entries: the coordinates are checked, then a 0 reads as null. */
  function TileRead(s: Cells, x: int, z: int): (r: Result<Option<int>>)
    ensures r.Err? <==> !(0 <= x < Size && 0 <= z < Size)
    ensures r.Err? ==> r.error == Tiles.OutOfTile
    ensures r.Ok? ==> r.value == Visible(s[x + Size * z])
  {
    var index :- Tiles.GetIndex(x, z);
    Ok(Visible(s[index]))
  }

  /** `Tile.setPixel` on entries: the coordinates are checked, then the raw colour is stored. */
  function TileWrite(s: Cells, x: int, z: int, c: Option<Color>): (r: Result<Cells>)
    ensures r.Err? <==> !(0 <= x < Size && 0 <= z < Size)
    ensures r.Err? ==> r.error == Tiles.OutOfTile
  {
    var index := Tiles.GetIndex(x, z);
    if index.Err? then Err(index.error)
    else
      var t: Cells := s[index.value := Raw(c)];
      Ok(t)
  }

  /**
   * A tile reads back what was written at the written coordinates, and as before
   * everywhere else.
   */
  lemma TileReadAfterWrite(s: Cells, x: int, z: int, c: Option<Color>, x': int, z': int)
    requires TileWrite(s, x, z, c).Ok?
    ensures TileRead(TileWrite(s, x, z, c).value, x', z') ==
      if x' == x && z' == z then Ok(Visible(Raw(c))) else TileRead(s, x', z')
  {
    if TileRead(s, x', z').Ok? && (x' != x || z' != z) {
      var i, j := Tiles.GetIndex(x, z).value, Tiles.GetIndex(x', z').value;
      assert i != j by {
        assert i % Size == x && i / Size == z && j % Size == x' && j / Size == z';
      }
    }
  }

  // Layers as values.

  /** The tiles of a layer: columns by `Math.floor(x / 16)`, tiles by `Math.floor(z / 16)`. */
  type LayerValue = map<int, map<int, Cells>>

  /**
   * `Layer.getPixel`: null where the column or the tile is missing; otherwise the tile
   * is read at `x % 16` and `z % 16`, which are negative for negative coordinates.
   */
  function LayerRead(l: LayerValue, x: int, z: int): Result<Option<int>> {
    if TileOf(x) in l && TileOf(z) in l[TileOf(x)]
    then TileRead(l[TileOf(x)][TileOf(z)], InTile(x), InTile(z))
    else Ok(None)
  }

  /** The tile at `(tx, tz)`, a new one where it is missing. */
  function TileOrBlank(l: LayerValue, tx: int, tz: int): Cells {
    if tx in l && tz in l[tx] then l[tx][tz] else Blank()
  }

  /** The layer with the tile at `(tx, tz)` replaced by `s`, its column created if missing. */
  function Store(l: LayerValue, tx: int, tz: int, s: Cells): (r: LayerValue)
    ensures tx in r && tz in r[tx] && r[tx][tz] == s
  {
    l[tx := (if tx in l then l[tx] else map[])[tz := s]]
  }

  /** Storing the tile a place already holds changes nothing. */
  lemma StoreSame(l: LayerValue, tx: int, tz: int)
    requires tx in l && tz in l[tx]
    ensures Store(l, tx, tz, l[tx][tz]) == l
  {
    assert l[tx][tz := l[tx][tz]] == l[tx];
  }

  /**
   * `Layer.setPixel` with the coordinates `lx`, `lz` handed to the tile: a 0 or null
   * colour where the column or the tile is missing creates nothing; otherwise the
   * missing column and tile are created, and stay created when the tile refuses the
   * coordinates.
   */
  function LayerWriteWith(l: LayerValue, x: int, z: int, c: Option<Color>, lx: int, lz: int): (Outcome, LayerValue) {
    var tx, tz := TileOf(x), TileOf(z);
    if Raw(c) == 0 && !(tx in l && tz in l[tx]) then (Pass, l)
    else
      var s := TileOrBlank(l, tx, tz);
      var written := TileWrite(s, lx, lz, c);
      if written.Err? then (Fail(written.error), Store(l, tx, tz, s))
      else (Pass, Store(l, tx, tz, written.value))
  }

  /** `Layer.setPixel` as written: the tile gets the layer coordinates themselves. */
  function LayerWriteAsWritten(l: LayerValue, x: int, z: int, c: Option<Color>): (Outcome, LayerValue) {
    LayerWriteWith(l, x, z, c, x, z)
  }

  /** `Layer.setPixel` as evidently intended: the tile gets `x % 16` and `z % 16`, as `getPixel` reads them. */
  function LayerWrite(l: LayerValue, x: int, z: int, c: Option<Color>): (Outcome, LayerValue) {
    LayerWriteWith(l, x, z, c, InTile(x), InTile(z))
  }

  /**
   * The intended `setPixel` succeeds exactly for the coordinates the tiles accept (or
   * when a 0 or null colour meets a missing tile); afterwards `getPixel` returns the
   * written colour there, 0 reading as null, and every other accepted coordinate reads
   * as before.
   */
  lemma LayerReadAfterWrite(l: LayerValue, x: int, z: int, c: Option<Color>, x': int, z': int)
    ensures LayerWrite(l, x, z, c).0.Fail? <==>
      !(Fits(x) && Fits(z)) && (Raw(c) != 0 || (TileOf(x) in l && TileOf(z) in l[TileOf(x)]))
    ensures LayerWrite(l, x, z, c).0.Fail? ==> LayerWrite(l, x, z, c).0.error == Tiles.OutOfTile
    ensures Fits(x) && Fits(z) ==> LayerRead(LayerWrite(l, x, z, c).1, x, z) == Ok(Visible(Raw(c)))
    ensures Fits(x') && Fits(z') && (x' != x || z' != z) ==>
      LayerRead(LayerWrite(l, x, z, c).1, x', z') == LayerRead(l, x', z')
  {
    FitsSplit(x);
    FitsSplit(z);
    FitsSplit(x');
    FitsSplit(z');
    var tx, tz := TileOf(x), TileOf(z);
    if !(Raw(c) == 0 && !(tx in l && tz in l[tx])) {
      var s := TileOrBlank(l, tx, tz);
      if Fits(x) && Fits(z) {
        TileReadAfterWrite(s, InTile(x), InTile(z), c, InTile(x'), InTile(z'));
      }
    } else if Fits(x) && Fits(z) {
      assert LayerRead(l, x, z) == Ok(None);
    }
  }

  /** A 0 or null colour where the tile is missing changes nothing. */
  lemma NoTileForNothing(l: LayerValue, x: int, z: int, c: Option<Color>)
    requires Raw(c) == 0 && !(TileOf(x) in l && TileOf(z) in l[TileOf(x)])
    ensures LayerWrite(l, x, z, c) == (Pass, l)
    ensures LayerWriteAsWritten(l, x, z, c) == (Pass, l)
  {
  }

  /**
   * As written, `setPixel` succeeds only inside the tile at the origin: outside it
   * every colour is refused, after the column and tile for it have been created.
   */
  lemma AsWrittenOnlyFirstTile(l: LayerValue, x: int, z: int, c: Option<Color>)
    requires Raw(c) != 0
    ensures LayerWriteAsWritten(l, x, z, c).0.Pass? <==> 0 <= x < Size && 0 <= z < Size
    ensures TileOf(x) in LayerWriteAsWritten(l, x, z, c).1
  {
  }

  /** Voxel (16, 0) of an empty layer: refused as written, stored and read back as intended. */
  lemma SecondTileCounterexample()
    ensures LayerWriteAsWritten(map[], 16, 0, Some(7)) == (Fail(Tiles.OutOfTile), map[1 := map[0 := Blank()]])
    ensures LayerWrite(map[], 16, 0, Some(7)).0 == Pass
    ensures LayerRead(LayerWrite(map[], 16, 0, Some(7)).1, 16, 0) == Ok(Some(7))
  {
    assert TileOf(16) == 1 && TileOf(0) == 0;
    LayerReadAfterWrite(map[], 16, 0, Some(7), 16, 0);
  }

  /** The TypeError `Layer.cleanUp` raises: `isEmpty` is a getter, not a method. */
  const IsEmptyNotAFunction := "tile.isEmpty is not a function"

  /** Some column holds a tile. */
  predicate HasTile(l: LayerValue) {
    exists tx | tx in l :: l[tx] != map[]
  }

  /**
   * `Layer.cleanUp` as written on a layer without empty columns: the call of the getter
   * throws at the first tile, before anything is deleted.
   */
  function LayerCleanUpAsWritten(l: LayerValue): (Outcome, LayerValue) {
    if HasTile(l) then (Fail(IsEmptyNotAFunction), l) else (Pass, map[])
  }

  /** The tiles of a column that hold a colour. */
  function Kept(column: map<int, Cells>): map<int, Cells> {
    map tz | tz in column && Filled(column[tz]) != 0 :: column[tz]
  }

  /**
   * `Layer.cleanUp` as evidently intended: tiles without a colour are dropped, and then
   * the columns left without a tile.
   */
  function LayerCleaned(l: LayerValue): (r: LayerValue)
    ensures forall tx | tx in r :: r[tx] != map[]
  {
    map tx | tx in l && Kept(l[tx]) != map[] :: Kept(l[tx])
  }

  /** As written, cleaning up throws for any layer that holds a tile, even an empty one. */
  lemma CleanUpAsWrittenThrows(l: LayerValue, tx: int, tz: int)
    requires tx in l && tz in l[tx]
    ensures LayerCleanUpAsWritten(l) == (Fail(IsEmptyNotAFunction), l)
  {
  }

  /**
   * The intended clean-up keeps every tile holding a colour and changes no pixel at
   * the coordinates the tiles accept.
   */
  lemma CleanedReadsSame(l: LayerValue, x: int, z: int)
    requires Fits(x) && Fits(z)
    ensures LayerRead(LayerCleaned(l), x, z) == LayerRead(l, x, z)
    ensures forall tx, tz | tx in l && tz in l[tx] && Filled(l[tx][tz]) != 0 ::
      tx in LayerCleaned(l) && tz in LayerCleaned(l)[tx] && LayerCleaned(l)[tx][tz] == l[tx][tz]
  {
    FitsSplit(x);
    FitsSplit(z);
    var tx, tz := TileOf(x), TileOf(z);
    if tx in l && tz in l[tx] && Filled(l[tx][tz]) == 0 {
      NoneFilled(l[tx][tz]);
    }
    forall tx, tz | tx in l && tz in l[tx] && Filled(l[tx][tz]) != 0
      ensures tx in LayerCleaned(l) && tz in LayerCleaned(l)[tx]
    {
      assert tz in Kept(l[tx]);
    }
  }

  // Models as values.

  /** The layers of a model by `y`. */
  type ModelValue = map<int, LayerValue>

  /** `getVoxel`: null where the layer is missing, otherwise the layer's pixel. */
  function ModelRead(m: ModelValue, x: int, y: int, z: int): Result<Option<int>> {
    if y in m then LayerRead(m[y], x, z) else Ok(None)
  }

  /**
   * `setVoxel`: a 0 or null colour where the layer is missing creates nothing; otherwise
   * the missing layer is created and the layer's pixel set.
   */
  function ModelWrite(m: ModelValue, x: int, y: int, z: int, c: Option<Color>): (Outcome, ModelValue) {
    if y !in m && Raw(c) == 0 then (Pass, m)
    else
      var written := LayerWrite(if y in m then m[y] else map[], x, z, c);
      (written.0, m[y := written.1])
  }

  /**
   * After `setVoxel`, `getVoxel` returns the written colour (0 reading as null) at the
   * coordinates the tiles accept, and every other accepted voxel reads as before.
   */
  lemma ModelReadAfterWrite(m: ModelValue, x: int, y: int, z: int, c: Option<Color>, x': int, y': int, z': int)
    ensures ModelWrite(m, x, y, z, c).0.Pass? <==>
      (Fits(x) && Fits(z)) || (Raw(c) == 0 && !(y in m && TileOf(x) in m[y] && TileOf(z) in m[y][TileOf(x)]))
    ensures Fits(x) && Fits(z) ==> ModelRead(ModelWrite(m, x, y, z, c).1, x, y, z) == Ok(Visible(Raw(c)))
    ensures Fits(x') && Fits(z') && (x' != x || y' != y || z' != z) ==>
      ModelRead(ModelWrite(m, x, y, z, c).1, x', y', z') == ModelRead(m, x', y', z')
  {
    var l := if y in m then m[y] else map[];
    LayerReadAfterWrite(l, x, z, c, x', z');
    LayerReadAfterWrite(l, x, z, c, x, z);
  }

  /** `cleanUp`: the layers without a column are dropped. */
  function ModelCleaned(m: ModelValue): (r: ModelValue)
    ensures forall y | y in r :: r[y] != map[]
  {
    map y | y in m && m[y] != map[] :: m[y]
  }

  /** Dropping the layers without a column changes no voxel. */
  lemma ModelCleanedReadsSame(m: ModelValue, x: int, y: int, z: int)
    ensures ModelRead(ModelCleaned(m), x, y, z) == ModelRead(m, x, y, z)
    ensures forall y' | y' in m && m[y'] != map[] :: y' in ModelCleaned(m) && ModelCleaned(m)[y'] == m[y']
  {
  }

  // The objects.

  /** The `Tile` object: its colours are an array and its counter a field, both updated by `setPixel`. */
  class Tile {
    var filledPixelsCount: int
    const data: array<int>

    /** The counter is the number of non-zero colours. */
    ghost predicate Valid()
      reads this, data
    {
      data.Length == Size * Size && filledPixelsCount == Filled(data[..])
    }

    function Entries(): Cells
      requires data.Length == Size * Size
      reads data
    {
      data[..]
    }

    /** A new tile: all 256 colours 0 and a zero counter. */
    constructor ()
      ensures Valid() && Entries() == Blank() && fresh(data)
    {
      filledPixelsCount := 0;
      data := new int[Size * Size];
      new;
      for index := 0 to data.Length
        invariant filledPixelsCount == 0
        invariant forall j | 0 <= j < index :: data[j] == 0
      {
        data[index] := 0;
      }
      assert data[..] == Blank();
      NoneFilled(Blank());
    }

    /** `isEmpty`: the counter is zero, that is, every colour is 0. */
    function IsEmpty(): (r: bool)
      requires Valid()
      reads this, data
      ensures r <==> Filled(Entries()) == 0
      ensures r <==> forall i | 0 <= i < Size * Size :: data[i] == 0
    {
      NoneFilled(data[..]);
      filledPixelsCount == 0
    }

    /** `getPixel`: the entries read at the checked coordinates. */
    function GetPixel(x: int, z: int): (r: Result<Option<int>>)
      requires data.Length == Size * Size
      reads data
      ensures r == TileRead(Entries(), x, z)
    {
      var index := Tiles.GetIndex(x, z);
      if index.Err? then Err(index.error) else Ok(Visible(data[index.value]))
    }

    /**
     * `setPixel`: null is stored as 0, the coordinates are checked, and the counter is
     * adjusted when a 0 becomes a colour or a colour becomes 0, so it keeps counting
     * the non-zero colours.
     */
    method SetPixel(x: int, z: int, color: Option<Color>) returns (r: Outcome)
      requires Valid()
      modifies this, data
      ensures Valid()
      ensures var w := TileWrite(old(Entries()), x, z, color);
        r == (if w.Err? then Fail(w.error) else Pass) && Entries() == if w.Err? then old(Entries()) else w.value
    {
      var c := Raw(color);
      var index := Tiles.GetIndex(x, z);
      if index.Err? {
        return Fail(index.error);
      }
      var i := index.value;
      var oldColor := Visible(data[i]);
      if c == 0 && oldColor.Some? {
        filledPixelsCount := filledPixelsCount - 1;
      } else if c != 0 && oldColor.None? {
        filledPixelsCount := filledPixelsCount + 1;
      }
      FilledUpdate(data[..], i, c);
      data[i] := c;
      r := Pass;
    }
  }

  /**
   * The `Layer` object. Its tiles are held by value: `tiles` maps each column index to
   * the entries of its tiles by tile index, and a tile's counter is `Filled` of its
   * entries, as `Tile.Valid` keeps it.
   */
  class Layer {
    var tiles: LayerValue

    constructor ()
      ensures tiles == map[]
    {
      tiles := map[];
    }

    /** `isEmpty`: the layer has no column. */
    function IsEmpty(): (r: bool)
      reads this
      ensures r <==> tiles == map[]
    {
      |tiles| == 0
    }

    /** `getPixel`: what `LayerRead` specifies. */
    method GetPixel(x: int, z: int) returns (r: Result<Option<int>>)
      ensures r == LayerRead(tiles, x, z)
    {
      var tx := TileOf(x);
      if tx in tiles {
        var column := tiles[tx];
        var tz := TileOf(z);
        if tz in column {
          return TileRead(column[tz], InTile(x), InTile(z));
        }
      }
      return Ok(None);
    }

    /**
     * `setPixel` as evidently intended: a 0 or null colour where the column, or else
     * the tile, is missing returns at once; otherwise the column and tile are found or
     * created and the tile is set at `x % 16`, `z % 16`.
     */
    method SetPixel(x: int, z: int, color: Option<Color>) returns (r: Outcome)
      modifies this
      ensures (r, tiles) == LayerWrite(old(tiles), x, z, color)
    {
      var tx := TileOf(x);
      if tx !in tiles {
        if Raw(color) == 0 {
          return Pass;
        }
        tiles := tiles[tx := map[]];
      }
      var column: map<int, Cells> := tiles[tx];
      var tz := TileOf(z);
      if tz !in column {
        if Raw(color) == 0 {
          return Pass;
        }
        column := column[tz := Blank()];
        tiles := tiles[tx := column];
      } else {
        StoreSame(tiles, tx, tz);
      }
      assert tiles == Store(old(tiles), tx, tz, TileOrBlank(old(tiles), tx, tz));
      assert column[tz] == TileOrBlank(old(tiles), tx, tz);
      assert !(Raw(color) == 0 && !(tx in old(tiles) && tz in old(tiles)[tx]));
      var written := TileWrite(column[tz], InTile(x), InTile(z), color);
      if written.Err? {
        return Fail(written.error);
      }
      var tile: Cells := written.value;
      assert column[tz := tile] == (if tx in old(tiles) then old(tiles)[tx] else map[])[tz := tile];
      tiles := tiles[tx := column[tz := tile]];
      assert tiles == Store(old(tiles), tx, tz, tile);
      return Pass;
    }

    /**
     * `cleanUp` as evidently intended: each tile whose counter is zero is dropped from
     * its column, and then each column left empty.
     */
    method CleanUp()
      modifies this
      ensures tiles == LayerCleaned(old(tiles))
    {
      var columns := tiles.Keys;
      while exists tx :: tx in columns
        invariant columns <= old(tiles).Keys
        invariant tiles == CleanedBut(old(tiles), columns)
        decreases columns
      {
        var tx :| tx in columns;
        CleanedButStep(old(tiles), columns, tx);
        columns := columns - {tx};
        var column := KeepFilled(tiles[tx]);
        if |column| == 0 {
          tiles := tiles - {tx};
        } else {
          tiles := tiles[tx := column];
        }
      }
      CleanedAll(old(tiles));
    }
  }

  /** The tiles of a column whose counter is not zero (the inner loop of `cleanUp`). */
  method KeepFilled(column: map<int, Cells>) returns (kept: map<int, Cells>)
    ensures kept == Kept(column)
  {
    kept := column;
    var todo := column.Keys;
    while exists tz :: tz in todo
      invariant todo <= column.Keys
      invariant kept == map tz | tz in column && (tz in todo || Filled(column[tz]) != 0) :: column[tz]
      decreases todo
    {
      var tz :| tz in todo;
      todo := todo - {tz};
      if Filled(column[tz]) == 0 {
        kept := kept - {tz};
      }
    }
  }

  /** The layer with the columns outside `todo` cleaned up. */
  function CleanedBut(l: LayerValue, todo: set<int>): LayerValue {
    map tx | tx in l && (tx in todo || Kept(l[tx]) != map[]) :: if tx in todo then l[tx] else Kept(l[tx])
  }

  /** Cleaning up one more column. */
  lemma CleanedButStep(l: LayerValue, todo: set<int>, tx: int)
    requires tx in todo && tx in l
    ensures CleanedBut(l, todo - {tx}) ==
      if Kept(l[tx]) == map[] then CleanedBut(l, todo) - {tx} else CleanedBut(l, todo)[tx := Kept(l[tx])]
  {
  }

  lemma CleanedAll(l: LayerValue)
    ensures CleanedBut(l, {}) == LayerCleaned(l)
  {
  }

  /**
   * The `VoxelModel` object: layers by `y`, and the ghost `Contents` holding their
   * tiles. The ghost `level` records the `y` of each layer, so that no two levels share
   * a layer.
   */
  class VoxelModel {
    var layers: map<int, Layer>
    ghost var Contents: ModelValue
    ghost var Repr: set<object>
    ghost var level: map<Layer, int>

    /** Every layer belongs to the model and to its level alone, and holds what `Contents` records. */
    ghost predicate Valid()
      reads this, Repr
    {
      this in Repr
      && Contents.Keys == layers.Keys
      && forall y | y in layers ::
        layers[y] in Repr && layers[y] in level && level[layers[y]] == y && layers[y].tiles == Contents[y]
    }

    constructor ()
      ensures Valid() && Contents == map[] && fresh(Repr)
    {
      layers := map[];
      Contents := map[];
      Repr := {this};
      level := map[];
    }

    /** `getVoxel`: what `ModelRead` specifies. */
    method GetVoxel(x: int, y: int, z: int) returns (r: Result<Option<int>>)
      requires Valid()
      ensures r == ModelRead(Contents, x, y, z)
    {
      if y !in layers {
        return Ok(None);
      }
      var layer := layers[y];
      r := layer.GetPixel(x, z);
    }

    /**
     * `setVoxel`: a 0 or null colour where the layer is missing returns at once;
     * otherwise the layer is found or created and its pixel set.
     */
    method SetVoxel(x: int, y: int, z: int, color: Option<Color>) returns (r: Outcome)
      requires Valid()
      modifies Repr
      ensures Valid() && fresh(Repr - old(Repr))
      ensures (r, Contents) == ModelWrite(old(Contents), x, y, z, color)
    {
      if y !in layers {
        if Raw(color) == 0 {
          return Pass;
        }
        AddLayer(y);
      }
      ghost var before := Contents;
      r := SetIn(y, x, z, color);
      assert Contents == old(Contents)[y := Contents[y]] by {
        assert before == old(Contents) || before == old(Contents)[y := map[]];
      }
    }

    /** The layer at `y` set at `(x, z)`; no other layer changes. */
    method SetIn(y: int, x: int, z: int, color: Option<Color>) returns (r: Outcome)
      requires Valid() && y in layers
      modifies Repr
      ensures Valid() && Repr == old(Repr)
      ensures (r, Contents) == (LayerWrite(old(Contents)[y], x, z, color).0, old(Contents)[y := LayerWrite(old(Contents)[y], x, z, color).1])
    {
      var layer := layers[y];
      r := layer.SetPixel(x, z, color);
      Contents := Contents[y := layer.tiles];
      forall y' | y' in layers && y' != y
        ensures layers[y'].tiles == Contents[y']
      {
        assert level[layers[y']] != level[layer];
      }
    }

    /** A new layer at `y`, which has none. */
    method AddLayer(y: int)
      requires Valid() && y !in layers
      modifies this
      ensures Valid() && fresh(Repr - old(Repr))
      ensures y in layers && Contents == old(Contents)[y := map[]]
    {
      var layer := new Layer();
      layers := layers[y := layer];
      Contents := Contents[y := map[]];
      Repr := Repr + {layer};
      level := level[layer := y];
    }

    /** `cleanUp`: the layers without a column are dropped. */
    method CleanUp()
      requires Valid()
      modifies this
      ensures Valid() && Repr == old(Repr)
      ensures Contents == ModelCleaned(old(Contents))
    {
      var todo := layers.Keys;
      while exists y :: y in todo
        invariant todo <= layers.Keys
        invariant Valid() && Repr == old(Repr)
        invariant Contents == ModelCleanedBut(old(Contents), todo)
        decreases todo
      {
        var y :| y in todo;
        ModelCleanedButStep(old(Contents), todo, y);
        todo := todo - {y};
        if layers[y].IsEmpty() {
          Drop(y);
        }
      }
    }

    /** The layer at `y` deleted. */
    method Drop(y: int)
      requires Valid() && y in layers
      modifies this
      ensures Valid() && Repr == old(Repr)
      ensures layers.Keys == old(layers.Keys) - {y} && Contents == old(Contents) - {y}
    {
      layers := layers - {y};
      Contents := Contents - {y};
      forall y' | y' in layers
        ensures layers[y'].tiles == Contents[y']
      {
        assert old(layers[y'].tiles == Contents[y']);
      }
    }
  }

  /** The model with the layers outside `todo` cleaned up. */
  function ModelCleanedBut(m: ModelValue, todo: set<int>): ModelValue {
    map y | y in m && (y in todo || m[y] != map[]) :: m[y]
  }

  /** Cleaning up one more layer. */
  lemma ModelCleanedButStep(m: ModelValue, todo: set<int>, y: int)
    requires y in todo && y in m
    ensures ModelCleanedBut(m, todo - {y}) ==
      if m[y] == map[] then ModelCleanedBut(m, todo) - {y} else ModelCleanedBut(m, todo)
  {
  }
}
