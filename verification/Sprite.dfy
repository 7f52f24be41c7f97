/**
 * A sprite of the container format: an unbounded bitmap stored as columns of 16 x 16
 * tiles, created on the first write of a colour into them.
 */
module Sprites {
  import opened Common
  import opened Tiles

  /** The `tiles` of a sprite: tile column index, then tile row index, then the tile. */
  type Columns = map<int, map<int, TileState>>

  const NotAnId := "`id` must be an integer!"

  /** The constructor's check on its argument: a number with an integer value. */
  function CheckId(id: Json): (r: Outcome)
    ensures r.Pass? <==> id.JNum? && IsInteger(id.n)
    ensures r.Fail? ==> r.error == NotAnId
  {
    if !id.JNum? || !IsInteger(id.n) then Fail(NotAnId) else Pass
  }

  /** Every stored tile keeps the counter invariant of a tile. */
  ghost predicate TilesCounted(tiles: Columns) {
    forall tx, ty | tx in tiles && ty in tiles[tx] :: Counted(tiles[tx][ty])
  }

  /** `Math.floor(n / Tile.SIZE)`: the index of the tile holding coordinate `n`. */
  function TileOf(n: int): int {
    n / Size
  }

  /** `n % Tile.SIZE`: the coordinate inside the tile, negative for a negative `n`. */
  function InTile(n: int): int {
    JsRem(n, Size)
  }

  /** `getPixel` on sprite tiles: null where the column or the tile is missing. */
  function PixelOf(tiles: Columns, x: int, y: int): Result<Option<int>>
  {
    if TileOf(x) in tiles && TileOf(y) in tiles[TileOf(x)]
    then PixelAt(tiles[TileOf(x)][TileOf(y)], InTile(x), InTile(y))
    else Ok(None)
  }

  /** The column `tx`, or the empty column `setPixel` would create. */
  function ColumnAt(tiles: Columns, tx: int): map<int, TileState> {
    if tx in tiles then tiles[tx] else map[]
  }

  /** The tile `ty` of a column, or the fresh tile `setPixel` would create. */
  function TileAt(column: map<int, TileState>, ty: int): TileState {
    if ty in column then column[ty] else FreshTile
  }

  lemma TileAtCounted(tiles: Columns, tx: int, ty: int)
    requires TilesCounted(tiles)
    ensures Counted(TileAt(ColumnAt(tiles, tx), ty))
  {
    FreshCounted();
  }

  /**
   * `setPixel` on sprite tiles: the outcome and the new tiles. A null colour creates
   * nothing; a colour creates the missing column and tile, which stay created even
   * when the tile then refuses the coordinates.
   */
  function PutPixel(tiles: Columns, x: int, y: int, c: ColorArg): (Outcome, Columns)
  {
    if CheckColor(c).Fail? then (CheckColor(c), tiles)
    else if c.NullColor? && !(TileOf(x) in tiles && TileOf(y) in tiles[TileOf(x)]) then (Pass, tiles)
    else
      var column := ColumnAt(tiles, TileOf(x));
      var written := Write(TileAt(column, TileOf(y)), InTile(x), InTile(y), c);
      (written.0, tiles[TileOf(x) := column[TileOf(y) := written.1]])
  }

  /** A coordinate the tiles accept: its remainder by 16 is not negative. */
  predicate Fits(n: int) {
    InTile(n) >= 0
  }

  /** A fitting coordinate is the tile index times 16 plus the coordinate inside the tile. */
  lemma FitsSplit(n: int)
    ensures Fits(n) ==> 0 <= InTile(n) < Size && n == TileOf(n) * Size + InTile(n)
  {
  }

  /** Storing a counted tile keeps every stored tile counted. */
  lemma StoreKeepsCounted(tiles: Columns, tx: int, ty: int, t: TileState)
    requires TilesCounted(tiles) && Counted(t)
    ensures TilesCounted(tiles[tx := ColumnAt(tiles, tx)[ty := t]])
  {
  }

  lemma PutKeepsCounted(tiles: Columns, x: int, y: int, c: ColorArg)
    requires TilesCounted(tiles)
    ensures TilesCounted(PutPixel(tiles, x, y, c).1)
  {
    TileAtCounted(tiles, TileOf(x), TileOf(y));
    var tile := TileAt(ColumnAt(tiles, TileOf(x)), TileOf(y));
    WriteKeepsCounted(tile, InTile(x), InTile(y), c);
    StoreKeepsCounted(tiles, TileOf(x), TileOf(y), Write(tile, InTile(x), InTile(y), c).1);
  }

  /**
   * For fitting coordinates, `setPixel` succeeds for an integer or null colour and
   * `getPixel` at the same point returns it.
   */
  lemma GetAfterSet(tiles: Columns, x: int, y: int, c: ColorArg)
    requires Fits(x) && Fits(y) && !c.NotInteger?
    ensures PutPixel(tiles, x, y, c).0 == Pass
    ensures PixelOf(PutPixel(tiles, x, y, c).1, x, y) == Ok(Stored(c))
  {
    FitsSplit(x);
    FitsSplit(y);
    var tile := TileAt(ColumnAt(tiles, TileOf(x)), TileOf(y));
    ReadAfterWrite(tile, InTile(x), InTile(y), c, InTile(x), InTile(y));
  }

  /** `setPixel` stores into the tile of (x, y) only: every other tile keeps its presence and value. */
  lemma PutOtherTile(tiles: Columns, x: int, y: int, c: ColorArg, tx: int, ty: int)
    requires tx != TileOf(x) || ty != TileOf(y)
    ensures var next := PutPixel(tiles, x, y, c).1;
      (tx in next && ty in next[tx] <==> tx in tiles && ty in tiles[tx])
      && (tx in tiles && ty in tiles[tx] ==> next[tx][ty] == tiles[tx][ty])
  {
  }

  /** The tile of (x, y) after `setPixel`: unchanged, or the written tile. */
  lemma PutSameTile(tiles: Columns, x: int, y: int, c: ColorArg)
    ensures var next := PutPixel(tiles, x, y, c).1;
      if c.NotInteger? || (c.NullColor? && !(TileOf(x) in tiles && TileOf(y) in tiles[TileOf(x)]))
      then next == tiles
      else
        TileOf(x) in next && TileOf(y) in next[TileOf(x)] && next[TileOf(x)][TileOf(y)]
          == Write(TileAt(ColumnAt(tiles, TileOf(x)), TileOf(y)), InTile(x), InTile(y), c).1
  {
  }

  /**
   * `setPixel` leaves every other pixel reading as before, except that writing a
   * colour into a missing tile creates it, even when the tile then refuses the
   * coordinates, so that its other pixels read 0 instead of null.
   */
  lemma SetKeepsOthers(tiles: Columns, x: int, y: int, c: ColorArg, x': int, y': int)
    requires Fits(x') && Fits(y') && (x' != x || y' != y)
    ensures PixelOf(PutPixel(tiles, x, y, c).1, x', y') ==
      if c.Integer? && TileOf(x') == TileOf(x) && TileOf(y') == TileOf(y)
        && !(TileOf(x) in tiles && TileOf(y) in tiles[TileOf(x)])
      then Ok(Some(0))
      else PixelOf(tiles, x', y')
  {
    if TileOf(x') == TileOf(x) && TileOf(y') == TileOf(y) {
      PutSameTile(tiles, x, y, c);
      FitsSplit(x);
      FitsSplit(y);
      FitsSplit(x');
      FitsSplit(y');
      var tile := TileAt(ColumnAt(tiles, TileOf(x)), TileOf(y));
      ReadAfterWrite(tile, InTile(x), InTile(y), c, InTile(x'), InTile(y'));
    } else {
      PutOtherTile(tiles, x, y, c, TileOf(x'), TileOf(y'));
    }
  }

  /** A negative coordinate that is not a multiple of 16 reaches `checkBounds` and is refused. */
  lemma NegativeRefused(tiles: Columns, x: int, y: int, n: int)
    requires !Fits(x) || !Fits(y)
    ensures PutPixel(tiles, x, y, Integer(n)).0 == Fail(OutOfTile)
  {
  }

  /** An integer colour is stored exactly when both coordinates fit their tiles. */
  lemma IntegerOutcome(tiles: Columns, x: int, y: int, n: int)
    ensures PutPixel(tiles, x, y, Integer(n)).0 == if Fits(x) && Fits(y) then Pass else Fail(OutOfTile)
  {
    if Fits(x) && Fits(y) {
      GetAfterSet(tiles, x, y, Integer(n));
    } else {
      NegativeRefused(tiles, x, y, n);
    }
  }

  /** Clearing a pixel whose tile is missing creates no column and no tile. */
  lemma NullCreatesNothing(tiles: Columns, x: int, y: int)
    requires TileOf(x) !in tiles || TileOf(y) !in tiles[TileOf(x)]
    ensures PutPixel(tiles, x, y, NullColor) == (Pass, tiles)
  {
  }

  /** The visits of `forEachPixel`: colour and absolute coordinates of every non-null entry. */
  function PixelSet(tiles: Columns): set<(int, int, int)> {
    set tx, ty, v | tx in tiles && ty in tiles[tx] && v in Pixels(tiles[tx][ty].data)
      :: (v.0, tx * Size + v.1, ty * Size + v.2)
  }

  /** Every visit of `forEachPixel` is a non-null entry of an existing tile. */
  lemma PixelSetSound(tiles: Columns, c: int, x: int, y: int)
    requires (c, x, y) in PixelSet(tiles)
    ensures TileOf(x) in tiles && TileOf(y) in tiles[TileOf(x)]
    ensures tiles[TileOf(x)][TileOf(y)].data[x % Size + Size * (y % Size)] == Some(c)
  {
    var tx, ty, v :| tx in tiles && ty in tiles[tx] && v in Pixels(tiles[tx][ty].data)
      && (c, x, y) == (v.0, tx * Size + v.1, ty * Size + v.2);
    PixelsExactly(tiles[tx][ty].data, v.0, v.1, v.2);
    DivModUnique(x, Size, tx, v.1);
    DivModUnique(y, Size, ty, v.2);
  }

  /** Every non-null entry of an existing tile is visited by `forEachPixel`. */
  lemma PixelSetComplete(tiles: Columns, c: int, x: int, y: int)
    requires TileOf(x) in tiles && TileOf(y) in tiles[TileOf(x)]
    requires tiles[TileOf(x)][TileOf(y)].data[x % Size + Size * (y % Size)] == Some(c)
    ensures (c, x, y) in PixelSet(tiles)
  {
    var tile := tiles[TileOf(x)][TileOf(y)];
    PixelsExactly(tile.data, c, x % Size, y % Size);
    assert (c, x, y) == (c, TileOf(x) * Size + x % Size, TileOf(y) * Size + y % Size);
  }

  /**
   * `forEachPixel` reports a colour at (x, y) exactly when the tile holding (x, y) exists
   * and its entry there holds that colour.
   */
  lemma PixelSetExactly(tiles: Columns, c: int, x: int, y: int)
    ensures (c, x, y) in PixelSet(tiles) <==>
      TileOf(x) in tiles && TileOf(y) in tiles[TileOf(x)]
      && tiles[TileOf(x)][TileOf(y)].data[x % Size + Size * (y % Size)] == Some(c)
  {
    if (c, x, y) in PixelSet(tiles) {
      PixelSetSound(tiles, c, x, y);
    }
    if TileOf(x) in tiles && TileOf(y) in tiles[TileOf(x)]
      && tiles[TileOf(x)][TileOf(y)].data[x % Size + Size * (y % Size)] == Some(c) {
      PixelSetComplete(tiles, c, x, y);
    }
  }

  /** The `Sprite` object: its tiles are replaced and extended by `setPixel` and `clear`. */
  class Sprite {
    const id: int
    var tiles: Columns

    ghost predicate Valid()
      reads this
    {
      TilesCounted(tiles)
    }

    constructor (id: int)
      ensures this.id == id && tiles == map[] && Valid()
    {
      this.id := id;
      tiles := map[];
    }

    /** The getter `isEmpty`: no tile column exists, so every pixel reads as null. */
    function IsEmpty(): (b: bool)
      reads this
      ensures b <==> |tiles| == 0
      ensures b ==> forall x, y :: PixelOf(tiles, x, y) == Ok(None)
    {
      |tiles| == 0
    }

    /** `clear`: every tile is dropped. */
    method Clear()
      modifies this
      ensures tiles == map[] && Valid() && IsEmpty()
    {
      tiles := map[];
    }

    /** `getPixel`. */
    method GetPixel(x: int, y: int) returns (r: Result<Option<int>>)
      ensures r == PixelOf(tiles, x, y)
    {
      var tileIndexX := x / Size;
      if tileIndexX in tiles {
        var column := tiles[tileIndexX];
        var tileIndexZ := y / Size;
        if tileIndexZ in column {
          var tile := column[tileIndexZ];
          return PixelAt(tile, JsRem(x, Size), JsRem(y, Size));
        }
      }
      return Ok(None);
    }

    /** `setPixel`: check the colour, create the column and the tile when needed, write. */
    method SetPixel(x: int, y: int, c: ColorArg) returns (r: Outcome)
      requires Valid()
      modifies this
      ensures (r, tiles) == PutPixel(old(tiles), x, y, c)
      ensures Valid()
    {
      PutKeepsCounted(tiles, x, y, c);
      var checked := CheckColor(c);
      if checked.Fail? {
        return checked;
      }
      var tileIndexX := x / Size;
      if tileIndexX !in tiles {
        if c.NullColor? {
          return Pass;
        }
        tiles := tiles[tileIndexX := map[]];
      }
      var column := tiles[tileIndexX];
      var tileIndexY := y / Size;
      if tileIndexY !in column {
        if c.NullColor? {
          return Pass;
        }
        column := column[tileIndexY := FreshTile];
      }
      var tile := column[tileIndexY];
      assert tile == TileAt(ColumnAt(old(tiles), tileIndexX), tileIndexY);
      var written := Write(tile, JsRem(x, Size), JsRem(y, Size), c);
      assert column[tileIndexY := written.1] == ColumnAt(old(tiles), tileIndexX)[tileIndexY := written.1];
      tiles := tiles[tileIndexX := column[tileIndexY := written.1]];
      r := written.0;
      assert r == PutPixel(old(tiles), x, y, c).0;
      assert tiles == PutPixel(old(tiles), x, y, c).1;
    }
  }
}
