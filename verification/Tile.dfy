/**
 * The 16 x 16 bitmap fragment of the container format: 256 entries, each a 32-bit
 * colour or null, and a counter that `setPixel` adjusts when an entry turns null or
 * stops being null.
 */
module Tiles {
  import opened Common

  /** `Tile.SIZE`. */
  const Size := 16

  const OutOfTile := "Coordinate is out of tile bounds."
  const NotAColor := "Only integers and null are allowed!"

  /** A colour as passed to `setPixel`: an integer, null, or any other value. */
  datatype ColorArg = Integer(n: int) | NullColor | NotInteger

  /** `Tile.checkBounds`. */
  function CheckBounds(n: int): (r: Outcome)
    ensures r.Pass? <==> 0 <= n < Size
    ensures r.Fail? ==> r.error == OutOfTile
  {
    if n < 0 || n >= Size then Fail(OutOfTile) else Pass
  }

  /** `Tile.checkColor`. */
  function CheckColor(c: ColorArg): (r: Outcome)
    ensures r.Pass? <==> !c.NotInteger?
    ensures r.Fail? ==> r.error == NotAColor
  {
    if c.NotInteger? then Fail(NotAColor) else Pass
  }

  /** What an accepted colour argument stores: the integer, or null. */
  function Stored(c: ColorArg): Option<int>
    requires !c.NotInteger?
  {
    if c.NullColor? then None else Some(c.n)
  }

  /**
   * `Tile.getIndex`: row-major over 16 columns. Both coordinates are checked, x first;
   * an accepted pair is read back from the index by `%` and `/`.
   */
  function GetIndex(x: int, y: int): (r: Result<int>)
    ensures r.Ok? <==> 0 <= x < Size && 0 <= y < Size
    ensures r.Err? ==> r.error == OutOfTile
    ensures r.Ok? ==> 0 <= r.value < Size * Size && r.value % Size == x && r.value / Size == y
  {
    if CheckBounds(x).Fail? then Err(CheckBounds(x).error)
    else if CheckBounds(y).Fail? then Err(CheckBounds(y).error)
    else
      DivModUnique(x + Size * y, Size, y, x);
      Ok(x + Size * y)
  }

  /** The entries of a new tile: 256 entries holding 0, not null. */
  function Zeros(): (s: seq<Option<int>>)
    ensures |s| == Size * Size && forall i | 0 <= i < |s| :: s[i] == Some(0)
  {
    seq(Size * Size, _ => Some(0))
  }

  /** The entries of a tile, always 256 of them. */
  type TileData = s: seq<Option<int>> | |s| == Size * Size witness Zeros()

  /** The state of a tile: its entries `data` and its `filledPixelsCount`. */
  datatype TileState = TileState(data: TileData, filled: int)

  /** A new tile: zero entries and a zero counter. */
  const FreshTile := TileState(Zeros(), 0)

  /** The number of entries that are not null. */
  function NonNull(s: seq<Option<int>>): (n: nat)
    ensures n <= |s|
  {
    if s == [] then 0 else (if s[0].Some? then 1 else 0) + NonNull(s[1..])
  }

  /**
   * The invariant `setPixel` keeps from a fresh tile: the counter is the number of
   * non-null entries minus 256, because the entries start as 0 rather than null.
   */
  predicate Counted(t: TileState) {
    t.filled == NonNull(t.data) - Size * Size
  }

  /** `getPixel` on a tile state. */
  function PixelAt(t: TileState, x: int, y: int): (r: Result<Option<int>>)
    ensures r.Err? <==> GetIndex(x, y).Err?
    ensures r.Ok? ==> r.value == t.data[x + Size * y]
  {
    var index :- GetIndex(x, y);
    Ok(t.data[index])
  }

  /**
   * The entry `index` set to `c`; the counter drops when a non-null entry becomes null
   * and grows when a null entry becomes non-null.
   */
  function Put(t: TileState, index: int, c: Option<int>): TileState
    requires 0 <= index < |t.data|
  {
    var old_ := t.data[index];
    var delta := if c.None? && old_.Some? then -1 else if c.Some? && old_.None? then 1 else 0;
    TileState(t.data[index := c], t.filled + delta)
  }

  /** `setPixel` on a tile state: the outcome and the new state (unchanged when refused). */
  function Write(t: TileState, x: int, y: int, c: ColorArg): (Outcome, TileState)
  {
    if CheckColor(c).Fail? then (CheckColor(c), t)
    else
      var index := GetIndex(x, y);
      if index.Err? then (Fail(index.error), t)
      else (Pass, Put(t, index.value, Stored(c)))
  }

  lemma {:induction false} NonNullUpdate(s: seq<Option<int>>, i: int, c: Option<int>)
    requires 0 <= i < |s|
    ensures NonNull(s[i := c]) == NonNull(s) - (if s[i].Some? then 1 else 0) + (if c.Some? then 1 else 0)
  {
    if i > 0 {
      NonNullUpdate(s[1..], i - 1, c);
      assert s[i := c][1..] == s[1..][i - 1 := c];
    } else {
      assert s[i := c][1..] == s[1..];
    }
  }

  lemma {:induction false} NonNullAll(s: seq<Option<int>>)
    ensures NonNull(s) == |s| <==> forall i | 0 <= i < |s| :: s[i].Some?
  {
    if s != [] {
      NonNullAll(s[1..]);
      assert forall i | 1 <= i < |s| :: s[i] == s[1..][i - 1];
    }
  }

  /** A fresh tile satisfies the counter invariant. */
  lemma FreshCounted()
    ensures Counted(FreshTile)
  {
    NonNullAll(FreshTile.data);
  }

  /** `setPixel` keeps the counter invariant. */
  lemma WriteKeepsCounted(t: TileState, x: int, y: int, c: ColorArg)
    requires Counted(t)
    ensures Counted(Write(t, x, y, c).1)
  {
    if CheckColor(c).Pass? && GetIndex(x, y).Ok? {
      NonNullUpdate(t.data, GetIndex(x, y).value, Stored(c));
    }
  }

  /**
   * `setPixel` is refused for a colour that is neither an integer nor null, then for a
   * coordinate outside 0..15; otherwise `getPixel` at the same coordinates returns the
   * stored colour and every other pixel reads as before.
   */
  lemma ReadAfterWrite(t: TileState, x: int, y: int, c: ColorArg, x': int, y': int)
    ensures Write(t, x, y, c).0.Fail? <==> c.NotInteger? || !(0 <= x < Size && 0 <= y < Size)
    ensures Write(t, x, y, c).0.Fail? ==>
      Write(t, x, y, c).1 == t && Write(t, x, y, c).0.error == if c.NotInteger? then NotAColor else OutOfTile
    ensures Write(t, x, y, c).0.Pass? ==>
      PixelAt(Write(t, x, y, c).1, x', y') == if x' == x && y' == y then Ok(Stored(c)) else PixelAt(t, x', y')
  {
    if Write(t, x, y, c).0.Pass? && GetIndex(x', y').Ok? && (x' != x || y' != y) {
      var i, j := GetIndex(x, y).value, GetIndex(x', y').value;
      assert i != j by {
        assert i % Size == x && i / Size == y && j % Size == x' && j / Size == y';
      }
    }
  }

  /**
   * `isEmpty` under the counter invariant: the counter is zero exactly when no entry is
   * null, so a fresh tile is empty and stays empty while only colours are written to it.
   */
  lemma EmptyMeansNoNull(t: TileState)
    requires Counted(t)
    ensures t.filled == 0 <==> forall i | 0 <= i < Size * Size :: t.data[i].Some?
  {
    NonNullAll(t.data);
  }

  /** Writing a colour into a fresh tile leaves its counter at zero. */
  lemma FirstWriteNotCounted(x: int, y: int, n: int)
    requires 0 <= x < Size && 0 <= y < Size
    ensures Write(FreshTile, x, y, Integer(n)) == (Pass, TileState(FreshTile.data[x + Size * y := Some(n)], 0))
  {
  }

  /** The visits of `forEachPixel` over the first `|s|` entries: (colour, x, y) of each non-null one. */
  function Pixels(s: seq<Option<int>>): seq<(int, int, int)> {
    if s == [] then []
    else
      var i := |s| - 1;
      Pixels(s[..i]) + if s[i].None? then [] else [(s[i].value, i % Size, i / Size)]
  }

  /** `forEachPixel` visits exactly the non-null entries, at their coordinates. */
  lemma {:induction false} PixelsExactly(s: seq<Option<int>>, c: int, x: int, y: int)
    requires |s| <= Size * Size
    ensures (c, x, y) in Pixels(s) <==>
      0 <= x < Size && 0 <= y && x + Size * y < |s| && s[x + Size * y] == Some(c)
  {
    if s != [] {
      var i := |s| - 1;
      PixelsExactly(s[..i], c, x, y);
      if 0 <= x < Size && 0 <= y {
        DivModUnique(x + Size * y, Size, y, x);
      }
      assert i == i % Size + Size * (i / Size);
    }
  }

  /** The `Tile` object: its entries are an array and its counter a field, both updated by `setPixel`. */
  class Tile {
    var filledPixelsCount: int
    const data: array<Option<int>>

    function State(): TileState
      requires data.Length == Size * Size
      reads this, data
    {
      TileState(data[..], filledPixelsCount)
    }

    ghost predicate Valid()
      reads this, data
    {
      data.Length == Size * Size && Counted(State())
    }

    constructor ()
      ensures data.Length == Size * Size && State() == FreshTile && Valid() && fresh(data)
    {
      filledPixelsCount := 0;
      data := new Option<int>[Size * Size];
      new;
      for index := 0 to data.Length
        invariant filledPixelsCount == 0
        invariant forall j | 0 <= j < index :: data[j] == Some(0)
      {
        data[index] := Some(0);
      }
      assert data[..] == FreshTile.data;
      FreshCounted();
    }

    /** The getter `isEmpty`: no entry of the tile is null. */
    function IsEmpty(): (b: bool)
      requires Valid()
      reads this, data
      ensures b <==> forall i | 0 <= i < data.Length :: data[i] != None
    {
      EmptyMeansNoNull(State());
      filledPixelsCount == 0
    }

    /** `getPixel`. */
    method GetPixel(x: int, y: int) returns (r: Result<Option<int>>)
      requires data.Length == Size * Size
      ensures r == PixelAt(State(), x, y)
    {
      var index :- GetIndex(x, y);
      r := Ok(data[index]);
    }

    /** `setPixel`: check the colour, then the coordinates, adjust the counter, store. */
    method SetPixel(x: int, y: int, c: ColorArg) returns (r: Outcome)
      requires Valid()
      modifies this, data
      ensures (r, State()) == Write(old(State()), x, y, c)
      ensures Valid()
    {
      WriteKeepsCounted(State(), x, y, c);
      var checked := CheckColor(c);
      if checked.Fail? {
        return checked;
      }
      var found := GetIndex(x, y);
      if found.Err? {
        return Fail(found.error);
      }
      var index := found.value;
      var oldColor := data[index];
      var color := Stored(c);
      if color.None? && oldColor.Some? {
        filledPixelsCount := filledPixelsCount - 1;
      } else if color.Some? && oldColor.None? {
        filledPixelsCount := filledPixelsCount + 1;
      }
      data[index] := color;
      r := Pass;
    }

    /** `forEachPixel`: the non-null entries in index order. */
    method ForEachPixel() returns (visits: seq<(int, int, int)>)
      ensures visits == Pixels(data[..])
    {
      visits := [];
      for index := 0 to data.Length
        invariant visits == Pixels(data[..index])
      {
        assert data[..index + 1][..index] == data[..index];
        var color := data[index];
        if color != None {
          visits := visits + [(color.value, index % Size, index / Size)];
        }
      }
      assert data[..data.Length] == data[..];
    }
  }
}
