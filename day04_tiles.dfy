/**
 * A square floor of empty and occupied tiles (Rust/2025/day_04/src/main.rs),
 * held in a fixed 138 x 138 array whose outermost ring stays empty, so that
 * every tile of the data has eight neighbours in bounds. The answer counts
 * the occupied tiles whose 3 x 3 block, the tile itself included, holds at
 * most four occupied tiles.
 */
module Day04Tiles {
  import opened Wrappers

  datatype Tile = Empty | Occupied

  datatype TileError = InvalidTile(character: char)

  /** 136 is the size of the largest data file; two more for the empty ring. */
  const MapSize: nat := 136 + 2

  /** `Tile::parse`. */
  function ParseTile(c: char): (r: Result<Tile, TileError>)
    ensures r == Ok(Empty) <==> c == '.'
    ensures r == Ok(Occupied) <==> c == '@'
    ensures r.Err? <==> r == Err(InvalidTile(c))
  {
    match c
    case '.' => Ok(Empty)
    case '@' => Ok(Occupied)
    case _ => Err(InvalidTile(c))
  }

  /** How `Map::print` writes a tile. */
  function TileChar(t: Tile): char {
    if t == Empty then '.' else '@'
  }

  lemma ParseTileChar(t: Tile)
    ensures ParseTile(TileChar(t)) == Ok(t)
  {
  }

  predicate IsTileChar(c: char) {
    c == '.' || c == '@'
  }

  predicate ValidLine(line: string) {
    forall x :: 0 <= x < |line| ==> IsTileChar(line[x])
  }

  /** The tile a character that parses stands for. */
  function TileOf(c: char): Tile {
    if c == '@' then Occupied else Empty
  }

  /** What loading puts at `grid[a, b]`: character `a - 1` of line `b - 1`, or an empty tile. */
  function Loaded(lines: seq<string>, a: int, b: int): Tile {
    if 1 <= b <= |lines| && 1 <= a <= |lines[b - 1]| then TileOf(lines[b - 1][a - 1]) else Empty
  }

  class Map {
    const grid: array2<Tile>
    var sizeOverride: nat

    ghost predicate Valid()
      reads this
    {
      grid.Length0 == MapSize && grid.Length1 == MapSize
    }

    constructor Blank()
      ensures Valid() && fresh(grid) && sizeOverride == 0
      ensures forall a, b :: 0 <= a < MapSize && 0 <= b < MapSize ==> grid[a, b] == Empty
    {
      grid := new Tile[MapSize, MapSize]((a, b) => Empty);
      sizeOverride := 0;
    }

    /**
     * `Map::is_accessable`: counts the occupied tiles of the 3 x 3 block
     * around (`cx`, `cy`), centre included, and accepts at most four.
     */
    method IsAccessible(cx: nat, cy: nat) returns (r: bool)
      requires Valid() && 1 <= cx <= MapSize - 2 && 1 <= cy <= MapSize - 2
      ensures r <==> BlockCount(grid, cx, cy) <= 4
    {
      var occupied := 0;
      for y := cy - 1 to cy + 2
        invariant occupied == CountBox(grid, cx - 1, cx + 2, cy - 1, y)
      {
        for x := cx - 1 to cx + 2
          invariant occupied == CountBox(grid, cx - 1, cx + 2, cy - 1, y) + CountRow(grid, y, cx - 1, x)
        {
          if grid[x, y] == Occupied {
            occupied := occupied + 1;
          }
        }
      }
      r := occupied <= 4;
    }

    /**
     * `Map::accessable_tiles`: visits the `sizeOverride` x `sizeOverride`
     * data square row by row and counts its accessible occupied tiles. It
     * only reads the grid.
     */
    method AccessibleTiles() returns (count: nat)
      requires Valid() && sizeOverride <= MapSize - 2
      ensures count == AccessibleCount(grid, sizeOverride)
      ensures count <= CountBox(grid, 1, sizeOverride + 1, 1, sizeOverride + 1)
    {
      var n := sizeOverride;
      count := 0;
      for y := 1 to n + 1
        invariant count == AccessibleRows(grid, n, y)
      {
        for x := 1 to n + 1
          invariant count == AccessibleRows(grid, n, y) + AccessibleInRow(grid, y, x)
        {
          if grid[x, y] == Empty {
            continue;
          }
          var accessible := IsAccessible(x, y);
          if accessible {
            count := count + 1;
          }
        }
      }
      AccessibleAtMostOccupied(grid, n, n + 1);
    }
  }

  /**
   * `Map::load_from_file`, fed the lines of the file: character `x` of line
   * `y` goes to `grid[x + 1, y + 1]`; the first character that is no tile is
   * the error. Indexing past the array panics in the source, hence the
   * bounds on the input.
   */
  method LoadFromLines(lines: seq<string>) returns (r: Result<Map, TileError>)
    requires |lines| <= MapSize - 1
    requires forall y :: 0 <= y < |lines| ==> |lines[y]| <= MapSize - 1
    ensures r.Err? <==> exists y :: 0 <= y < |lines| && !ValidLine(lines[y])
    ensures r.Err? ==> exists y, x ::
      (0 <= y < |lines| && 0 <= x < |lines[y]|
       && (forall k :: 0 <= k < y ==> ValidLine(lines[k]))
       && (forall k :: 0 <= k < x ==> IsTileChar(lines[y][k]))
       && !IsTileChar(lines[y][x]) && r.error == InvalidTile(lines[y][x]))
    ensures r.Ok? ==> fresh(r.value) && fresh(r.value.grid) && r.value.Valid()
    ensures r.Ok? ==> r.value.sizeOverride == |lines|
    ensures r.Ok? ==> forall a, b :: 0 <= a < MapSize && 0 <= b < MapSize ==>
      r.value.grid[a, b] == Loaded(lines, a, b)
  {
    var loaded := new Map.Blank();
    var sizeOverride := 0;
    for y := 0 to |lines|
      invariant loaded.Valid() && fresh(loaded.grid)
      invariant sizeOverride == y
      invariant forall k :: 0 <= k < y ==> ValidLine(lines[k])
      invariant forall a, b :: 0 <= a < MapSize && 0 <= b < MapSize ==>
        loaded.grid[a, b] == Loaded(lines[..y], a, b)
    {
      var line := lines[y];
      for x := 0 to |line|
        invariant loaded.Valid()
        invariant forall k :: 0 <= k < x ==> IsTileChar(line[k])
        invariant forall a, b :: 0 <= a < MapSize && 0 <= b < MapSize ==>
          loaded.grid[a, b] == if b == y + 1 && 1 <= a <= x then TileOf(line[a - 1])
                            else Loaded(lines[..y], a, b)
      {
        var tile := ParseTile(line[x]);
        if tile.Err? {
          return Err(tile.error);
        }
        loaded.grid[x + 1, y + 1] := tile.value;
      }
      sizeOverride := y + 1;
      assert forall k :: 0 <= k < y ==> lines[..y + 1][k] == lines[..y][k];
    }
    assert lines[..|lines|] == lines;
    loaded.sizeOverride := sizeOverride;
    r := Ok(loaded);
  }

  /**
   * `calculate`: loads the map and counts its accessible tiles. In a map of
   * 137 lines, a tile `@` in row or column 137 makes `is_accessable` read
   * past the array; at most 136 lines rule that out, a stronger bound than
   * the source needs.
   */
  method Calculate(lines: seq<string>) returns (r: Result<nat, TileError>)
    requires |lines| <= MapSize - 2
    requires forall y :: 0 <= y < |lines| ==> |lines[y]| <= MapSize - 1
    ensures r.Err? <==> exists y :: 0 <= y < |lines| && !ValidLine(lines[y])
    ensures r.Ok? ==> r.value <= |lines| * |lines|
  {
    var loaded := LoadFromLines(lines);
    if loaded.Err? {
      return Err(loaded.error);
    }
    var count := loaded.value.AccessibleTiles();
    CountBoxBound(loaded.value.grid, 1, |lines| + 1, 1, |lines| + 1);
    r := Ok(count);
  }

  /** With at most 136 lines of at most 136 characters, the outer ring of the array stays empty. */
  lemma BorderStaysEmpty(lines: seq<string>, a: int, b: int)
    requires forall y :: 0 <= y < |lines| ==> |lines[y]| <= MapSize - 2
    requires |lines| <= MapSize - 2
    requires a == 0 || b == 0 || a == MapSize - 1 || b == MapSize - 1
    ensures Loaded(lines, a, b) == Empty
  {
  }

  // ---- counting, as functions of the grid ---------------------------------------

  /** Occupied tiles of column range [`x0`, `x1`) in row `y`. */
  ghost function CountRow(g: array2<Tile>, y: nat, x0: nat, x1: nat): nat
    reads g
    requires x0 <= x1 <= g.Length0 && y < g.Length1
    decreases x1 - x0
  {
    if x0 == x1 then 0 else CountRow(g, y, x0, x1 - 1) + (if g[x1 - 1, y] == Occupied then 1 else 0)
  }

  /** Occupied tiles of the box [`x0`, `x1`) x [`y0`, `y1`). */
  ghost function CountBox(g: array2<Tile>, x0: nat, x1: nat, y0: nat, y1: nat): nat
    reads g
    requires x0 <= x1 <= g.Length0 && y0 <= y1 <= g.Length1
    decreases y1 - y0
  {
    if y0 == y1 then 0 else CountBox(g, x0, x1, y0, y1 - 1) + CountRow(g, y1 - 1, x0, x1)
  }

  /** Occupied tiles of the 3 x 3 block centred on (`cx`, `cy`). */
  ghost function BlockCount(g: array2<Tile>, cx: nat, cy: nat): nat
    reads g
    requires 1 <= cx && cx + 2 <= g.Length0 && 1 <= cy && cy + 2 <= g.Length1
  {
    CountBox(g, cx - 1, cx + 2, cy - 1, cy + 2)
  }

  ghost predicate Accessible(g: array2<Tile>, x: nat, y: nat)
    reads g
    requires 1 <= x && x + 2 <= g.Length0 && 1 <= y && y + 2 <= g.Length1
  {
    g[x, y] == Occupied && BlockCount(g, x, y) <= 4
  }

  /** Accessible tiles of row `y` in columns [1, `x`). */
  ghost function AccessibleInRow(g: array2<Tile>, y: nat, x: nat): nat
    reads g
    requires 1 <= x && x + 1 <= g.Length0 && 1 <= y && y + 2 <= g.Length1
    decreases x
  {
    if x == 1 then 0 else AccessibleInRow(g, y, x - 1) + (if Accessible(g, x - 1, y) then 1 else 0)
  }

  /** Accessible tiles of rows [1, `y`) in columns [1, `n` + 1). */
  ghost function AccessibleRows(g: array2<Tile>, n: nat, y: nat): nat
    reads g
    requires n + 2 <= g.Length0 && 1 <= y && y + 1 <= g.Length1
    decreases y
  {
    if y == 1 then 0 else AccessibleRows(g, n, y - 1) + AccessibleInRow(g, y - 1, n + 1)
  }

  /** Accessible tiles of the `n` x `n` data square. */
  ghost function AccessibleCount(g: array2<Tile>, n: nat): nat
    reads g
    requires n + 2 <= g.Length0 && n + 2 <= g.Length1
  {
    AccessibleRows(g, n, n + 1)
  }

  lemma {:induction false} AccessibleInRowAtMostOccupied(g: array2<Tile>, y: nat, x: nat)
    requires 1 <= x && x + 1 <= g.Length0 && 1 <= y && y + 2 <= g.Length1
    decreases x
    ensures AccessibleInRow(g, y, x) <= CountRow(g, y, 1, x)
  {
    if x > 1 {
      AccessibleInRowAtMostOccupied(g, y, x - 1);
    }
  }

  /** Only occupied tiles are counted, so the count never exceeds the occupied tiles of the square. */
  lemma {:induction false} AccessibleAtMostOccupied(g: array2<Tile>, n: nat, y: nat)
    requires n + 2 <= g.Length0 && 1 <= y && y + 1 <= g.Length1
    decreases y
    ensures AccessibleRows(g, n, y) <= CountBox(g, 1, n + 1, 1, y)
  {
    if y > 1 {
      AccessibleAtMostOccupied(g, n, y - 1);
      AccessibleInRowAtMostOccupied(g, y - 1, n + 1);
    }
  }

  /** A box holds at most as many occupied tiles as it has tiles. */
  lemma {:induction false} CountBoxBound(g: array2<Tile>, x0: nat, x1: nat, y0: nat, y1: nat)
    requires x0 <= x1 <= g.Length0 && y0 <= y1 <= g.Length1
    decreases y1 - y0
    ensures CountBox(g, x0, x1, y0, y1) <= (x1 - x0) * (y1 - y0)
  {
    if y0 < y1 {
      CountRowBound(g, y1 - 1, x0, x1);
      CountBoxBound(g, x0, x1, y0, y1 - 1);
    }
  }

  lemma {:induction false} CountRowBound(g: array2<Tile>, y: nat, x0: nat, x1: nat)
    requires x0 <= x1 <= g.Length0 && y < g.Length1
    decreases x1 - x0
    ensures CountRow(g, y, x0, x1) <= x1 - x0
  {
    if x0 < x1 {
      CountRowBound(g, y, x0, x1 - 1);
    }
  }
}
