/** Core/Map.cs: a fixed-size grid of tiles indexed `[x][y]`, built as a floor
    room surrounded by walls, with a bounds-checked passability query. */
module Maps {
  import opened Ints
  import opened Tiles
  import opened Results

  datatype Map = Map(width: i32, height: i32, tiles: seq<seq<Tile>>)

  /** The exceptions the constructor can raise: a negative array dimension,
      and a border write outside an array that has one zero dimension. */
  datatype MapError = NegativeSize | IndexOutOfRange

  /** The grid has exactly `width` columns of `height` tiles each. */
  predicate Valid(m: Map) {
    && 0 <= m.width
    && 0 <= m.height
    && |m.tiles| == m.width
    && forall x :: 0 <= x < |m.tiles| ==> |m.tiles[x]| == m.height
  }

  predicate InBounds(m: Map, x: int, y: int) {
    0 <= x < m.width && 0 <= y < m.height
  }

  predicate OnBorder(w: int, h: int, x: int, y: int) {
    x == 0 || x == w - 1 || y == 0 || y == h - 1
  }

  /** Every border cell is a wall and every other cell is floor. */
  predicate WalledRoom(m: Map)
    requires Valid(m)
  {
    forall x, y :: 0 <= x < m.width && 0 <= y < m.height ==>
      m.tiles[x][y] == Tile(if OnBorder(m.width, m.height, x, y) then Wall else Floor)
  }

  /** The constructor: fill every cell with floor, then write walls along the
      top and bottom rows, then along the left and right columns. */
  method NewMap(width: i32, height: i32) returns (r: Result<Map, MapError>)
    ensures r.Err? <==> width < 0 || height < 0 || (width == 0) != (height == 0)
    ensures r.Err? ==> r.error == (if width < 0 || height < 0 then NegativeSize else IndexOutOfRange)
    ensures r.Ok? ==> Valid(r.value) && r.value.width == width && r.value.height == height
    ensures r.Ok? ==> WalledRoom(r.value)
  {
    if width < 0 || height < 0 {
      return Err(NegativeSize);
    }
    var g := seq(width, _ => seq(height, _ => Tile(Floor)));
    if width > 0 && height == 0 {
      // the first write, to row 0, already falls outside the array
      return Err(IndexOutOfRange);
    }
    var x := 0;
    while x < width
      invariant 0 <= x <= width
      invariant |g| == width && forall i :: 0 <= i < width ==> |g[i]| == height
      invariant forall i, j :: 0 <= i < width && 0 <= j < height ==>
        g[i][j] == Tile(if i < x && (j == 0 || j == height - 1) then Wall else Floor)
    {
      g := g[x := g[x][0 := Tile(Wall)][height - 1 := Tile(Wall)]];
      x := x + 1;
    }
    if width == 0 && height > 0 {
      // the first write, to column 0, falls outside the array
      return Err(IndexOutOfRange);
    }
    var y := 0;
    while y < height
      invariant 0 <= y <= height
      invariant |g| == width && forall i :: 0 <= i < width ==> |g[i]| == height
      invariant forall i, j :: 0 <= i < width && 0 <= j < height ==>
        g[i][j] == Tile(if j == 0 || j == height - 1 || ((i == 0 || i == width - 1) && j < y) then Wall else Floor)
    {
      g := g[0 := g[0][y := Tile(Wall)]];
      g := g[width - 1 := g[width - 1][y := Tile(Wall)]];
      y := y + 1;
    }
    return Ok(Map(width, height, g));
  }

  /** Out-of-bounds cells are never passable; inside the grid the answer is the
      tile's own. */
  function IsPassable(m: Map, x: int, y: int): (r: bool)
    requires Valid(m)
    ensures !InBounds(m, x, y) ==> !r
    ensures InBounds(m, x, y) ==> r == Tiles.IsPassable(m.tiles[x][y])
  {
    if x < 0 || x >= m.width || y < 0 || y >= m.height then false
    else Tiles.IsPassable(m.tiles[x][y])
  }

  /** Writing a tile's `Type` through the map: the dimensions stay as built and
      only the one cell changes. */
  function SetTileType(m: Map, x: int, y: int, k: TileType): (r: Map)
    requires Valid(m) && InBounds(m, x, y)
    ensures Valid(r) && r.width == m.width && r.height == m.height
    ensures r.tiles[x][y].kind == k
    ensures IsPassable(r, x, y) <==> k == Floor || k == Door
    ensures forall i, j :: InBounds(m, i, j) && (i != x || j != y) ==> r.tiles[i][j] == m.tiles[i][j]
  {
    m.(tiles := m.tiles[x := m.tiles[x][y := SetType(m.tiles[x][y], k)]])
  }

  /** On a freshly built map exactly the interior cells can be entered. */
  lemma FreshMapPassability(m: Map)
    requires Valid(m) && WalledRoom(m)
    ensures forall x, y :: IsPassable(m, x, y) <==> 0 < x < m.width - 1 && 0 < y < m.height - 1
  {
    forall x, y
      ensures IsPassable(m, x, y) <==> 0 < x < m.width - 1 && 0 < y < m.height - 1
    {
      if InBounds(m, x, y) {
        assert m.tiles[x][y] == Tile(if OnBorder(m.width, m.height, x, y) then Wall else Floor);
      }
    }
  }
}
