/** Core/Entities/Entity.cs: anything placed on the map, with a name, a
    one-character symbol and a position. */
module Entities {
  import opened Ints
  import Maps
  import Tiles

  datatype Point = Point(x: i32, y: i32)

  datatype Entity = Entity(name: string, symbol: char, position: Point)

  /** The constructor: the given name and symbol, placed at the origin. */
  function NewEntity(name: string, symbol: char): (e: Entity)
    ensures e.name == name && e.symbol == symbol
    ensures e.position == Point(0, 0)
  {
    Entity(name, symbol, Point(0, 0))
  }

  /** An entity may enter exactly the cells the map reports passable, so never
      a cell outside the grid. */
  function CanMoveTo(m: Maps.Map, x: int, y: int): (r: bool)
    requires Maps.Valid(m)
    ensures r ==> Maps.InBounds(m, x, y)
    ensures r <==> Maps.InBounds(m, x, y) && Tiles.IsPassable(m.tiles[x][y])
  {
    Maps.IsPassable(m, x, y)
  }

  /** The base `Update` hook keeps the entity as it is. */
  function Update(e: Entity): (r: Entity)
    ensures r.name == e.name && r.symbol == e.symbol && r.position == e.position
  {
    e
  }
}
