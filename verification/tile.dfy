/** Core/Tile.cs: a map cell. A tile stores nothing but its type; whether it can
    be entered and how it is drawn are both derived from that type. */
module Tiles {

  datatype TileType = Floor | Wall | Door | Water

  datatype Tile = Tile(kind: TileType)

  /** Walls and water block movement. */
  predicate IsPassable(t: Tile) {
    t.kind != Wall && t.kind != Water
  }

  function Symbol(t: Tile): char {
    match t.kind
    case Floor => ' '
    case Wall => '#'
    case Door => '+'
    case Water => '~'
  }

  /** The `Type` setter. A tile holds nothing besides its type, so after the
      update the tile is indistinguishable from one built with the new type. */
  function SetType(t: Tile, k: TileType): (r: Tile)
    ensures r.kind == k
    ensures IsPassable(r) == IsPassable(Tile(k)) && Symbol(r) == Symbol(Tile(k))
    ensures IsPassable(r) != IsPassable(t) ==> (k == Wall || k == Water) != (t.kind == Wall || t.kind == Water)
  {
    t.(kind := k)
  }

  /** Exactly the floor and door tiles can be entered. */
  lemma PassableTypes(k: TileType)
    ensures IsPassable(Tile(k)) <==> k == Floor || k == Door
  {
  }

  /** The four types have four distinct symbols, so the symbol determines the
      tile and with it the passability. */
  lemma SymbolDeterminesTile(a: Tile, b: Tile)
    ensures Symbol(a) == Symbol(b) <==> a == b
    ensures Symbol(a) == Symbol(b) ==> IsPassable(a) == IsPassable(b)
  {
  }

  /** A tile is passable exactly when its symbol is neither '#' nor '~'. */
  lemma PassableBySymbol(t: Tile)
    ensures IsPassable(t) <==> Symbol(t) != '#' && Symbol(t) != '~'
  {
  }
}
