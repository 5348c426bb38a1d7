/** Core/Entities/Creature.cs: an entity with health and an attack value that
    can walk over the map and fight. */
module Creatures {
  import opened Ints
  import opened Entities
  import Maps

  datatype Creature = Creature(entity: Entity, health: i32, maxHealth: i32, damage: i32)

  /** The constructor starts the creature at full health. */
  function NewCreature(name: string, symbol: char, maxHealth: i32, damage: i32): (c: Creature)
    ensures c.entity == NewEntity(name, symbol)
    ensures c.health == c.maxHealth == maxHealth && c.damage == damage
  {
    Creature(NewEntity(name, symbol), maxHealth, maxHealth, damage)
  }

  predicate IsAlive(c: Creature) {
    c.health > 0
  }

  /** Health drops by `amount` (32-bit subtraction) and is then raised to zero
      if it went below; nothing else about the creature changes. */
  function TakeDamage(c: Creature, amount: i32): (r: Creature)
    ensures r.health >= 0
    ensures IsInt32(c.health - amount) ==> r.health == if c.health - amount < 0 then 0 else c.health - amount
    ensures r.entity == c.entity && r.maxHealth == c.maxHealth && r.damage == c.damage
  {
    var h := Wrap(c.health - amount);
    c.(health := if h < 0 then 0 else h)
  }

  /** The attacker deals its own damage to the target and is itself unchanged,
      so only the target is returned. */
  function Attack(attacker: Creature, target: Creature): (r: Creature)
    ensures r.health >= 0
    ensures IsInt32(target.health - attacker.damage) ==>
      r.health == if target.health - attacker.damage < 0 then 0 else target.health - attacker.damage
    ensures r.entity == target.entity && r.maxHealth == target.maxHealth && r.damage == target.damage
  {
    TakeDamage(target, attacker.damage)
  }

  function MoveTarget(c: Creature, dx: i32, dy: i32): Point {
    Point(Wrap(c.entity.position.x + dx), Wrap(c.entity.position.y + dy))
  }

  /** Step by `(dx, dy)` if the destination can be entered, otherwise stay. */
  function Move(c: Creature, m: Maps.Map, dx: i32, dy: i32): (r: Creature)
    requires Maps.Valid(m)
    ensures r.entity.position == c.entity.position || r.entity.position == MoveTarget(c, dx, dy)
    ensures r.entity.position != c.entity.position ==>
      Maps.InBounds(m, r.entity.position.x, r.entity.position.y) &&
      Maps.IsPassable(m, r.entity.position.x, r.entity.position.y)
    ensures r.entity.name == c.entity.name && r.entity.symbol == c.entity.symbol
    ensures r.health == c.health && r.maxHealth == c.maxHealth && r.damage == c.damage
    ensures r == c.(entity := c.entity.(position := r.entity.position))
  {
    var p := MoveTarget(c, dx, dy);
    if CanMoveTo(m, p.x, p.y) then c.(entity := c.entity.(position := p)) else c
  }

  /** A move succeeds exactly when the destination is passable, and then lands
      on `(x + dx, y + dy)` unless 32-bit addition wraps. */
  lemma MoveOutcome(c: Creature, m: Maps.Map, dx: i32, dy: i32)
    requires Maps.Valid(m)
    ensures var p := c.entity.position;
      && (IsInt32(p.x + dx) && IsInt32(p.y + dy) ==> MoveTarget(c, dx, dy) == Point(p.x + dx, p.y + dy))
      && (Move(c, m, dx, dy).entity.position == MoveTarget(c, dx, dy) <==>
            Maps.IsPassable(m, MoveTarget(c, dx, dy).x, MoveTarget(c, dx, dy).y) || MoveTarget(c, dx, dy) == p)
  {
  }

  /** Damage never revives: a creature with no health stays dead however much
      positive damage it takes, and a living one dies exactly when the damage
      reaches its health. */
  lemma DamageAndLife(c: Creature, amount: i32)
    requires c.health >= 0 && amount >= 0
    ensures !IsAlive(c) ==> !IsAlive(TakeDamage(c, amount))
    ensures IsAlive(TakeDamage(c, amount)) <==> c.health > amount
  {
    assert IsInt32(c.health - amount);
  }
}
