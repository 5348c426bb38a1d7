/** Core/Entities/Enemy.cs and Core/Entities/BasicEnemy.cs: hostile creatures
    that are worth experience, notice the player within a detection radius,
    chase it one diagonal-or-straight step at a time, and otherwise wander. */
module Enemies {
  import opened Ints
  import opened Entities
  import opened Creatures
  import Maps

  datatype Enemy = Enemy(creature: Creature, experienceValue: i32, detectionRange: i32)

  function Position(e: Enemy): Point {
    e.creature.entity.position
  }

  /** The enemy constructor: a creature at full health plus its experience
      value and detection range. */
  function NewEnemy(name: string, symbol: char, maxHealth: i32, damage: i32,
                    experienceValue: i32, detectionRange: i32): (e: Enemy)
    ensures e.creature == NewCreature(name, symbol, maxHealth, damage)
    ensures e.creature.health == maxHealth
    ensures e.experienceValue == experienceValue && e.detectionRange == detectionRange
  {
    Enemy(NewCreature(name, symbol, maxHealth, damage), experienceValue, detectionRange)
  }

  const BasicSymbol: char := 'E'
  const BasicDetectionRange: i32 := 8

  /** The basic enemy constructor: drawn as 'E' and seeing eight cells far. */
  function NewBasicEnemy(name: string, maxHealth: i32, damage: i32, experienceValue: i32): (e: Enemy)
    ensures e.creature.entity.symbol == 'E' && e.detectionRange == 8
    ensures e.creature.entity.name == name && Position(e) == Point(0, 0)
    ensures e.creature.health == e.creature.maxHealth == maxHealth && e.creature.damage == damage
    ensures e.experienceValue == experienceValue
  {
    NewEnemy(name, BasicSymbol, maxHealth, damage, experienceValue, BasicDetectionRange)
  }

  /** Euclidean distance at most `range`, compared on squares so that no square
      root is needed. */
  predicate WithinRadius(a: Point, b: Point, range: int) {
    var dx := Abs(a.x - b.x);
    var dy := Abs(a.y - b.y);
    0 <= range && dx * dx + dy * dy <= range * range
  }

  /** The detection test. The circle lies between two squares: every cell
      whose taxicab distance is within the range is seen, and no cell whose
      king-move distance exceeds the range is. */
  function CanSeePlayer(e: Enemy, player: Point): (r: bool)
    ensures r ==> 0 <= e.detectionRange && Chebyshev(Position(e), player) <= e.detectionRange
    ensures Abs(Position(e).x - player.x) + Abs(Position(e).y - player.y) <= e.detectionRange ==> r
    ensures Position(e) == player ==> (r <==> 0 <= e.detectionRange)
  {
    RadiusBetweenSquares(Abs(Position(e).x - player.x), Abs(Position(e).y - player.y), e.detectionRange);
    WithinRadius(Position(e), player, e.detectionRange)
  }

  /** For distances `dx`, `dy`: inside the taxicab diamond implies inside the
      circle, and inside the circle implies inside the square. */
  lemma RadiusBetweenSquares(dx: nat, dy: nat, range: int)
    ensures dx + dy <= range ==> dx * dx + dy * dy <= range * range
    ensures 0 <= range && dx * dx + dy * dy <= range * range ==> dx <= range && dy <= range
  {
    if dx + dy <= range {
      DiamondInCircle(dx, dy, range);
    }
    if 0 <= range && dx * dx + dy * dy <= range * range {
      CircleInSquare(dx, dy * dy, range);
      CircleInSquare(dy, dx * dx, range);
    }
  }

  lemma DiamondInCircle(dx: nat, dy: nat, range: nat)
    requires dx + dy <= range
    ensures dx * dx + dy * dy <= range * range
  {
    var s := dx + dy;
    SquareMonotone(s, range);
    var p := dx * dy;
    assert 0 <= p;
    assert s * s == dx * dx + 2 * p + dy * dy;
  }

  lemma CircleInSquare(d: nat, rest: nat, range: nat)
    requires d * d + rest <= range * range
    ensures d <= range
  {
    if range < d {
      assert (range + 1) * (range + 1) == range * range + 2 * range + 1;
      SquareMonotone(range + 1, d);
    }
  }

  lemma SquareMonotone(a: nat, b: nat)
    requires a <= b
    ensures a * a <= b * b
  {
    assert a * a <= a * b;
    assert a * b <= b * b;
  }

  /** The detection test is the source's `Math.Sqrt(dx * dx + dy * dy) <=
      DetectionRange`: for the exact square root of the squared distance,
      the enemy sees the player iff that root is within the range. */
  lemma CanSeePlayerIsSquareRootTest(e: Enemy, player: Point, root: real)
    requires var dx, dy := Abs(Position(e).x - player.x), Abs(Position(e).y - player.y);
      root >= 0.0 && root * root == (dx * dx + dy * dy) as real
    ensures CanSeePlayer(e, player) <==> root <= e.detectionRange as real
  {
    var dx, dy := Abs(Position(e).x - player.x), Abs(Position(e).y - player.y);
    RadiusMatchesSquareRoot(dx * dx + dy * dy, root, e.detectionRange);
  }

  /** Comparing squares is the same as comparing the exact square root with the
      range, including a negative range, which no distance satisfies. */
  lemma RadiusMatchesSquareRoot(n: nat, root: real, range: int)
    requires root >= 0.0 && root * root == n as real
    ensures root <= range as real <==> 0 <= range && n <= range * range
  {
    if 0 <= range {
      var r := range as real;
      var sq := range * range;
      assert sq as real == r * r;
      if root <= r {
        assert root * root <= r * root <= r * r;
      } else {
        assert (root - r) * root > 0.0;
        var a, b, c := r * r, r * root, root * root;
        assert a <= b < c;
        assert c == n as real && a == sq as real;
        assert sq < n;
      }
    }
  }

  /** Detection is symmetric in the two positions and depends only on the
      absolute coordinate differences. */
  lemma WithinRadiusSymmetric(a: Point, b: Point, c: Point, d: Point, range: int)
    ensures WithinRadius(a, b, range) == WithinRadius(b, a, range)
    ensures Abs(a.x - b.x) == Abs(c.x - d.x) && Abs(a.y - b.y) == Abs(c.y - d.y) ==>
      WithinRadius(a, b, range) == WithinRadius(c, d, range)
  {
  }

  /** The larger of the two coordinate distances (king-move distance). */
  function Chebyshev(a: Point, b: Point): nat {
    var dx := Abs(a.x - b.x);
    var dy := Abs(a.y - b.y);
    if dx < dy then dy else dx
  }

  /** Adjacent means within one cell horizontally and vertically, diagonals
      and the very same cell included. */
  function IsAdjacentTo(e: Enemy, other: Point): (r: bool)
    ensures r <==> Chebyshev(Position(e), other) <= 1
    ensures Position(e) == other ==> r
  {
    Abs(Position(e).x - other.x) <= 1 && Abs(Position(e).y - other.y) <= 1
  }

  /** The step toward the player: the sign of each coordinate difference. */
  function ChaseStep(from: Point, to: Point): (d: (i32, i32))
    ensures -1 <= d.0 <= 1 && -1 <= d.1 <= 1
    ensures d.0 * (to.x - from.x) == Abs(to.x - from.x) && d.1 * (to.y - from.y) == Abs(to.y - from.y)
    ensures (d.0 == 0) == (to.x == from.x) && (d.1 == 0) == (to.y == from.y)
  {
    (Sign(to.x - from.x), Sign(to.y - from.y))
  }

  /** Chasing: one step along the signs of the differences, if passable. */
  function MoveTowardPlayer(e: Enemy, m: Maps.Map, player: Point): (r: Enemy)
    requires Maps.Valid(m)
    ensures var d, p, q := ChaseStep(Position(e), player), Position(e), Position(r);
      q == p || (q == Point(Wrap(p.x + d.0), Wrap(p.y + d.1)) && Maps.IsPassable(m, q.x, q.y))
    ensures var d, p := ChaseStep(Position(e), player), Position(e);
      var t := Point(Wrap(p.x + d.0), Wrap(p.y + d.1));
      Maps.IsPassable(m, t.x, t.y) ==> Position(r) == t
    ensures r == e.(creature := e.creature.(entity := e.creature.entity.(position := Position(r))))
    ensures r.creature.health == e.creature.health
    ensures r.experienceValue == e.experienceValue && r.detectionRange == e.detectionRange
  {
    var d := ChaseStep(Position(e), player);
    e.(creature := Move(e.creature, m, d.0, d.1))
  }

  /** A successful chase step brings each coordinate one closer to the player
      unless it already matched, so the king-move distance never grows. */
  lemma ChaseNeverRecedes(e: Enemy, m: Maps.Map, player: Point)
    requires Maps.Valid(m)
    ensures var p := Position(e);
      var q := Position(MoveTowardPlayer(e, m, player));
      && (q != p ==>
            && Abs(player.x - q.x) == (if p.x == player.x then 0 else Abs(player.x - p.x) - 1)
            && Abs(player.y - q.y) == (if p.y == player.y then 0 else Abs(player.y - p.y) - 1))
      && Chebyshev(q, player) <= Chebyshev(p, player)
  {
    var p := Position(e);
    var d := ChaseStep(p, player);
    assert IsInt32(p.x + d.0) && IsInt32(p.y + d.1);
  }

  /** The unit step for direction 0..3: north, east, south, west. */
  function CardinalStep(direction: int): (d: (i32, i32))
    requires 0 <= direction < 4
    ensures Abs(d.0) + Abs(d.1) == 1
  {
    match direction
    case 0 => (0, -1)
    case 1 => (1, 0)
    case 2 => (0, 1)
    case 3 => (-1, 0)
  }

  /** Wandering: one cardinal step in the drawn direction, if passable. */
  function RandomMove(e: Enemy, m: Maps.Map, draw: nat): (r: Enemy)
    requires Maps.Valid(m)
    ensures var d, p, q := CardinalStep(Next(0, 4, draw)), Position(e), Position(r);
      q == p || (q == Point(Wrap(p.x + d.0), Wrap(p.y + d.1)) && Maps.IsPassable(m, q.x, q.y))
    ensures var d, p := CardinalStep(Next(0, 4, draw)), Position(e);
      var t := Point(Wrap(p.x + d.0), Wrap(p.y + d.1));
      Maps.IsPassable(m, t.x, t.y) ==> Position(r) == t
    ensures r == e.(creature := e.creature.(entity := e.creature.entity.(position := Position(r))))
    ensures r.creature.health == e.creature.health
    ensures r.experienceValue == e.experienceValue && r.detectionRange == e.detectionRange
  {
    var d := CardinalStep(Next(0, 4, draw));
    e.(creature := Move(e.creature, m, d.0, d.1))
  }

  /** The four draws 0..3 try the four distinct neighbours. */
  lemma CardinalStepsDistinct(i: int, j: int)
    requires 0 <= i < 4 && 0 <= j < 4 && i != j
    ensures CardinalStep(i) != CardinalStep(j)
  {
  }

  /** The enemy override of `TakeDamage` only adds a log line, so its effect on
      health is the creature's: lowered by the amount and clamped at zero. */
  function TakeDamage(e: Enemy, amount: i32): (r: Enemy)
    ensures r.creature.health >= 0
    ensures IsInt32(e.creature.health - amount) ==>
      r.creature.health == if e.creature.health - amount < 0 then 0 else e.creature.health - amount
    ensures r.creature.entity == e.creature.entity && r.experienceValue == e.experienceValue
    ensures r == e.(creature := e.creature.(health := r.creature.health))
  {
    e.(creature := Creatures.TakeDamage(e.creature, amount))
  }
}
