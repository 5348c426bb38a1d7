/** Core/GameState.cs: the player, the map, the enemy list and the running
    animations, with the bookkeeping that spawns, updates and removes enemies
    and prunes finished animations. */
module Game {
  import opened Ints
  import opened Seqs
  import opened Results
  import opened Entities
  import opened Players
  import opened Enemies
  import Creatures
  import Maps
  import Text

  /** The two projectile animations the game creates. */
  datatype Projectile = Fireball | Arrow

  /** A projectile animation flying at the enemy `target` (an index into the
      object store), aimed at the cell `targetPosition` the enemy stood on
      when it was fired, and carrying `damage`. Its floating-point flight
      position and timing are not kept. */
  datatype Animation = Animation(kind: Projectile, target: nat, targetPosition: Point, damage: i32, isCompleted: bool)

  /** `Enemies` is a list of object references. `objects` is the store of
      enemy objects and the list holds indices into it, so the same enemy can
      be listed twice and `Remove` compares identities, not contents. */
  datatype GameState = GameState(
    player: Player,
    currentMap: Maps.Map,
    objects: seq<Enemy>,
    enemies: seq<nat>,
    animations: seq<Animation>)

  predicate Valid(s: GameState) {
    && Maps.Valid(s.currentMap)
    && forall i :: 0 <= i < |s.enemies| ==> s.enemies[i] < |s.objects|
  }

  function PlayerPosition(s: GameState): Point {
    s.player.creature.entity.position
  }

  /** `MoveTo`, which the game calls to place the player and new enemies, sets
      the position without consulting the map. */
  function PlaceEnemy(e: Enemy, p: Point): (r: Enemy)
    ensures Position(r) == p
    ensures r.creature.entity.name == e.creature.entity.name && r.creature.entity.symbol == e.creature.entity.symbol
    ensures r.creature.health == e.creature.health && r.creature.maxHealth == e.creature.maxHealth
    ensures r.creature.damage == e.creature.damage
    ensures r.experienceValue == e.experienceValue && r.detectionRange == e.detectionRange
  {
    e.(creature := e.creature.(entity := e.creature.entity.(position := p)))
  }

  function PlacePlayer(p: Player, at: Point): (r: Player)
    ensures r.creature.entity.position == at
    ensures r.creature.entity.name == p.creature.entity.name && r.creature.entity.symbol == p.creature.entity.symbol
    ensures r.creature.health == p.creature.health && r.creature.maxHealth == p.creature.maxHealth
    ensures r.creature.damage == p.creature.damage
    ensures r.experience == p.experience && r.level == p.level && r.skills == p.skills
  {
    p.(creature := p.creature.(entity := p.creature.entity.(position := at)))
  }

  // ---------------------------------------------------------------------
  // The enemy list

  /** `AddEnemy`: the reference goes at the end and the list before it is
      kept. */
  function AddEnemy(s: GameState, id: nat): (r: GameState)
    ensures |r.enemies| == |s.enemies| + 1 && r.enemies[|s.enemies|] == id
    ensures r.enemies[..|s.enemies|] == s.enemies
    ensures r.player == s.player && r.currentMap == s.currentMap && r.objects == s.objects && r.animations == s.animations
    ensures Valid(s) && id < |s.objects| ==> Valid(r)
  {
    s.(enemies := s.enemies + [id])
  }

  /** `RemoveEnemy`: one listing of the enemy goes, if it is listed at all;
      nothing else in the state changes. */
  function RemoveEnemy(s: GameState, id: nat): (r: GameState)
    ensures id !in s.enemies ==> r == s
    ensures |r.enemies| == if id in s.enemies then |s.enemies| - 1 else |s.enemies|
    ensures r.player == s.player && r.currentMap == s.currentMap && r.objects == s.objects && r.animations == s.animations
    ensures Valid(s) ==> Valid(r)
  {
    var r := s.(enemies := RemoveFirst(s.enemies, id));
    assert Valid(s) ==> Valid(r) by {
      if Valid(s) {
        RemoveFirstMembers(s.enemies, id);
        forall i | 0 <= i < |r.enemies|
          ensures r.enemies[i] < |s.objects|
        {
          assert r.enemies[i] in s.enemies;
        }
      }
    }
    r
  }

  /** Exactly one listing of the enemy goes, if there is one, and every
      other enemy keeps its number of listings. */
  lemma RemoveEnemyCounts(s: GameState, id: nat)
    ensures multiset(RemoveEnemy(s, id).enemies) == multiset(s.enemies) - multiset{id}
  {
    RemoveFirstMultiset(s.enemies, id);
  }

  /** It is the first listing that goes, and the enemies before and after it
      keep their order. */
  lemma RemoveEnemyKeepsOrder(s: GameState, id: nat)
    requires id in s.enemies
    ensures var i := IndexOf(s.enemies, id);
      && s.enemies[i] == id && id !in s.enemies[..i]
      && RemoveEnemy(s, id).enemies == s.enemies[..i] + s.enemies[i + 1..]
  {
    RemoveFirstAtIndex(s.enemies, id);
  }

  /** Removing an enemy that was just added, and not listed before, restores
      the state. */
  lemma RemoveUndoesAdd(s: GameState, id: nat)
    requires id !in s.enemies
    ensures RemoveEnemy(AddEnemy(s, id), id) == s
  {
    RemoveFirstAfter(s.enemies, id, []);
    assert s.enemies + [id] + [] == s.enemies + [id];
  }

  // ---------------------------------------------------------------------
  // One enemy's turn and its death

  /** `BasicEnemy.TakeTurn` for the enemy `id`. A dead enemy does nothing. A
      living one that sees the player steps toward it and attacks when it then
      stands next to the player; otherwise it wanders in the direction drawn
      by `draw`. Only the enemy itself and, through the attack, the player's
      health can change. */
  function TakeTurn(s: GameState, id: nat, draw: nat): (r: GameState)
    requires Valid(s) && id < |s.objects|
    ensures !Creatures.IsAlive(s.objects[id].creature) ==> r == s
    ensures Valid(r) && r.currentMap == s.currentMap && r.enemies == s.enemies && r.animations == s.animations
    ensures |r.objects| == |s.objects|
    ensures forall j :: 0 <= j < |s.objects| && j != id ==> r.objects[j] == s.objects[j]
    ensures r.objects[id].creature.health == s.objects[id].creature.health
    ensures Creatures.IsAlive(s.objects[id].creature) ==>
      r.objects[id] == if CanSeePlayer(s.objects[id], PlayerPosition(s))
                       then MoveTowardPlayer(s.objects[id], s.currentMap, PlayerPosition(s))
                       else RandomMove(s.objects[id], s.currentMap, draw)
    ensures r.player != s.player ==>
      CanSeePlayer(s.objects[id], PlayerPosition(s)) && IsAdjacentTo(r.objects[id], PlayerPosition(s))
    ensures Creatures.IsAlive(s.objects[id].creature) && CanSeePlayer(s.objects[id], PlayerPosition(s)) &&
            IsAdjacentTo(r.objects[id], PlayerPosition(s)) ==>
      r.player.creature == Creatures.Attack(s.objects[id].creature, s.player.creature)
    ensures r.player.experience == s.player.experience && r.player.level == s.player.level
    ensures r.player.skills == s.player.skills && r.player.creature.entity == s.player.creature.entity
  {
    var e := s.objects[id];
    var target := PlayerPosition(s);
    if !Creatures.IsAlive(e.creature) then s
    else if CanSeePlayer(e, target) then
      var moved := MoveTowardPlayer(e, s.currentMap, target);
      var player :=
        if IsAdjacentTo(moved, target)
        then s.player.(creature := Creatures.Attack(moved.creature, s.player.creature))
        else s.player;
      s.(objects := s.objects[id := moved], player := player)
    else
      s.(objects := s.objects[id := RandomMove(e, s.currentMap, draw)])
  }

  /** `Enemy.Die`: the player gains the enemy's experience value and one
      listing of the enemy is removed; the enemy object itself is untouched. */
  function Die(s: GameState, id: nat): (r: GameState)
    requires id < |s.objects|
    ensures r.player == GainExperience(s.player, s.objects[id].experienceValue)
    ensures r.player.experience == Wrap(s.player.experience + s.objects[id].experienceValue)
    ensures r.enemies == RemoveEnemy(s, id).enemies
    ensures r.objects == s.objects && r.currentMap == s.currentMap && r.animations == s.animations
    ensures Valid(s) ==> Valid(r)
  {
    RemoveEnemy(s.(player := GainExperience(s.player, s.objects[id].experienceValue)), id)
  }

  // ---------------------------------------------------------------------
  // UpdateEnemies

  /** Two object stores of the same size whose enemies have the same health
      and experience value. */
  predicate SameStats(a: seq<Enemy>, b: seq<Enemy>) {
    && |a| == |b|
    && forall j :: 0 <= j < |a| ==>
         a[j].creature.health == b[j].creature.health && a[j].experienceValue == b[j].experienceValue
  }

  /** One visit of the update loop: `Update` (which changes nothing the model
      keeps), then a turn for a living enemy or death for a dead one. No
      enemy's health or experience value changes; a turn keeps the list and
      the player's experience, a death takes the enemy's first listing out of
      the list and pays its experience value. */
  function Visit(s: GameState, id: nat, draw: nat): (r: GameState)
    requires Valid(s) && id < |s.objects|
    ensures Valid(r) && SameStats(r.objects, s.objects)
    ensures r.currentMap == s.currentMap && r.animations == s.animations
    ensures Creatures.IsAlive(s.objects[id].creature) ==>
      r.enemies == s.enemies && r.player.experience == s.player.experience
    ensures !Creatures.IsAlive(s.objects[id].creature) ==>
      && r.enemies == RemoveFirst(s.enemies, id)
      && r.player.experience == Wrap(s.player.experience + s.objects[id].experienceValue)
  {
    if Creatures.IsAlive(s.objects[id].creature) then TakeTurn(s, id, draw) else Die(s, id)
  }

  /** Every listed reference points into the store. */
  predicate InStore(objects: seq<Enemy>, ids: seq<nat>) {
    forall k :: 0 <= k < |ids| ==> ids[k] < |objects|
  }

  /** Reference definition of a round: the enemies `ids` are visited in
      order, each on the state the previous visit left, the k-th with the
      wander draw `draws[k]`. */
  function Round(s: GameState, ids: seq<nat>, draws: seq<nat>): (r: GameState)
    requires Valid(s) && |draws| == |ids| && InStore(s.objects, ids)
    ensures Valid(r) && SameStats(r.objects, s.objects)
    ensures r.currentMap == s.currentMap && r.animations == s.animations
    decreases |ids|
  {
    if |ids| == 0 then s
    else
      var n := |ids| - 1;
      Visit(Round(s, ids[..n], draws[..n]), ids[n], draws[n])
  }

  /** A round over `k + 1` enemies is the round over the first `k` followed
      by one more visit. */
  lemma {:induction false} RoundStep(s: GameState, ids: seq<nat>, draws: seq<nat>, k: nat)
    requires Valid(s) && |draws| == |ids| && InStore(s.objects, ids) && k < |ids|
    ensures InStore(s.objects, ids[..k]) && InStore(s.objects, ids[..k + 1])
    ensures Round(s, ids[..k + 1], draws[..k + 1]) == Visit(Round(s, ids[..k], draws[..k]), ids[k], draws[k])
  {
    assert ids[..k + 1][..k] == ids[..k] && draws[..k + 1][..k] == draws[..k];
  }

  /** Reference definition: the listed enemies that are alive, in list order.
      (A reference outside the store, which a valid state never holds, counts
      as not alive.) */
  function Survivors(objects: seq<Enemy>, ids: seq<nat>): (r: seq<nat>)
    ensures |r| <= |ids|
    decreases |ids|
  {
    if |ids| == 0 then []
    else
      var n := |ids| - 1;
      var x := ids[n];
      Survivors(objects, ids[..n]) + (if x < |objects| && Creatures.IsAlive(objects[x].creature) then [x] else [])
  }

  /** A dead enemy is never among the survivors. */
  lemma {:induction false} SurvivorsExcludeDead(objects: seq<Enemy>, ids: seq<nat>, x: nat)
    requires x < |objects| && !Creatures.IsAlive(objects[x].creature)
    ensures x !in Survivors(objects, ids)
    decreases |ids|
  {
    if |ids| > 0 {
      SurvivorsExcludeDead(objects, ids[..|ids| - 1], x);
    }
  }

  /** Every listed living enemy survives. */
  lemma {:induction false} SurvivorsIncludeLiving(objects: seq<Enemy>, ids: seq<nat>, k: nat)
    requires k < |ids| && ids[k] < |objects| && Creatures.IsAlive(objects[ids[k]].creature)
    ensures ids[k] in Survivors(objects, ids)
    decreases |ids|
  {
    var n := |ids| - 1;
    if k < n {
      SurvivorsIncludeLiving(objects, ids[..n], k);
    }
  }

  /** An enemy survives exactly when it is listed, in the store and alive. */
  lemma {:induction false} SurvivorsMembers(objects: seq<Enemy>, ids: seq<nat>, x: nat)
    ensures x in Survivors(objects, ids) <==> x in ids && x < |objects| && Creatures.IsAlive(objects[x].creature)
    decreases |ids|
  {
    if |ids| > 0 {
      var n := |ids| - 1;
      SurvivorsMembers(objects, ids[..n], x);
      assert ids == ids[..n] + [ids[n]];
    }
  }

  /** One visit's effect on the list, in terms of the survivors: before the
      visit of `ids`'s last enemy the list is the survivors among the others,
      then that enemy, then `rest`; `next` is the list after the visit,
      unchanged by a turn and one listing shorter after a death. */
  lemma UpdateStep(objects: seq<Enemy>, ids: seq<nat>, rest: seq<nat>, current: seq<nat>, next: seq<nat>)
    requires |ids| > 0 && ids[|ids| - 1] < |objects|
    requires current == Survivors(objects, ids[..|ids| - 1]) + ([ids[|ids| - 1]] + rest)
    requires Creatures.IsAlive(objects[ids[|ids| - 1]].creature) ==> next == current
    requires !Creatures.IsAlive(objects[ids[|ids| - 1]].creature) ==> next == RemoveFirst(current, ids[|ids| - 1])
    ensures next == Survivors(objects, ids) + rest
  {
    var id, before := ids[|ids| - 1], Survivors(objects, ids[..|ids| - 1]);
    AppendAssoc(before, [id], rest);
    if Creatures.IsAlive(objects[id].creature) {
      assert Survivors(objects, ids) == before + [id];
    } else {
      assert Survivors(objects, ids) == before + [] == before;
      SurvivorsExcludeDead(objects, ids[..|ids| - 1], id);
      RemoveFirstAfter(before, id, rest);
    }
  }

  /** Visiting a prefix `ids` of the list leaves the survivors among the
      visited enemies followed by the enemies not yet visited: exactly the
      enemies dead at the start of the round leave the list, and the rest
      keep their order. */
  lemma {:induction false} RoundList(s: GameState, ids: seq<nat>, draws: seq<nat>)
    requires Valid(s) && |draws| == |ids| && |ids| <= |s.enemies| && ids == s.enemies[..|ids|]
    ensures InStore(s.objects, ids)
    ensures Round(s, ids, draws).enemies == Survivors(s.objects, ids) + s.enemies[|ids|..]
    decreases |ids|
  {
    if |ids| == 0 {
      assert s.enemies[0..] == s.enemies;
    } else {
      assert ids[..|ids| - 1] == s.enemies[..|ids| - 1];
      RoundList(s, ids[..|ids| - 1], draws[..|ids| - 1]);
      assert InStore(s.objects, ids) by {
        forall k | 0 <= k < |ids| ensures ids[k] < |s.objects| {
          assert ids[k] == s.enemies[k];
        }
      }
      NextUnvisited(s.enemies, ids);
      VisitList(s.objects, ids, s.enemies[|ids|..], Round(s, ids[..|ids| - 1], draws[..|ids| - 1]), draws[|ids| - 1]);
    }
  }

  /** Splitting off the last entry of a visited prefix of the list. */
  lemma NextUnvisited(enemies: seq<nat>, ids: seq<nat>)
    requires 0 < |ids| <= |enemies| && ids == enemies[..|ids|]
    ensures enemies[|ids| - 1..] == [ids[|ids| - 1]] + enemies[|ids|..]
  {
    assert enemies[|ids| - 1..] == [enemies[|ids| - 1]] + enemies[|ids|..];
  }

  /** One visit more extends the list invariant by one entry: the visited
      enemy stays in place if it was alive at the start of the round and
      leaves the list otherwise. */
  lemma VisitList(objects: seq<Enemy>, ids: seq<nat>, rest: seq<nat>, t: GameState, draw: nat)
    requires |ids| > 0 && Valid(t) && ids[|ids| - 1] < |t.objects| && SameStats(t.objects, objects)
    requires t.enemies == Survivors(objects, ids[..|ids| - 1]) + ([ids[|ids| - 1]] + rest)
    ensures Visit(t, ids[|ids| - 1], draw).enemies == Survivors(objects, ids) + rest
  {
    UpdateStep(objects, ids, rest, t.enemies, Visit(t, ids[|ids| - 1], draw).enemies);
  }

  /** What visiting the enemy `x` pays: its experience value if it is dead,
      nothing otherwise (a reference outside the store pays nothing). */
  function Payment(objects: seq<Enemy>, x: nat): int {
    if x < |objects| && !Creatures.IsAlive(objects[x].creature) then objects[x].experienceValue else 0
  }

  /** Reference definition: the experience the dead enemies among `ids` are
      worth, summed without overflow. */
  function DeathExperience(objects: seq<Enemy>, ids: seq<nat>): (r: int)
    decreases |ids|
  {
    if |ids| == 0 then 0
    else
      var n := |ids| - 1;
      DeathExperience(objects, ids[..n]) + Payment(objects, ids[n])
  }

  /** The player's experience after `Enemy.Die` has run, in order, for
      every dead enemy among `ids`: one wrapping 32-bit addition per visit,
      of nothing for a living enemy. */
  function PaidExperience(start: i32, objects: seq<Enemy>, ids: seq<nat>): (r: i32)
    decreases |ids|
  {
    if |ids| == 0 then start
    else
      var n := |ids| - 1;
      Wrap(PaidExperience(start, objects, ids[..n]) + Payment(objects, ids[n]))
  }

  /** One visit pays what `Payment` says, judged on a store with the same
      health and experience values as `objects`. */
  lemma VisitPays(t: GameState, id: nat, draw: nat, objects: seq<Enemy>)
    requires Valid(t) && id < |t.objects| && SameStats(t.objects, objects)
    ensures Visit(t, id, draw).player.experience == Wrap(t.player.experience + Payment(objects, id))
  {
  }

  /** Over a round the player's experience follows `PaidExperience`. */
  lemma {:induction false} RoundPaid(s: GameState, ids: seq<nat>, draws: seq<nat>)
    requires Valid(s) && |draws| == |ids| && InStore(s.objects, ids)
    ensures Round(s, ids, draws).player.experience == PaidExperience(s.player.experience, s.objects, ids)
    decreases |ids|
  {
    if |ids| > 0 {
      var n := |ids| - 1;
      assert InStore(s.objects, ids[..n]);
      RoundPaid(s, ids[..n], draws[..n]);
      VisitPays(Round(s, ids[..n], draws[..n]), ids[n], draws[n], s.objects);
    }
  }

  /** Wrapping after every payment is wrapping the sum of all payments once. */
  lemma {:induction false} PaidIsWrappedSum(start: i32, objects: seq<Enemy>, ids: seq<nat>)
    ensures PaidExperience(start, objects, ids) == Wrap(start + DeathExperience(objects, ids))
    decreases |ids|
  {
    if |ids| > 0 {
      PaidIsWrappedSum(start, objects, ids[..|ids| - 1]);
      WrapChain(start, DeathExperience(objects, ids[..|ids| - 1]), Payment(objects, ids[|ids| - 1]),
                PaidExperience(start, objects, ids[..|ids| - 1]));
    }
  }

  /** What the update loop did with one enemy of the snapshot. */
  datatype Action = Turned(id: nat) | Died(id: nat)

  /** Reference definition: what the update loop should do with each listed
      enemy, judged by its health when the loop starts. */
  function Actions(objects: seq<Enemy>, ids: seq<nat>): (r: seq<Action>)
    ensures |r| == |ids|
    decreases |ids|
  {
    if |ids| == 0 then []
    else
      var n := |ids| - 1;
      var x := ids[n];
      Actions(objects, ids[..n]) + [if x < |objects| && Creatures.IsAlive(objects[x].creature) then Turned(x) else Died(x)]
  }

  /** The k-th action is about the k-th listed enemy, and it is a death
      exactly when that enemy is dead. */
  lemma {:induction false} ActionsShape(objects: seq<Enemy>, ids: seq<nat>, k: nat)
    requires k < |ids| && ids[k] < |objects|
    ensures Actions(objects, ids)[k].id == ids[k]
    ensures Actions(objects, ids)[k].Died? <==> !Creatures.IsAlive(objects[ids[k]].creature)
    decreases |ids|
  {
    var n := |ids| - 1;
    if k < n {
      ActionsShape(objects, ids[..n], k);
    }
  }

  /** `UpdateEnemies`: walks a snapshot of the list taken before the loop, so
      every enemy listed at the start is visited exactly once, in list order,
      however the list changes meanwhile; the result is the reference round.
      Turns only move enemies and hurt the player, so an enemy's health is
      the same at its visit as at the start: exactly the enemies dead at the
      start die, the list ends as the survivors in their original order and
      the player is paid for each death. `draws[k]` is the wander direction
      draw of the k-th visit. */
  method UpdateEnemies(s: GameState, draws: seq<nat>) returns (r: GameState, trace: seq<Action>)
    requires Valid(s) && |draws| == |s.enemies|
    ensures InStore(s.objects, s.enemies) && r == Round(s, s.enemies, draws)
    ensures trace == Actions(s.objects, s.enemies)
    ensures r.enemies == Survivors(s.objects, s.enemies)
    ensures r.player.experience == PaidExperience(s.player.experience, s.objects, s.enemies)
    ensures Valid(r) && r.currentMap == s.currentMap && r.animations == s.animations
    ensures SameStats(r.objects, s.objects)
  {
    var e := s.enemies;
    r := s;
    trace := [];
    var k := 0;
    assert e[..0] == [] && draws[..0] == [];
    while k < |e|
      invariant k <= |e| && InStore(s.objects, e[..k])
      invariant r == Round(s, e[..k], draws[..k])
      invariant trace == Actions(s.objects, e[..k])
    {
      RoundStep(s, e, draws, k);
      ActionsStep(s, draws, k);
      var action := if Creatures.IsAlive(r.objects[e[k]].creature) then Turned(e[k]) else Died(e[k]);
      r := Visit(r, e[k], draws[k]);
      trace := trace + [action];
      k := k + 1;
    }
    assert e[..k] == e && draws[..k] == draws;
    RoundSurvivors(s, draws);
    RoundPaid(s, e, draws);
  }

  /** A full round leaves exactly the enemies alive at its start listed, in
      their original order. */
  lemma {:induction false} RoundSurvivors(s: GameState, draws: seq<nat>)
    requires Valid(s) && |draws| == |s.enemies|
    ensures InStore(s.objects, s.enemies)
    ensures Round(s, s.enemies, draws).enemies == Survivors(s.objects, s.enemies)
  {
    var e := s.enemies;
    assert e[..|e|] == e && e[|e|..] == [];
    RoundList(s, e, draws);
    assert Survivors(s.objects, e) + [] == Survivors(s.objects, e);
  }

  /** The action of the k-th visit, judged on the state the visit finds,
      is the reference action: health does not change before it. */
  lemma {:induction false} ActionsStep(s: GameState, draws: seq<nat>, k: nat)
    requires Valid(s) && |draws| == |s.enemies| && k < |s.enemies| && InStore(s.objects, s.enemies[..k])
    ensures var r, id := Round(s, s.enemies[..k], draws[..k]), s.enemies[k];
      Actions(s.objects, s.enemies[..k + 1]) ==
        Actions(s.objects, s.enemies[..k]) + [if Creatures.IsAlive(r.objects[id].creature) then Turned(id) else Died(id)]
  {
    var id := s.enemies[k];
    var r := Round(s, s.enemies[..k], draws[..k]);
    assert r.objects[id].creature.health == s.objects[id].creature.health;
    SplitAt(s.enemies, k);
  }

  // ---------------------------------------------------------------------
  // SpawnInitialEnemies

  /** The ways spawning fails: `Random.Next(5, side - 5)` rejects a side
      shorter than ten, and the model's finite stream of candidate draws can
      run out where the source would keep drawing. */
  datatype SpawnError = EmptySpawnRange | CandidatesExhausted

  /** The two draws behind one candidate position. */
  datatype Candidate = Candidate(dx: nat, dy: nat)

  /** The candidate's cell, `(Next(5, W - 5), Next(5, H - 5))`. */
  function CandidatePoint(m: Maps.Map, c: Candidate): (p: Point)
    requires 10 <= m.width && 10 <= m.height
    ensures 5 <= p.x <= m.width - 5 && 5 <= p.y <= m.height - 5
    ensures m.width > 10 ==> p.x < m.width - 5
    ensures m.height > 10 ==> p.y < m.height - 5
  {
    Point(Next(5, m.width - 5, c.dx), Next(5, m.height - 5, c.dy))
  }

  /** The loop's exit test: a passable cell outside the 19-by-19 box centred
      on the player. */
  function AcceptSpawn(m: Maps.Map, player: Point, p: Point): (r: bool)
    requires Maps.Valid(m)
    ensures r <==> Maps.IsPassable(m, p.x, p.y) && Chebyshev(p, player) >= 10
    ensures r ==> Maps.InBounds(m, p.x, p.y) && p != player
  {
    Maps.IsPassable(m, p.x, p.y) && !(Abs(p.x - player.x) < 10 && Abs(p.y - player.y) < 10)
  }

  predicate Accepts(m: Maps.Map, player: Point, c: Candidate)
    requires Maps.Valid(m) && 10 <= m.width && 10 <= m.height
  {
    AcceptSpawn(m, player, CandidatePoint(m, c))
  }

  /** How many candidates of the stream would be accepted. */
  function CountAccepted(m: Maps.Map, player: Point, cands: seq<Candidate>): (n: nat)
    requires Maps.Valid(m) && 10 <= m.width && 10 <= m.height
    ensures n <= |cands|
  {
    if |cands| == 0 then 0
    else (if Accepts(m, player, cands[0]) then 1 else 0) + CountAccepted(m, player, cands[1..])
  }

  /** The do-while loop: draw candidates until one is accepted. The result is
      the first acceptable candidate's cell and the unused rest of the stream;
      the stream runs out exactly when no candidate in it is acceptable. */
  function FindSpawn(m: Maps.Map, player: Point, cands: seq<Candidate>): (r: Result<(Point, seq<Candidate>), SpawnError>)
    requires Maps.Valid(m) && 10 <= m.width && 10 <= m.height
    ensures r.Err? ==> r.error == CandidatesExhausted && CountAccepted(m, player, cands) == 0
    ensures r.Err? ==> forall i :: 0 <= i < |cands| ==> !Accepts(m, player, cands[i])
    ensures r.Ok? ==>
      var j := |cands| - |r.value.1| - 1;
      && 0 <= j < |cands|
      && r.value.0 == CandidatePoint(m, cands[j])
      && AcceptSpawn(m, player, r.value.0)
      && r.value.1 == cands[j + 1..]
      && (forall i :: 0 <= i < j ==> !Accepts(m, player, cands[i]))
      && CountAccepted(m, player, cands) == 1 + CountAccepted(m, player, r.value.1)
    decreases |cands|
  {
    if |cands| == 0 then Err(CandidatesExhausted)
    else if Accepts(m, player, cands[0]) then Ok((CandidatePoint(m, cands[0]), cands[1..]))
    else
      var r := FindSpawn(m, player, cands[1..]);
      assert CountAccepted(m, player, cands) == CountAccepted(m, player, cands[1..]);
      assert forall i :: 1 <= i < |cands| ==> cands[1..][i - 1] == cands[i];
      r
  }

  const GoblinHealth: i32 := 20
  const GoblinDamage: i32 := 5
  const GoblinExperience: i32 := 25

  /** The k-th goblin (counting from zero): "Goblin k+1", a basic enemy with
      20 health, 5 damage and worth 25 experience, placed at `p`. */
  function Goblin(k: nat, p: Point): (e: Enemy)
    ensures e.creature.entity.name == "Goblin " + Text.IntToString(k + 1)
    ensures e.creature.entity.symbol == 'E' && Position(e) == p
    ensures e.creature.health == e.creature.maxHealth == 20 && e.creature.damage == 5
    ensures e.experienceValue == 25 && e.detectionRange == 8
  {
    PlaceEnemy(NewBasicEnemy("Goblin " + Text.IntToString(k + 1), GoblinHealth, GoblinDamage, GoblinExperience), p)
  }

  /** A correctly built goblin for spawn number `k` (counting from zero), on
      an accepted cell inside the drawing range of map `m`. */
  predicate GoodGoblin(m: Maps.Map, player: Point, k: nat, e: Enemy)
    requires Maps.Valid(m)
  {
    && e.creature.entity.name == "Goblin " + Text.IntToString(k + 1)
    && e.creature.health == e.creature.maxHealth == 20 && e.creature.damage == 5
    && e.experienceValue == 25 && e.creature.entity.symbol == 'E' && e.detectionRange == 8
    && 5 <= Position(e).x <= m.width - 5 && 5 <= Position(e).y <= m.height - 5
    && (m.width > 10 ==> Position(e).x < m.width - 5)
    && (m.height > 10 ==> Position(e).y < m.height - 5)
    && AcceptSpawn(m, player, Position(e))
  }

  /** A goblin built on an accepted candidate cell is a good one. */
  lemma GoblinOnCandidate(m: Maps.Map, player: Point, k: nat, c: Candidate, p: Point)
    requires Maps.Valid(m) && 10 <= m.width && 10 <= m.height
    requires p == CandidatePoint(m, c) && AcceptSpawn(m, player, p)
    ensures GoodGoblin(m, player, k, Goblin(k, p))
  {
  }

  /** `SpawnInitialEnemies`: five goblins, each on the first acceptable
      candidate left in the stream, stored after the existing enemy objects
      and listed after the existing enemies. Fails on a side shorter than ten,
      and otherwise exactly when the stream holds fewer than five acceptable
      candidates. */
  method SpawnInitialEnemies(s: GameState, cands: seq<Candidate>) returns (r: Result<GameState, SpawnError>)
    requires Valid(s)
    ensures r.Err? && r.error == EmptySpawnRange <==> s.currentMap.width < 10 || s.currentMap.height < 10
    ensures r.Err? && r.error == CandidatesExhausted <==>
      10 <= s.currentMap.width && 10 <= s.currentMap.height && CountAccepted(s.currentMap, PlayerPosition(s), cands) < 5
    ensures r.Ok? ==>
      var n := |s.objects|;
      && Valid(r.value)
      && r.value.player == s.player && r.value.currentMap == s.currentMap && r.value.animations == s.animations
      && |r.value.objects| == n + 5 && r.value.objects[..n] == s.objects
      && r.value.enemies == s.enemies + [n, n + 1, n + 2, n + 3, n + 4]
      && var goblins := r.value.objects[n..];
         forall k :: 0 <= k < |goblins| ==> GoodGoblin(s.currentMap, PlayerPosition(s), k, goblins[k])
  {
    if s.currentMap.width < 10 || s.currentMap.height < 10 {
      return Err(EmptySpawnRange);
    }
    var spawned := SpawnGoblins(s.currentMap, PlayerPosition(s), cands);
    if spawned.Err? {
      return Err(spawned.error);
    }
    var goblins, n := spawned.value, |s.objects|;
    var t := s.(objects := s.objects + goblins, enemies := s.enemies + [n, n + 1, n + 2, n + 3, n + 4]);
    assert t.objects[..n] == s.objects;
    assert t.objects[n..] == goblins;
    return Ok(t);
  }

  /** The rejection loop of the spawner: five goblins, each on the next
      candidate the acceptance test lets through. */
  method SpawnGoblins(m: Maps.Map, player: Point, cands: seq<Candidate>) returns (r: Result<seq<Enemy>, SpawnError>)
    requires Maps.Valid(m) && 10 <= m.width && 10 <= m.height
    ensures r.Err? <==> CountAccepted(m, player, cands) < 5
    ensures r.Err? ==> r.error == CandidatesExhausted
    ensures r.Ok? ==> |r.value| == 5 && forall k :: 0 <= k < |r.value| ==> GoodGoblin(m, player, k, r.value[k])
  {
    var goblins: seq<Enemy> := [];
    var rest := cands;
    while |goblins| < 5
      invariant |goblins| <= 5
      invariant forall k :: 0 <= k < |goblins| ==> GoodGoblin(m, player, k, goblins[k])
      invariant CountAccepted(m, player, cands) == |goblins| + CountAccepted(m, player, rest)
    {
      var found := FindSpawn(m, player, rest);
      if found.Err? {
        return Err(CandidatesExhausted);
      }
      var j := |rest| - |found.value.1| - 1;
      GoblinOnCandidate(m, player, |goblins|, rest[j], found.value.0);
      goblins := goblins + [Goblin(|goblins|, found.value.0)];
      rest := found.value.1;
    }
    return Ok(goblins);
  }

  /** The constructor: a 90-by-50 walled room, the player in its centre cell
      `(45, 25)`, no animations, and five goblins spawned from `cands`. The
      room is wide and tall enough for the drawing range, so the only way to
      fail is a stream with fewer than five acceptable candidates. */
  method NewGameState(cands: seq<Candidate>) returns (r: Result<GameState, SpawnError>)
    ensures r.Err? ==> r.error == CandidatesExhausted
    ensures r.Ok? ==>
      && Valid(r.value)
      && r.value.currentMap.width == 90 && r.value.currentMap.height == 50
      && Maps.WalledRoom(r.value.currentMap)
      && r.value.player == PlacePlayer(NewPlayer(), Point(45, 25))
      && r.value.animations == []
      && |r.value.objects| == 5 && r.value.enemies == [0, 1, 2, 3, 4]
      && forall k :: 0 <= k < |r.value.objects| ==>
           GoodGoblin(r.value.currentMap, Point(45, 25), k, r.value.objects[k])
  {
    var built := Maps.NewMap(90, 50);
    if built.Err? {
      assert false;
      return Err(CandidatesExhausted);
    }
    var m := built.value;
    var player := PlacePlayer(NewPlayer(), Point(m.width / 2, m.height / 2));
    var s := GameState(player, m, [], [], []);
    r := SpawnInitialEnemies(s, cands);
    if r.Ok? {
      assert r.value.objects[0..] == r.value.objects;
    }
  }

  // ---------------------------------------------------------------------
  // Projectiles

  /** Whether a projectile fired from `source` at `target` is complete as
      soon as it is built: its squared distance, computed in wrapping 32-bit
      arithmetic, is not positive (zero, or negative so that its square root
      is not a number). */
  function StartsCompleted(source: Point, target: Point): (r: bool)
    ensures source == target ==> r
  {
    var dx, dy := Wrap(target.x - source.x), Wrap(target.y - source.y);
    Wrap(dx * dx + dy * dy) <= 0
  }

  /** For cells less than 2^15 apart on each axis, which every map of the
      game holds, no wrap-around occurs and a projectile starts completed
      exactly when it is fired at its own cell. */
  lemma StartsCompletedNear(source: Point, target: Point)
    requires Abs(target.x - source.x) < 0x8000 && Abs(target.y - source.y) < 0x8000
    ensures StartsCompleted(source, target) <==> source == target
  {
    var dx, dy := target.x - source.x, target.y - source.y;
    SquareBelow(dx);
    SquareBelow(dy);
    assert Wrap(dx) == dx && Wrap(dy) == dy;
    assert IsInt32(dx * dx + dy * dy);
  }

  lemma SquareBelow(x: int)
    requires Abs(x) < 0x8000
    ensures 0 <= x * x < 0x4000_0000
  {
    var a := Abs(x);
    assert x * x == a * a;
    MulMono(a, 0x7fff, a);
    MulMono(a, 0x7fff, 0x7fff);
  }

  lemma MulMono(a: int, b: int, c: int)
    requires 0 <= a <= b && 0 <= c
    ensures a * c <= b * c
  {
  }

  /** `CreateFireballAnimation` and `CreateArrowAnimation`: a projectile of
      the given kind, aimed at the enemy's current cell and carrying
      `damage`, goes at the end of the animation list; nothing else
      changes. */
  function CreateProjectile(s: GameState, kind: Projectile, source: Point, id: nat, damage: i32): (r: GameState)
    requires id < |s.objects|
    ensures |r.animations| == |s.animations| + 1 && r.animations[..|s.animations|] == s.animations
    ensures var a := r.animations[|s.animations|];
      && a.kind == kind && a.target == id && a.damage == damage
      && a.targetPosition == Position(s.objects[id])
      && a.isCompleted == StartsCompleted(source, Position(s.objects[id]))
    ensures r.player == s.player && r.currentMap == s.currentMap
    ensures r.objects == s.objects && r.enemies == s.enemies
  {
    var target := Position(s.objects[id]);
    s.(animations := s.animations + [Animation(kind, id, target, damage, StartsCompleted(source, target))])
  }

  /** One animation's `Update`. The projectile flies as far as the time
      elapsed since its last update allows; on coming within one cell of its
      target cell it completes and strikes. Whether that happens in this
      update depends on the animation's own clock and floating-point position,
      which the model receives as `arrives`. */
  function Advance(a: Animation, arrives: bool): (r: Animation)
    ensures r.isCompleted <==> a.isCompleted || arrives
    ensures r.(isCompleted := a.isCompleted) == a
  {
    if arrives then a.(isCompleted := true) else a
  }

  /** `ApplyEffect`: the projectile's damage goes to its target enemy if that
      enemy is still alive; nothing else is touched. */
  function Hit(objects: seq<Enemy>, a: Animation): (r: seq<Enemy>)
    ensures |r| == |objects|
    ensures forall j :: 0 <= j < |objects| && j != a.target ==> r[j] == objects[j]
    ensures a.target < |objects| && !Creatures.IsAlive(objects[a.target].creature) ==> r == objects
    ensures a.target < |objects| && Creatures.IsAlive(objects[a.target].creature) ==>
      r[a.target] == Enemies.TakeDamage(objects[a.target], a.damage)
  {
    var id := a.target;
    if id < |objects| && Creatures.IsAlive(objects[id].creature)
    then objects[id := Enemies.TakeDamage(objects[id], a.damage)]
    else objects
  }

  /** Reference definition: the object store after the strikes of the
      projectiles in `anims` that reach their targets (`reaches[k]` for the
      k-th), the last animation first, as the backward loop updates them. */
  function Hits(objects: seq<Enemy>, anims: seq<Animation>, reaches: seq<bool>): (r: seq<Enemy>)
    requires |reaches| == |anims|
    ensures |r| == |objects|
  {
    if |anims| == 0 then objects
    else
      var rest := Hits(objects, anims[1..], reaches[1..]);
      if reaches[0] then Hit(rest, anims[0]) else rest
  }

  /** The strikes of `anims[i..]`: the strike of `anims[i]`, if it lands, on
      the store the later animations left. */
  lemma HitsStep(objects: seq<Enemy>, anims: seq<Animation>, reaches: seq<bool>, i: nat)
    requires |reaches| == |anims| && i < |anims|
    ensures var rest := Hits(objects, anims[i + 1..], reaches[i + 1..]);
      Hits(objects, anims[i..], reaches[i..]) == if reaches[i] then Hit(rest, anims[i]) else rest
  {
    assert anims[i..][0] == anims[i] && anims[i..][1..] == anims[i + 1..];
    assert reaches[i..][0] == reaches[i] && reaches[i..][1..] == reaches[i + 1..];
  }

  /** An enemy no landing projectile targets is untouched. */
  lemma {:induction false} HitsSpareUntargeted(objects: seq<Enemy>, anims: seq<Animation>, reaches: seq<bool>, j: nat)
    requires |reaches| == |anims| && j < |objects|
    requires forall k :: 0 <= k < |anims| && reaches[k] ==> anims[k].target != j
    ensures Hits(objects, anims, reaches)[j] == objects[j]
  {
    if |anims| > 0 {
      assert forall k :: 0 <= k < |anims[1..]| ==> anims[1..][k] == anims[k + 1] && reaches[1..][k] == reaches[k + 1];
      HitsSpareUntargeted(objects, anims[1..], reaches[1..], j);
    }
  }

  /** A dead enemy is untouched: strikes on it are ignored. */
  lemma {:induction false} HitsSpareDead(objects: seq<Enemy>, anims: seq<Animation>, reaches: seq<bool>, j: nat)
    requires |reaches| == |anims| && j < |objects| && !Creatures.IsAlive(objects[j].creature)
    ensures Hits(objects, anims, reaches)[j] == objects[j]
  {
    if |anims| > 0 {
      HitsSpareDead(objects, anims[1..], reaches[1..], j);
    }
  }

  /** Strikes change only health: each enemy keeps its entity, maximum
      health, damage, experience value and detection range. */
  lemma {:induction false} HitsOnlyHealth(objects: seq<Enemy>, anims: seq<Animation>, reaches: seq<bool>, j: nat)
    requires |reaches| == |anims| && j < |objects|
    ensures var h := Hits(objects, anims, reaches)[j].creature.health;
      Hits(objects, anims, reaches)[j] == objects[j].(creature := objects[j].creature.(health := h))
  {
    if |anims| > 0 {
      HitsOnlyHealth(objects, anims[1..], reaches[1..], j);
    }
  }

  /** Strikes of non-negative damage never heal: an enemy's health stays
      between zero and what it was. */
  lemma {:induction false} HitsNeverHeal(objects: seq<Enemy>, anims: seq<Animation>, reaches: seq<bool>, j: nat)
    requires |reaches| == |anims| && j < |objects| && objects[j].creature.health >= 0
    requires forall k :: 0 <= k < |anims| ==> anims[k].damage >= 0
    ensures 0 <= Hits(objects, anims, reaches)[j].creature.health <= objects[j].creature.health
  {
    if |anims| > 0 {
      assert forall k :: 0 <= k < |anims[1..]| ==> anims[1..][k] == anims[k + 1];
      HitsNeverHeal(objects, anims[1..], reaches[1..], j);
    }
  }

  // ---------------------------------------------------------------------
  // UpdateAnimations

  /** Reference definition: the animations that are still running, in their
      list order. */
  function Running(anims: seq<Animation>): (r: seq<Animation>)
    ensures |r| <= |anims|
  {
    if |anims| == 0 then []
    else (if anims[0].isCompleted then [] else [anims[0]]) + Running(anims[1..])
  }

  /** Exactly the running animations are kept. */
  lemma {:induction false} RunningMembers(anims: seq<Animation>, a: Animation)
    ensures a in Running(anims) <==> a in anims && !a.isCompleted
  {
    if |anims| > 0 {
      RunningMembers(anims[1..], a);
      assert anims == [anims[0]] + anims[1..];
    }
  }

  /** Filtering works piecewise, so animations kept from the front of the
      list stay ahead of those kept from the back. */
  lemma {:induction false} RunningAppend(a: seq<Animation>, b: seq<Animation>)
    ensures Running(a + b) == Running(a) + Running(b)
  {
    if |a| == 0 {
      assert a + b == b;
    } else {
      RunningAppend(a[1..], b);
      assert (a + b)[1..] == a[1..] + b;
      assert (a + b)[0] == a[0];
      var head := if a[0].isCompleted then [] else [a[0]];
      var x, y := Running(a[1..]), Running(b);
      assert Running(a + b) == head + (x + y);
      assert Running(a) == head + x;
      AppendAssoc(head, x, y);
    }
  }

  /** A second pruning finds nothing more to remove. */
  lemma {:induction false} RunningIdempotent(anims: seq<Animation>)
    ensures Running(Running(anims)) == Running(anims)
  {
    if |anims| > 0 {
      RunningIdempotent(anims[1..]);
      var head := if anims[0].isCompleted then [] else [anims[0]];
      RunningAppend(head, Running(anims[1..]));
    }
  }

  /** The animations after each has run its `Update`, the k-th arriving
      exactly when `reaches[k]` holds. */
  function UpdatedAll(anims: seq<Animation>, reaches: seq<bool>): (r: seq<Animation>)
    requires |reaches| == |anims|
    ensures |r| == |anims| && forall k :: 0 <= k < |anims| ==> r[k] == Advance(anims[k], reaches[k])
  {
    seq(|anims|, k requires 0 <= k < |anims| => Advance(anims[k], reaches[k]))
  }

  /** Updating works piecewise over a split of the list and its outcomes. */
  lemma UpdatedAllSplit(anims: seq<Animation>, reaches: seq<bool>, k: nat)
    requires |reaches| == |anims| && k < |anims|
    ensures UpdatedAll(anims, reaches) ==
      UpdatedAll(anims[..k], reaches[..k]) + [Advance(anims[k], reaches[k])] + UpdatedAll(anims[k + 1..], reaches[k + 1..])
  {
  }

  /** The projectile in slot `k` that strikes completes, so that slot alone
      leaves the list: the running animations are those from the slots
      before it followed by those from the slots after it. */
  lemma StrikersRemoved(anims: seq<Animation>, reaches: seq<bool>, k: nat)
    requires |reaches| == |anims| && k < |anims| && reaches[k]
    ensures Running(UpdatedAll(anims, reaches)) ==
      Running(UpdatedAll(anims[..k], reaches[..k])) + Running(UpdatedAll(anims[k + 1..], reaches[k + 1..]))
  {
    var before, after := UpdatedAll(anims[..k], reaches[..k]), UpdatedAll(anims[k + 1..], reaches[k + 1..]);
    var hit := Advance(anims[k], true);
    UpdatedAllSplit(anims, reaches, k);
    RunningAppend(before + [hit], after);
    RunningAppend(before, [hit]);
    assert Running([hit]) == [] by {
      assert [hit][1..] == [];
    }
    assert before + [] == before;
  }

  /** Each slot has its own outcome: of two identical running projectiles
      the first can land while the second keeps flying, so the target takes
      one strike and one of the two stays in the list. */
  lemma TwinsAdvanceApart(objects: seq<Enemy>, a: Animation)
    requires !a.isCompleted
    ensures Running(UpdatedAll([a, a], [true, false])) == [a]
    ensures Hits(objects, [a, a], [true, false]) == Hit(objects, a)
  {
    var all := UpdatedAll([a, a], [true, false]);
    assert all == [a.(isCompleted := true), a];
    assert all[1..] == [a] && all[1..][1..] == [];
    assert [a, a][1..] == [a] && [a][1..] == [] && [true, false][1..] == [false] && [false][1..] == [];
    assert Hits(objects, [a], [false]) == Hits(objects, [], []) == objects;
  }

  /** The pruning loop of `UpdateAnimations`: from the last animation down to
      the first, update it (a projectile that arrives strikes its target) and
      remove it at its index if it has completed. Going backwards, a removal
      only shifts animations already visited, so the result is the running
      animations after their update, in order, and the store after every
      strike. `reaches[i]` is the outcome of the update of slot `i`. */
  method PruneCompleted(anims: seq<Animation>, objects: seq<Enemy>, reaches: seq<bool>)
    returns (r: seq<Animation>, struck: seq<Enemy>)
    requires |reaches| == |anims|
    ensures r == Running(UpdatedAll(anims, reaches))
    ensures struck == Hits(objects, anims, reaches)
    ensures forall k :: 0 <= k < |r| ==> !r[k].isCompleted
  {
    var all := UpdatedAll(anims, reaches);
    r, struck := anims, objects;
    var i := |anims|;
    while i > 0
      invariant 0 <= i <= |anims|
      invariant r == anims[..i] + Running(all[i..])
      invariant struck == Hits(objects, anims[i..], reaches[i..])
    {
      i := i - 1;
      PruneStep(anims, reaches, r, i);
      HitsStep(objects, anims, reaches, i);
      if reaches[i] {
        struck := Hit(struck, r[i]);
      }
      var a := Advance(r[i], reaches[i]);
      if a.isCompleted {
        r := RemoveAt(r, i);
      } else {
        r := r[i := a];
      }
    }
    assert all[0..] == all && anims[0..] == anims && reaches[0..] == reaches;
    forall k | 0 <= k < |r|
      ensures !r[k].isCompleted
    {
      RunningMembers(all, r[k]);
    }
  }

  /** One backward step of the pruning loop: slot `i` still holds the
      original animation; dropping it or storing its update extends the
      running suffix by one position. */
  lemma PruneStep(anims: seq<Animation>, reaches: seq<bool>, r: seq<Animation>, i: nat)
    requires |reaches| == |anims| && i < |anims|
    requires r == anims[..i + 1] + Running(UpdatedAll(anims, reaches)[i + 1..])
    ensures i < |r| && r[i] == anims[i]
    ensures var all := UpdatedAll(anims, reaches);
      if all[i].isCompleted then RemoveAt(r, i) == anims[..i] + Running(all[i..])
      else r[i := all[i]] == anims[..i] + Running(all[i..])
  {
    var all := UpdatedAll(anims, reaches);
    var a, done := all[i], Running(all[i + 1..]);
    SplitAt(anims, i);
    assert all[i..] == [a] + all[i + 1..];
    AppendAssoc(anims[..i], [anims[i]], done);
    assert r == anims[..i] + ([anims[i]] + done);
    if a.isCompleted {
      assert RemoveAt(r, i) == anims[..i] + done;
    } else {
      assert r[i := a] == anims[..i] + ([a] + done);
    }
  }

  /** `UpdateAnimations` on the state: the animation list is pruned and the
      landing projectiles' strikes are applied to the enemy objects; the
      player, the map and the enemy list do not change. `reaches` holds one
      outcome per animation slot. */
  method UpdateAnimations(s: GameState, reaches: seq<bool>) returns (r: GameState)
    requires |reaches| == |s.animations|
    ensures r.animations == Running(UpdatedAll(s.animations, reaches))
    ensures r.objects == Hits(s.objects, s.animations, reaches)
    ensures r.player == s.player && r.currentMap == s.currentMap && r.enemies == s.enemies
    ensures Valid(s) ==> Valid(r)
  {
    var anims, struck := PruneCompleted(s.animations, s.objects, reaches);
    r := s.(animations := anims, objects := struck);
  }
}
