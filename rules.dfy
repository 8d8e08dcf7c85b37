/** The side-effect-free rules of the engine: enemy occupancy, engagement,
    facing, damage, the scripted enemy step, the scripted phase of a tick,
    nearest-enemy selection and the win condition. */
module Rules {
  import opened Types
  import opened Geometry
  import opened WorldMap

  // ---------------------------------------------------------------------------
  // Occupancy

  /** A living enemy stands on `p`. */
  predicate IsEnemyAtPosition(es: seq<Enemy>, p: Position) {
    exists i :: 0 <= i < |es| && LivingAt(es, i, p)
  }

  predicate LivingAt(es: seq<Enemy>, i: int, p: Position)
    requires 0 <= i < |es|
  {
    es[i].position == p && es[i].health > 0
  }

  /** The first living enemy on `p` (Array.prototype.find), by index. */
  function FirstLivingAt(es: seq<Enemy>, p: Position): (r: Option<nat>)
    ensures r.Some? <==> IsEnemyAtPosition(es, p)
    ensures r.Some? ==> r.value < |es| && LivingAt(es, r.value, p)
    ensures r.Some? ==> forall j :: 0 <= j < r.value ==> !LivingAt(es, j, p)
  {
    FirstLivingFrom(es, p, 0)
  }

  function FirstLivingFrom(es: seq<Enemy>, p: Position, i: nat): (r: Option<nat>)
    requires i <= |es|
    decreases |es| - i
    ensures r.Some? <==> exists j :: i <= j < |es| && LivingAt(es, j, p)
    ensures r.Some? ==> i <= r.value < |es| && LivingAt(es, r.value, p)
    ensures r.Some? ==> forall j :: i <= j < r.value ==> !LivingAt(es, j, p)
  {
    if i == |es| then None
    else if LivingAt(es, i, p) then Some(i)
    else FirstLivingFrom(es, p, i + 1)
  }

  /** Index into `Dirs` (up, right, down, left) of the first neighbour of `pos`
      that holds a living enemy. */
  function FirstNeighbourDir(pos: Position, es: seq<Enemy>): (r: Option<nat>)
    ensures r.Some? ==> r.value < |Dirs| && IsEnemyAtPosition(es, Add(pos, Dirs[r.value]))
    ensures r.Some? ==> forall j :: 0 <= j < r.value ==> !IsEnemyAtPosition(es, Add(pos, Dirs[j]))
    ensures r.None? ==> forall j :: 0 <= j < |Dirs| ==> !IsEnemyAtPosition(es, Add(pos, Dirs[j]))
  {
    NeighbourFrom(pos, es, 0)
  }

  function NeighbourFrom(pos: Position, es: seq<Enemy>, k: nat): (r: Option<nat>)
    requires k <= |Dirs|
    decreases |Dirs| - k
    ensures r.Some? ==> k <= r.value < |Dirs| && IsEnemyAtPosition(es, Add(pos, Dirs[r.value]))
    ensures r.Some? ==> forall j :: k <= j < r.value ==> !IsEnemyAtPosition(es, Add(pos, Dirs[j]))
    ensures r.None? ==> forall j :: k <= j < |Dirs| ==> !IsEnemyAtPosition(es, Add(pos, Dirs[j]))
  {
    if k == |Dirs| then None
    else if IsEnemyAtPosition(es, Add(pos, Dirs[k])) then Some(k)
    else NeighbourFrom(pos, es, k + 1)
  }

  /** Some living enemy is an orthogonal neighbour of `pos`. */
  predicate HasLivingNeighbour(pos: Position, es: seq<Enemy>) {
    exists i :: 0 <= i < |es| && es[i].health > 0 && Orthogonal(pos, es[i].position)
  }

  /** The orthogonal neighbours of `p` are exactly its four cells along `Dirs`. */
  lemma OrthogonalIsNeighbour(p: Position, q: Position)
    ensures Orthogonal(p, q) <==> exists k :: 0 <= k < |Dirs| && q == Add(p, Dirs[k])
  {
    if Orthogonal(p, q) {
      var k := if q.y < p.y then 0 else if q.x > p.x then 1 else if q.y > p.y then 2 else 3;
      assert q == Add(p, Dirs[k]);
    }
  }

  /** The scan in direction order finds a neighbour iff a living enemy is adjacent. */
  lemma FirstNeighbourDirIffAdjacent(pos: Position, es: seq<Enemy>)
    ensures FirstNeighbourDir(pos, es).Some? <==> HasLivingNeighbour(pos, es)
  {
    var r := FirstNeighbourDir(pos, es);
    if r.Some? {
      var i :| 0 <= i < |es| && LivingAt(es, i, Add(pos, Dirs[r.value]));
      OrthogonalIsNeighbour(pos, es[i].position);
    }
    if HasLivingNeighbour(pos, es) {
      var i :| 0 <= i < |es| && es[i].health > 0 && Orthogonal(pos, es[i].position);
      OrthogonalIsNeighbour(pos, es[i].position);
      var k :| 0 <= k < |Dirs| && es[i].position == Add(pos, Dirs[k]);
      assert LivingAt(es, i, Add(pos, Dirs[k]));
    }
  }

  /** With a unit heading and no living neighbour, the forward cell holds no living
      enemy: the blocked-in-front branch of moveForward cannot be reached. */
  lemma NoNeighbourMeansFrontIsClear(pos: Position, d: Direction, es: seq<Enemy>)
    requires IsUnit(d) && !HasLivingNeighbour(pos, es)
    ensures !IsEnemyAtPosition(es, Add(pos, d))
  {
  }

  // ---------------------------------------------------------------------------
  // Engagement and combat

  /** The robot is engaged by an enemy when it occupies one of the enemy's four
      neighbour cells along `Dirs` other than the cell behind it. */
  predicate IsPlayerAdjacentToEnemy(robotPos: Position, e: Enemy) {
    exists k :: 0 <= k < |Dirs| && Add(e.position, Dirs[k]) != Behind(e.position, e.direction)
                               && Add(e.position, Dirs[k]) == robotPos
  }

  /** Engagement is orthogonal adjacency everywhere but behind the enemy. */
  lemma EngagementIsOrthogonal(robotPos: Position, e: Enemy)
    ensures IsPlayerAdjacentToEnemy(robotPos, e) <==>
              Orthogonal(e.position, robotPos) && robotPos != Behind(e.position, e.direction)
  {
    OrthogonalIsNeighbour(e.position, robotPos);
  }

  /** The enemy turns its heading to the vector pointing at the robot. */
  function TurnedTowards(robotPos: Position, e: Enemy): (r: Enemy)
    ensures r == e.(direction := r.direction)
    ensures Add(e.position, r.direction) == robotPos
  {
    var d := Direction(robotPos.x - e.position.x, robotPos.y - e.position.y);
    if e.direction != d then e.(direction := d) else e
  }

  /** An engaged enemy that turns to the robot faces it along a unit vector. */
  lemma EngagedEnemyFacesRobot(robotPos: Position, e: Enemy)
    requires IsPlayerAdjacentToEnemy(robotPos, e)
    ensures IsUnit(TurnedTowards(robotPos, e).direction)
  {
  }

  /** The robot's hit on an enemy: 4 from behind (the enemy's back cell is the
      attacker's cell), 1 otherwise. */
  function AttackDamage(attackerPos: Position, e: Enemy): (d: int)
    ensures d == 4 || d == 1
    ensures d == 4 <==> Behind(e.position, e.direction) == attackerPos
  {
    if e.position.x - e.direction.dx == attackerPos.x && e.position.y - e.direction.dy == attackerPos.y
    then 4 else 1
  }

  /** For an enemy right in front of the robot, the back-attack bonus applies iff
      the enemy faces the same way as the robot, i.e. away from it. */
  lemma BackAttackIffFacingAway(pos: Position, dir: Direction, e: Enemy)
    requires e.position == Add(pos, dir)
    ensures AttackDamage(pos, e) == 4 <==> e.direction == dir
  {
  }

  /** Damage of one enemy hit on the robot. */
  const EnemyDamage: real := 1.2

  /** The engine skips the hit when health is missing or zero (a falsy value). */
  predicate Truthy(h: Option<real>) {
    h.Some? && h.value != 0.0
  }

  /** The robot's health after an enemy hit. */
  function EnemyHit(h: Option<real>): (r: Option<real>)
    ensures Truthy(h) ==> r == Some(h.value - EnemyDamage)
    ensures !Truthy(h) ==> r == h
  {
    if Truthy(h) then Some(h.value - EnemyDamage) else h
  }

  // ---------------------------------------------------------------------------
  // Scripted behaviour

  /** Well-formed play-head: inside the script, unless the script is empty. */
  predicate CursorOk(e: Enemy) {
    |e.behavior| == 0 || 0 <= e.currentBehaviorIndex < |e.behavior|
  }

  /** The play-head after one scripted step: the next action, wrapping to the first. */
  function NextCursor(e: Enemy): int
    requires |e.behavior| > 0
  {
    (e.currentBehaviorIndex + 1) % |e.behavior|
  }

  predicate EnemyOk(e: Enemy) {
    IsUnit(e.direction) && CursorOk(e)
  }

  predicate AllEnemiesOk(es: seq<Enemy>) {
    forall i :: 0 <= i < |es| ==> EnemyOk(es[i])
  }

  /** A cell an enemy may step on: walkable and free of living enemies. */
  predicate IsFree(g: Grid, es: seq<Enemy>, p: Position) {
    IsValidPosition(g, p.x, p.y) && !IsEnemyAtPosition(es, p)
  }

  /** rotateEnemyToOpenDirection: the first free heading among a right turn, a left
      turn and a reversal; the heading is kept when all three are blocked (or when it
      is not one of the four unit vectors). The enemy does not move. */
  function OpenDirection(g: Grid, es: seq<Enemy>, e: Enemy): (d: Direction)
    ensures !IsUnit(e.direction) ==> d == e.direction
    ensures IsUnit(e.direction) ==> IsUnit(d)
  {
    if !IsUnit(e.direction) then e.direction
    else
      var k := DirIndex(e.direction);
      DirsCycle(k);
      var right, left, back := Dirs[(k + 1) % 4], Dirs[(k + 3) % 4], Dirs[(k + 2) % 4];
      if IsFree(g, es, Add(e.position, right)) then right
      else if IsFree(g, es, Add(e.position, left)) then left
      else if IsFree(g, es, Add(e.position, back)) then back
      else e.direction
  }

  /** The open direction in terms of turns: the right turn when its cell is free,
      else the left turn, else the reversal, else the heading is kept. */
  lemma OpenDirectionChoice(g: Grid, es: seq<Enemy>, e: Enemy)
    requires IsUnit(e.direction)
    ensures var p, dir := e.position, e.direction;
      OpenDirection(g, es, e) ==
        if IsFree(g, es, Add(p, TurnRightOf(dir))) then TurnRightOf(dir)
        else if IsFree(g, es, Add(p, TurnLeftOf(dir))) then TurnLeftOf(dir)
        else if IsFree(g, es, Add(p, Reverse(dir))) then Reverse(dir)
        else dir
  {
    DirsCycle(DirIndex(e.direction));
  }

  /** The open direction read off the direction table at the heading's index k:
      the entries one, three and two places on are the right turn, the left turn and
      the reversal. */
  lemma OpenDirectionAt(g: Grid, es: seq<Enemy>, e: Enemy, k: nat)
    requires k < |Dirs| && Dirs[k] == e.direction
    ensures var right, left, back := Dirs[(k + 1) % 4], Dirs[(k + 3) % 4], Dirs[(k + 2) % 4];
      OpenDirection(g, es, e) ==
        if IsFree(g, es, Add(e.position, right)) then right
        else if IsFree(g, es, Add(e.position, left)) then left
        else if IsFree(g, es, Add(e.position, back)) then back
        else e.direction
  {
    assert DirIndex(e.direction) == k;
  }

  /** executeEnemyBehavior on enemy i of `es`: one step of its cyclic script.
      Occupancy is read from `es` as it stands. */
  function BehaviorStep(g: Grid, robotPos: Position, es: seq<Enemy>, i: nat): (r: Enemy)
    requires i < |es| && CursorOk(es[i])
    // an empty script is a no-op
    ensures |es[i].behavior| == 0 ==> r == es[i]
    // otherwise the play-head always advances, wrapping around
    ensures |es[i].behavior| > 0 ==>
      r.currentBehaviorIndex == NextCursor(es[i])
    // identity, health and script never change
    ensures r.id == es[i].id && r.health == es[i].health && r.behavior == es[i].behavior
    ensures CursorOk(r)
    ensures IsUnit(es[i].direction) ==> IsUnit(r.direction)
  {
    var e := es[i];
    if |e.behavior| == 0 then e
    else
      var next := NextCursor(e);
      match e.behavior[e.currentBehaviorIndex]
      case MoveForward =>
        if IsPlayerAdjacentToEnemy(robotPos, e) then e.(currentBehaviorIndex := next)
        else
          var p := Add(e.position, e.direction);
          if IsValidPosition(g, p.x, p.y) && !IsEnemyAtPosition(es, p)
          then e.(position := p, currentBehaviorIndex := next)
          else e.(direction := OpenDirection(g, es, e), currentBehaviorIndex := next)
      case TurnLeft => e.(direction := TurnLeftOf(e.direction), currentBehaviorIndex := next)
      case TurnRight => e.(direction := TurnRightOf(e.direction), currentBehaviorIndex := next)
  }

  /** How one scripted step moves and turns enemy i. */
  lemma BehaviorStepMoves(g: Grid, robotPos: Position, es: seq<Enemy>, i: nat)
    requires i < |es| && CursorOk(es[i])
    ensures var e, r := es[i], BehaviorStep(g, robotPos, es, i);
      // one step forward exactly when the action is move_forward, the robot does not
      // engage the enemy and the forward cell is walkable and free
      (r.position != e.position ==> r.position == Add(e.position, e.direction)) &&
      (IsUnit(e.direction) ==>
        (r.position != e.position <==>
          |e.behavior| > 0 && e.behavior[e.currentBehaviorIndex] == MoveForward &&
          !IsPlayerAdjacentToEnemy(robotPos, e) && IsFree(g, es, Add(e.position, e.direction))))
    ensures var e, r := es[i], BehaviorStep(g, robotPos, es, i);
      |e.behavior| > 0 && e.behavior[e.currentBehaviorIndex] == MoveForward ==>
        // an engaged enemy holds both its cell and its heading
        (IsPlayerAdjacentToEnemy(robotPos, e) ==> r.position == e.position && r.direction == e.direction) &&
        // a blocked one keeps its cell and turns to an open direction
        (!IsPlayerAdjacentToEnemy(robotPos, e) && !IsFree(g, es, Add(e.position, e.direction)) ==>
           r.position == e.position && r.direction == OpenDirection(g, es, e))
    // turns rotate exactly as the robot's turns do
    ensures var e, r := es[i], BehaviorStep(g, robotPos, es, i);
      |e.behavior| > 0 && e.behavior[e.currentBehaviorIndex] == TurnLeft ==>
        r.position == e.position && r.direction == TurnLeftOf(e.direction)
    ensures var e, r := es[i], BehaviorStep(g, robotPos, es, i);
      |e.behavior| > 0 && e.behavior[e.currentBehaviorIndex] == TurnRight ==>
        r.position == e.position && r.direction == TurnRightOf(e.direction)
  {
  }

  /** Result of the scripted part of a tick: the enemies afterwards and the first
      living enemy found engaged, if any. */
  datatype Phase = Phase(enemies: seq<Enemy>, engaged: Option<nat>)

  /** Stepping enemy i keeps every enemy well formed. */
  lemma StepKeepsEnemiesOk(g: Grid, robotPos: Position, es: seq<Enemy>, i: nat)
    requires i < |es| && AllEnemiesOk(es)
    ensures AllEnemiesOk(es[i := BehaviorStep(g, robotPos, es, i)])
  {
    var es' := es[i := BehaviorStep(g, robotPos, es, i)];
    forall j | 0 <= j < |es'| ensures EnemyOk(es'[j]) {
      if j != i {
        assert es'[j] == es[j];
      }
    }
  }

  /** The living enemies from index i on, in list order: each one that is not
      engaged takes a scripted step, until the first engaged one is reached. */
  function ScriptedPhase(g: Grid, robotPos: Position, es: seq<Enemy>, i: nat): (r: Phase)
    requires i <= |es| && AllEnemiesOk(es)
    decreases |es| - i
    ensures |r.enemies| == |es| && AllEnemiesOk(r.enemies)
  {
    if i == |es| then Phase(es, None)
    else if es[i].health <= 0 then ScriptedPhase(g, robotPos, es, i + 1)
    else if IsPlayerAdjacentToEnemy(robotPos, es[i]) then Phase(es, Some(i))
    else
      StepKeepsEnemiesOk(g, robotPos, es, i);
      ScriptedPhase(g, robotPos, es[i := BehaviorStep(g, robotPos, es, i)], i + 1)
  }

  /** One unfolding of the scripted phase past a living enemy that is not engaged. */
  lemma ScriptedPhaseStep(g: Grid, robotPos: Position, es: seq<Enemy>, i: nat)
    requires i < |es| && AllEnemiesOk(es)
    requires es[i].health > 0 && !IsPlayerAdjacentToEnemy(robotPos, es[i])
    ensures AllEnemiesOk(es[i := BehaviorStep(g, robotPos, es, i)])
    ensures ScriptedPhase(g, robotPos, es, i) ==
            ScriptedPhase(g, robotPos, es[i := BehaviorStep(g, robotPos, es, i)], i + 1)
  {
    StepKeepsEnemiesOk(g, robotPos, es, i);
  }

  /** The scripted phase never changes the identity, health or script of enemy j. */
  lemma {:induction false} ScriptedPhaseFixedAt(g: Grid, robotPos: Position, es: seq<Enemy>, i: nat, j: nat)
    requires i <= |es| && AllEnemiesOk(es) && j < |es|
    decreases |es| - i
    ensures var e := ScriptedPhase(g, robotPos, es, i).enemies[j];
      e.id == es[j].id && e.health == es[j].health && e.behavior == es[j].behavior
  {
    if i < |es| && es[i].health > 0 && !IsPlayerAdjacentToEnemy(robotPos, es[i]) {
      ScriptedPhaseStep(g, robotPos, es, i);
      var es' := es[i := BehaviorStep(g, robotPos, es, i)];
      ScriptedPhaseFixedAt(g, robotPos, es', i + 1, j);
      assert es'[j].id == es[j].id && es'[j].health == es[j].health && es'[j].behavior == es[j].behavior;
    } else if i < |es| && es[i].health <= 0 {
      ScriptedPhaseFixedAt(g, robotPos, es, i + 1, j);
    }
  }

  /** The scripted phase leaves enemy j as it was when j lies before i or is dead. */
  lemma {:induction false} ScriptedPhaseKeepsAt(g: Grid, robotPos: Position, es: seq<Enemy>, i: nat, j: nat)
    requires i <= |es| && AllEnemiesOk(es) && j < |es|
    requires j < i || es[j].health <= 0
    decreases |es| - i
    ensures ScriptedPhase(g, robotPos, es, i).enemies[j] == es[j]
  {
    if i < |es| && es[i].health > 0 && !IsPlayerAdjacentToEnemy(robotPos, es[i]) {
      ScriptedPhaseStep(g, robotPos, es, i);
      var es' := es[i := BehaviorStep(g, robotPos, es, i)];
      assert es'[j] == es[j];
      ScriptedPhaseKeepsAt(g, robotPos, es', i + 1, j);
    } else if i < |es| && es[i].health <= 0 {
      ScriptedPhaseKeepsAt(g, robotPos, es, i + 1, j);
    }
  }

  /** The scripted phase leaves the enemies before i and the dead enemies as they
      were, and never changes an identity, a health or a script. */
  lemma ScriptedPhaseKeeps(g: Grid, robotPos: Position, es: seq<Enemy>, i: nat)
    requires i <= |es| && AllEnemiesOk(es)
    ensures var r := ScriptedPhase(g, robotPos, es, i);
      forall j :: 0 <= j < |es| ==>
        r.enemies[j].id == es[j].id && r.enemies[j].health == es[j].health && r.enemies[j].behavior == es[j].behavior
    ensures var r := ScriptedPhase(g, robotPos, es, i);
      forall j :: 0 <= j < |es| && (j < i || es[j].health <= 0) ==> r.enemies[j] == es[j]
  {
    var r := ScriptedPhase(g, robotPos, es, i);
    forall j | 0 <= j < |es|
      ensures r.enemies[j].id == es[j].id && r.enemies[j].health == es[j].health &&
              r.enemies[j].behavior == es[j].behavior
    {
      ScriptedPhaseFixedAt(g, robotPos, es, i, j);
    }
    forall j | 0 <= j < |es| && (j < i || es[j].health <= 0) ensures r.enemies[j] == es[j] {
      ScriptedPhaseKeepsAt(g, robotPos, es, i, j);
    }
  }

  /** The end of the scripted sweep: the engaged enemy, or the end of the list. */
  function SweepEnd(p: Phase, n: nat): nat {
    if p.engaged.Some? then p.engaged.value else n
  }

  /** The enemy reported engaged is a living enemy from i on that the robot engages. */
  lemma {:induction false} ScriptedPhaseEngagedFound(g: Grid, robotPos: Position, es: seq<Enemy>, i: nat)
    requires i <= |es| && AllEnemiesOk(es)
    decreases |es| - i
    ensures var r := ScriptedPhase(g, robotPos, es, i);
      r.engaged.Some? ==>
        i <= r.engaged.value < |es| && es[r.engaged.value].health > 0 &&
        IsPlayerAdjacentToEnemy(robotPos, es[r.engaged.value])
  {
    if i < |es| && es[i].health > 0 && !IsPlayerAdjacentToEnemy(robotPos, es[i]) {
      ScriptedPhaseStep(g, robotPos, es, i);
      var es' := es[i := BehaviorStep(g, robotPos, es, i)];
      ScriptedPhaseEngagedFound(g, robotPos, es', i + 1);
    } else if i < |es| && es[i].health <= 0 {
      ScriptedPhaseEngagedFound(g, robotPos, es, i + 1);
    }
  }

  /** No living enemy swept before the engaged one (or the end) is engaged. */
  lemma {:induction false} ScriptedPhaseSweptAt(g: Grid, robotPos: Position, es: seq<Enemy>, i: nat, j: nat)
    requires i <= |es| && AllEnemiesOk(es)
    requires i <= j < |es| && j < SweepEnd(ScriptedPhase(g, robotPos, es, i), |es|)
    decreases |es| - i
    ensures es[j].health <= 0 || !IsPlayerAdjacentToEnemy(robotPos, es[j])
  {
    if es[i].health <= 0 {
      if j != i {
        ScriptedPhaseSweptAt(g, robotPos, es, i + 1, j);
      }
    } else if !IsPlayerAdjacentToEnemy(robotPos, es[i]) && j != i {
      ScriptedPhaseStep(g, robotPos, es, i);
      var es' := es[i := BehaviorStep(g, robotPos, es, i)];
      assert es'[j] == es[j];
      ScriptedPhaseSweptAt(g, robotPos, es', i + 1, j);
    }
  }

  /** The engaged enemy and every enemy after it are left as they were. */
  lemma {:induction false} ScriptedPhaseBeyondAt(g: Grid, robotPos: Position, es: seq<Enemy>, i: nat, j: nat)
    requires i <= |es| && AllEnemiesOk(es)
    requires SweepEnd(ScriptedPhase(g, robotPos, es, i), |es|) <= j < |es|
    decreases |es| - i
    ensures ScriptedPhase(g, robotPos, es, i).enemies[j] == es[j]
  {
    if i < |es| && es[i].health > 0 && !IsPlayerAdjacentToEnemy(robotPos, es[i]) {
      ScriptedPhaseStep(g, robotPos, es, i);
      var es' := es[i := BehaviorStep(g, robotPos, es, i)];
      ScriptedPhaseEngagedFound(g, robotPos, es', i + 1);
      ScriptedPhaseBeyondAt(g, robotPos, es', i + 1, j);
      assert es'[j] == es[j];
    } else if i < |es| && es[i].health <= 0 {
      ScriptedPhaseBeyondAt(g, robotPos, es, i + 1, j);
    }
  }

  /** The enemy reported engaged is the first living enemy from i on that the robot
      engages; it and every enemy after it are left as they were. Without a report,
      no living enemy from i on is engaged. */
  lemma ScriptedPhaseEngaged(g: Grid, robotPos: Position, es: seq<Enemy>, i: nat)
    requires i <= |es| && AllEnemiesOk(es)
    ensures var r := ScriptedPhase(g, robotPos, es, i);
      r.engaged.Some? ==>
        i <= r.engaged.value < |es| && es[r.engaged.value].health > 0 &&
        IsPlayerAdjacentToEnemy(robotPos, es[r.engaged.value]) &&
        forall j :: r.engaged.value <= j < |es| ==> r.enemies[j] == es[j]
    ensures var r := ScriptedPhase(g, robotPos, es, i);
      forall j :: i <= j < SweepEnd(r, |es|) && j < |es| ==> es[j].health <= 0 || !IsPlayerAdjacentToEnemy(robotPos, es[j])
  {
    var r := ScriptedPhase(g, robotPos, es, i);
    ScriptedPhaseEngagedFound(g, robotPos, es, i);
    forall j | SweepEnd(r, |es|) <= j < |es| ensures r.enemies[j] == es[j] {
      ScriptedPhaseBeyondAt(g, robotPos, es, i, j);
    }
    forall j | i <= j < SweepEnd(r, |es|) && j < |es|
      ensures es[j].health <= 0 || !IsPlayerAdjacentToEnemy(robotPos, es[j])
    {
      ScriptedPhaseSweptAt(g, robotPos, es, i, j);
    }
  }

  /** The engaged enemy the scripted phase reports is still engaged afterwards, and
      turning it to the robot keeps every enemy well formed. */
  lemma EngagedTurnKeepsOk(g: Grid, robotPos: Position, es: seq<Enemy>)
    requires AllEnemiesOk(es)
    ensures var r := ScriptedPhase(g, robotPos, es, 0);
      r.engaged.Some? ==>
        var k := r.engaged.value;
        k < |r.enemies| && IsPlayerAdjacentToEnemy(robotPos, r.enemies[k]) &&
        AllEnemiesOk(r.enemies[k := TurnedTowards(robotPos, r.enemies[k])])
  {
    var r := ScriptedPhase(g, robotPos, es, 0);
    ScriptedPhaseEngagedFound(g, robotPos, es, 0);
    if r.engaged.Some? {
      var k := r.engaged.value;
      ScriptedPhaseBeyondAt(g, robotPos, es, 0, k);
      EngagedEnemyFacesRobot(robotPos, r.enemies[k]);
      var t := r.enemies[k := TurnedTowards(robotPos, r.enemies[k])];
      forall j | 0 <= j < |t| ensures EnemyOk(t[j]) {
        if j != k {
          assert t[j] == r.enemies[j];
        }
      }
    }
  }

  /** A living enemy j with a script, from i up to the engaged one (or the end),
      advances its play-head exactly once. */
  lemma {:induction false} ScriptedPhaseAdvancesAt(g: Grid, robotPos: Position, es: seq<Enemy>, i: nat, j: nat)
    requires i <= |es| && AllEnemiesOk(es)
    requires i <= j < |es| && j < SweepEnd(ScriptedPhase(g, robotPos, es, i), |es|)
    requires es[j].health > 0 && |es[j].behavior| > 0
    decreases |es| - i
    ensures ScriptedPhase(g, robotPos, es, i).enemies[j].currentBehaviorIndex == NextCursor(es[j])
  {
    if es[i].health <= 0 {
      ScriptedPhaseAdvancesAt(g, robotPos, es, i + 1, j);
    } else {
      assert !IsPlayerAdjacentToEnemy(robotPos, es[i]);
      ScriptedPhaseStep(g, robotPos, es, i);
      var es' := es[i := BehaviorStep(g, robotPos, es, i)];
      if j == i {
        ScriptedPhaseKeepsAt(g, robotPos, es', i + 1, i);
        assert ScriptedPhase(g, robotPos, es, i).enemies[i] == BehaviorStep(g, robotPos, es, i);
      } else {
        assert es'[j] == es[j];
        ScriptedPhaseAdvancesAt(g, robotPos, es', i + 1, j);
      }
    }
  }

  /** Every living enemy with a script, from i up to the engaged one (or the end),
      advances its play-head exactly once. */
  lemma ScriptedPhaseAdvances(g: Grid, robotPos: Position, es: seq<Enemy>, i: nat)
    requires i <= |es| && AllEnemiesOk(es)
    ensures var r := ScriptedPhase(g, robotPos, es, i);
      forall j :: i <= j < SweepEnd(r, |es|) && j < |es| && es[j].health > 0 && |es[j].behavior| > 0 ==>
        r.enemies[j].currentBehaviorIndex == NextCursor(es[j])
  {
    var r := ScriptedPhase(g, robotPos, es, i);
    forall j | i <= j < SweepEnd(r, |es|) && j < |es| && es[j].health > 0 && |es[j].behavior| > 0 {
      ScriptedPhaseAdvancesAt(g, robotPos, es, i, j);
    }
  }

  // ---------------------------------------------------------------------------
  // Nearest enemy

  /** Squared Euclidean distance; it orders distances as the square root does. */
  function Dist2(p: Position, q: Position): int {
    (q.x - p.x) * (q.x - p.x) + (q.y - p.y) * (q.y - p.y)
  }

  /** `best` is the first nearest living enemy among es[..n]. */
  ghost predicate IsFirstNearestIn(pos: Position, es: seq<Enemy>, n: nat, best: Option<nat>)
    requires n <= |es|
  {
    (best.None? ==> forall j :: 0 <= j < n ==> es[j].health <= 0) &&
    (best.Some? ==>
      var k := best.value;
      k < n && es[k].health > 0 &&
      (forall j :: 0 <= j < n && es[j].health > 0 ==> Dist2(pos, es[k].position) <= Dist2(pos, es[j].position)) &&
      (forall j :: 0 <= j < k && es[j].health > 0 ==> Dist2(pos, es[k].position) < Dist2(pos, es[j].position)))
  }

  /** The scan keeps an enemy only when it is strictly nearer than the best so far. */
  function NearestFrom(pos: Position, es: seq<Enemy>, i: nat, best: Option<nat>): (r: Option<nat>)
    requires i <= |es| && IsFirstNearestIn(pos, es, i, best)
    decreases |es| - i
    ensures IsFirstNearestIn(pos, es, |es|, r)
  {
    if i == |es| then best
    else if es[i].health <= 0 then NearestFrom(pos, es, i + 1, best)
    else if best.None? || Dist2(pos, es[i].position) < Dist2(pos, es[best.value].position)
    then NearestFrom(pos, es, i + 1, Some(i))
    else NearestFrom(pos, es, i + 1, best)
  }

  /** The nearest living enemy, the first one on ties; None when all are defeated. */
  function FirstNearest(pos: Position, es: seq<Enemy>): (r: Option<nat>)
    ensures IsFirstNearestIn(pos, es, |es|, r)
  {
    NearestFrom(pos, es, 0, None)
  }

  /** faceEnemy's heading towards a non-adjacent enemy: along the larger component
      of the offset, horizontal on ties. */
  function AxisToward(from: Position, to: Position): (d: Direction)
    ensures IsUnit(d)
    ensures Abs(to.x - from.x) >= Abs(to.y - from.y) ==> d.dy == 0 && (d == Right <==> to.x > from.x)
    ensures Abs(to.x - from.x) < Abs(to.y - from.y) ==> d.dx == 0 && (d == Down <==> to.y > from.y)
  {
    var dx, dy := to.x - from.x, to.y - from.y;
    if Abs(dx) >= Abs(dy) then (if dx > 0 then Right else Left)
    else (if dy > 0 then Down else Up)
  }

  // ---------------------------------------------------------------------------
  // Win condition

  /** The level is complete iff every sub-goal that is set holds. requiredCoins is
      tested for truthiness, so 0 counts as unset; requiredEnemies counts when set. */
  function WinHolds(wc: WinCondition, defeated: int, pos: Position, collected: int): (r: bool)
    ensures r <==>
      (wc.requiredEnemies.None? || defeated >= wc.requiredEnemies.value) &&
      (wc.goal.None? || pos == wc.goal.value) &&
      (wc.requiredCoins.None? || wc.requiredCoins.value == 0 || collected >= wc.requiredCoins.value)
  {
    var enemiesDefeated := if wc.requiredEnemies.Some? then defeated >= wc.requiredEnemies.value else true;
    var isAtGoal := if wc.goal.Some? then pos == wc.goal.value else true;
    var coinsCollected := if wc.requiredCoins.Some? && wc.requiredCoins.value != 0
                          then collected >= wc.requiredCoins.value else true;
    enemiesDefeated && isAtGoal && coinsCollected
  }

  /** With no coin or enemy requirement, the level completes iff the robot is on the goal. */
  lemma GoalOnlyWin(wc: WinCondition, defeated: int, pos: Position, collected: int)
    requires wc.requiredCoins.None? && wc.requiredEnemies.None? && wc.goal.Some?
    ensures WinHolds(wc, defeated, pos, collected) <==> pos == wc.goal.value
  {
  }

  /** Progress never undoes a win: more defeats or more coins keep it. */
  lemma WinMonotone(wc: WinCondition, d1: int, d2: int, pos: Position, c1: int, c2: int)
    requires d1 <= d2 && c1 <= c2 && WinHolds(wc, d1, pos, c1)
    ensures WinHolds(wc, d2, pos, c2)
  {
  }
}
