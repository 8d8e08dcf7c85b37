/** The game engine object: its fields are updated in place by the player actions
    and by the enemy tick, each method proved to produce exactly the state its
    specification function in EngineSpec computes. */
module Engine {
  import opened Types
  import opened Geometry
  import opened WorldMap
  import opened Rules
  import opened Pathfinding
  import opened EngineSpec

  class GameEngine {
    var level: Level
    var robot: Robot
    var enemies: seq<Enemy>
    var collectedCoins: set<Position>
    var defeatedEnemies: int
    var isGameRunning: bool
    var levelCompleted: bool

    ghost predicate Valid()
      reads this
    {
      LevelOk(level) && SnapshotOk(State())
    }

    function State(): Snapshot
      reads this
    {
      Snapshot(robot, enemies, collectedCoins, defeatedEnemies, isGameRunning, levelCompleted)
    }

    /** A new engine on a level: robot at the start with full health, enemies with 2
        health, nothing collected, not running. */
    constructor (level: Level)
      requires LevelOk(level)
      ensures Valid() && this.level == level && State() == LoadSpec(level)
    {
      this.level := level;
      robot := StartRobot(level);
      enemies := SpawnedEnemies(level);
      collectedCoins := {};
      defeatedEnemies := 0;
      isGameRunning := false;
      levelCompleted := false;
    }

    /** reset: stop the game without a further reset, then rebuild every entity from
        the level template. */
    method Reset()
      requires LevelOk(level) && ShapeOk(State())
      modifies this
      ensures Valid() && level == old(level) && State() == ResetSpec(level, old(State()))
      decreases 1
    {
      StopGame(false);
      robot := StartRobot(level);
      collectedCoins := {};
      defeatedEnemies := 0;
      enemies := [];
      if level.enemies.Some? {
        enemies := FreshEnemies(level);
      }
    }

    /** stopGame: clear the running flag and, by default, reset. */
    method StopGame(resetAfterStop: bool)
      requires LevelOk(level) && ShapeOk(State())
      modifies this
      ensures LevelOk(level) && level == old(level)
      ensures resetAfterStop || old(Valid()) ==> Valid()
      ensures resetAfterStop ==> State() == ResetSpec(level, old(State()))
      ensures !resetAfterStop ==> State() == old(State()).(isGameRunning := false)
      decreases if resetAfterStop then 2 else 0
    {
      isGameRunning := false;
      if resetAfterStop {
        Reset();
      }
    }

    /** startGame: set the running flag and, when there are enemies, run a tick. */
    method StartGame()
      requires Valid()
      modifies this
      ensures Valid() && level == old(level)
      ensures old(isGameRunning) ==> State() == old(State())
      ensures !old(isGameRunning) && |old(enemies)| == 0 ==> State() == old(State()).(isGameRunning := true)
      ensures !old(isGameRunning) && |old(enemies)| > 0 ==>
                State() == TickSpec(level, old(State()).(isGameRunning := true)).0
    {
      if !isGameRunning {
        isGameRunning := true;
        if |enemies| > 0 {
          var _ := MoveEnemies();
        }
      }
    }

    method TurnLeft()
      requires Valid()
      modifies this
      ensures Valid() && level == old(level) && State() == TurnLeftSpec(old(State()))
    {
      if !isGameRunning {
        return;
      }
      robot := robot.(direction := Direction(robot.direction.dy, -robot.direction.dx));
      // the delays that follow cannot reject: the game is still running
    }

    method TurnRight()
      requires Valid()
      modifies this
      ensures Valid() && level == old(level) && State() == TurnRightSpec(old(State()))
    {
      if !isGameRunning {
        return;
      }
      robot := robot.(direction := Direction(-robot.direction.dy, robot.direction.dx));
    }

    /** turnToDirection: normalise the request, then one turn for 90 degrees and two
        for 180 degrees. */
    method TurnToDirection(targetDx: int, targetDy: int)
      requires Valid()
      modifies this
      ensures Valid() && level == old(level) && State() == TurnToSpec(old(State()), targetDx, targetDy)
    {
      var target := Direction(Sign(targetDx), Sign(targetDy));
      var current := robot.direction;
      ghost var s0 := State();
      TurnToCases(s0, targetDx, targetDy);
      if current == target {
        return;
      }
      if TurnLeftOf(current) == target {
        TurnLeft();
        return;
      }
      if TurnRightOf(current) == target {
        TurnRight();
        return;
      }
      if Reverse(current) == target {
        if current.dx == 1 || current.dy == -1 {
          TurnRight();
          TurnRight();
        } else {
          TurnLeft();
          TurnLeft();
        }
      }
    }

    /** The living-enemy scan of faceEnemy, getEnemyX and getEnemyY: keep an enemy
        when it is strictly nearer than the best so far. */
    method NearestLivingEnemy() returns (nearest: Option<nat>)
      ensures nearest == FirstNearest(robot.position, enemies)
    {
      nearest := None;
      for i := 0 to |enemies|
        invariant IsFirstNearestIn(robot.position, enemies, i, nearest)
        invariant NearestFrom(robot.position, enemies, i, nearest) == FirstNearest(robot.position, enemies)
      {
        if enemies[i].health <= 0 {
          continue;
        }
        var distance := Dist2(robot.position, enemies[i].position);
        if nearest.None? || distance < Dist2(robot.position, enemies[nearest.value].position) {
          nearest := Some(i);
        }
      }
    }

    /** faceEnemy. */
    method FaceEnemy()
      requires Valid()
      modifies this
      ensures Valid() && level == old(level) && State() == FaceEnemySpec(old(State()))
    {
      if !isGameRunning {
        return;
      }
      var k := 0;
      while k < |Dirs|
        invariant 0 <= k <= |Dirs| && State() == old(State())
        invariant forall j :: 0 <= j < k ==> !IsEnemyAtPosition(enemies, Add(robot.position, Dirs[j]))
      {
        var adjacentEnemy := FirstLivingAt(enemies, Add(robot.position, Dirs[k]));
        if adjacentEnemy.Some? {
          TurnToDirection(Dirs[k].dx, Dirs[k].dy);
          return;
        }
        k := k + 1;
      }
      var nearest := NearestLivingEnemy();
      if nearest.Some? {
        var dx := enemies[nearest.value].position.x - robot.position.x;
        var dy := enemies[nearest.value].position.y - robot.position.y;
        if Abs(dx) >= Abs(dy) {
          if dx > 0 {
            TurnToDirection(1, 0);
          } else {
            TurnToDirection(-1, 0);
          }
        } else {
          if dy > 0 {
            TurnToDirection(0, 1);
          } else {
            TurnToDirection(0, -1);
          }
        }
      }
    }

    /** checkCoinCollection. */
    method CheckCoinCollection(x: int, y: int)
      requires Valid()
      modifies this
      ensures Valid() && level == old(level) && State() == CollectCoin(level, old(State()), Position(x, y))
    {
      if level.coins.None? {
        return;
      }
      var coinKey := Position(x, y);
      var isCoin := coinKey in level.coins.value;
      if isCoin && coinKey !in collectedCoins {
        collectedCoins := collectedCoins + {coinKey};
      }
    }

    /** checkHealthRestore. */
    method CheckHealthRestore(x: int, y: int)
      requires Valid()
      modifies this
      ensures Valid() && level == old(level) && State() == RestoreHealth(level, old(State()), Position(x, y))
    {
      if 0 <= y < |level.grid| && 0 <= x < |level.grid[y]| {
        var cell := level.grid[y][x];
        if cell == 'H' {
          if robot.health.Some? && robot.health.value < MaxHealth {
            robot := robot.(health := Some(MaxHealth));
          }
        }
      }
    }

    /** checkWinCondition, with showLevelComplete setting the flag. */
    method CheckWinCondition()
      requires Valid()
      modifies this
      ensures Valid() && level == old(level) && State() == EvaluateWin(level, old(State()))
    {
      var winCondition := level.winCondition;
      var enemiesDefeated := if winCondition.requiredEnemies.Some?
                             then defeatedEnemies >= winCondition.requiredEnemies.value else true;
      var isAtGoal := true;
      if winCondition.goal.Some? {
        isAtGoal := robot.position == winCondition.goal.value;
      }
      var requiredCoinsCollected := true;
      if winCondition.requiredCoins.Some? && winCondition.requiredCoins.value != 0 {
        requiredCoinsCollected := |collectedCoins| >= winCondition.requiredCoins.value;
      }
      if enemiesDefeated && isAtGoal && requiredCoinsCollected {
        levelCompleted := true;
      }
    }

    /** rotateEnemyToOpenDirection on enemy i. */
    method RotateEnemyToOpenDirection(i: nat)
      requires Valid() && i < |enemies|
      modifies this
      ensures Valid() && level == old(level)
      ensures State() == old(State()).(enemies := old(enemies)[i := old(enemies)[i].(
                direction := OpenDirection(level.grid, old(enemies), old(enemies)[i]))])
    {
      var e := enemies[i];
      var currentIndex := DirectionIndex(e.direction);
      var newDirection := e.direction;
      if currentIndex != -1 {
        OpenDirectionAt(level.grid, enemies, e, currentIndex);
        var rightIndex := (currentIndex + 1) % |Dirs|;
        var leftIndex := (currentIndex + 3) % |Dirs|;
        var reverseIndex := (currentIndex + 2) % |Dirs|;
        var right := Add(e.position, Dirs[rightIndex]);
        var left := Add(e.position, Dirs[leftIndex]);
        var reverse := Add(e.position, Dirs[reverseIndex]);
        if IsValidPosition(level.grid, right.x, right.y) && !IsEnemyAtPosition(enemies, right) {
          newDirection := Dirs[rightIndex];
        } else if IsValidPosition(level.grid, left.x, left.y) && !IsEnemyAtPosition(enemies, left) {
          newDirection := Dirs[leftIndex];
        } else if IsValidPosition(level.grid, reverse.x, reverse.y) && !IsEnemyAtPosition(enemies, reverse) {
          newDirection := Dirs[reverseIndex];
        }
      } else {
        // unreachable: every enemy of a valid engine faces one of the four directions
        assert false;
      }
      assert newDirection == OpenDirection(level.grid, enemies, e);
      enemies := enemies[i := e.(direction := newDirection)];
    }

    /** executeEnemyBehavior on enemy i. */
    method ExecuteEnemyBehavior(i: nat)
      requires Valid() && i < |enemies|
      modifies this
      ensures Valid() && level == old(level)
      ensures State() == old(State()).(enemies := old(enemies)[i := BehaviorStep(level.grid, robot.position, old(enemies), i)])
    {
      var e := enemies[i];
      if |e.behavior| == 0 {
        assert enemies[i := e] == enemies;
        return;
      }
      var action := e.behavior[e.currentBehaviorIndex];
      var nextIndex := NextCursor(e);
      ghost var step := BehaviorStep(level.grid, robot.position, enemies, i);
      ghost var es0 := enemies;
      if action == EnemyAction.MoveForward && IsPlayerAdjacentToEnemy(robot.position, e) {
        assert step == e.(currentBehaviorIndex := nextIndex);
        enemies := enemies[i := e.(currentBehaviorIndex := nextIndex)];
        return;
      }
      match action {
        case MoveForward =>
          var next := Add(e.position, e.direction);
          if IsValidPosition(level.grid, next.x, next.y) && !IsEnemyAtPosition(enemies, next) {
            assert step == e.(position := next, currentBehaviorIndex := nextIndex);
            enemies := enemies[i := e.(position := next)];
          } else {
            assert step == e.(direction := OpenDirection(level.grid, enemies, e), currentBehaviorIndex := nextIndex);
            RotateEnemyToOpenDirection(i);
          }
        case TurnLeft =>
          assert step == e.(direction := TurnLeftOf(e.direction), currentBehaviorIndex := nextIndex);
          enemies := enemies[i := e.(direction := Direction(e.direction.dy, -e.direction.dx))];
        case TurnRight =>
          assert step == e.(direction := TurnRightOf(e.direction), currentBehaviorIndex := nextIndex);
          enemies := enemies[i := e.(direction := Direction(-e.direction.dy, e.direction.dx))];
      }
      assert enemies == es0[i := step.(currentBehaviorIndex := e.currentBehaviorIndex)];
      enemies := enemies[i := enemies[i].(currentBehaviorIndex := nextIndex)];
      assert enemies == es0[i := step];
    }

    /** faceEnemyTowardsPlayer on enemy i; it is only called on an engaged enemy. */
    method FaceEnemyTowardsPlayer(i: nat)
      requires Valid() && i < |enemies| && IsPlayerAdjacentToEnemy(robot.position, enemies[i])
      modifies this
      ensures Valid() && level == old(level)
      ensures State() == old(State()).(enemies := old(enemies)[i := TurnedTowards(robot.position, old(enemies)[i])])
    {
      EngagedEnemyFacesRobot(robot.position, enemies[i]);
      var dx := robot.position.x - enemies[i].position.x;
      var dy := robot.position.y - enemies[i].position.y;
      if enemies[i].direction.dx != dx || enemies[i].direction.dy != dy {
        enemies := enemies[i := enemies[i].(direction := Direction(dx, dy))];
      }
    }

    /** enemyAttack by enemy i. */
    method EnemyAttack(i: nat)
      requires Valid() && i < |enemies|
      modifies this
      ensures Valid() && level == old(level) && State() == EnemyAttackSpec(level, old(State()), i)
    {
      if !isGameRunning {
        return;
      }
      var target := Add(enemies[i].position, enemies[i].direction);
      if target == robot.position {
        if Truthy(robot.health) {
          robot := robot.(health := Some(robot.health.value - EnemyDamage));
          if robot.health.value <= 0.0 {
            StopGame(true);
            return;
          }
        }
      }
    }

    /** moveEnemies, one tick without the rescheduling. */
    method MoveEnemies() returns (o: Outcome)
      requires Valid()
      modifies this
      ensures Valid() && level == old(level) && (State(), o) == TickSpec(level, old(State()))
    {
      if !isGameRunning {
        return Completed;
      }
      ghost var s0 := State();
      ghost var phase := ScriptedPhase(level.grid, robot.position, enemies, 0);
      var enemyMoved := false;
      var i := 0;
      while i < |enemies|
        invariant 0 <= i <= |enemies| && Valid() && level == old(level)
        invariant State() == s0.(enemies := enemies)
        invariant ScriptedPhase(level.grid, robot.position, enemies, i) == phase
      {
        if enemies[i].health <= 0 {
          i := i + 1;
          continue;
        }
        if IsPlayerAdjacentToEnemy(robot.position, enemies[i]) {
          assert phase == Phase(enemies, Some(i));
          TickEngaged(level, s0, i);
          FaceEnemyTowardsPlayer(i);
          EnemyAttack(i);
          assert TickSpec(level, s0) == (State(), if isGameRunning then Completed else Stopped);
          enemyMoved := true;
          break;
        }
        ScriptedPhaseStep(level.grid, robot.position, enemies, i);
        ExecuteEnemyBehavior(i);
        enemyMoved := true;
        i := i + 1;
      }
      if phase.engaged.None? {
        TickQuiet(level, s0);
        assert TickSpec(level, s0) == (State(), Completed);
      }
      if enemyMoved && !isGameRunning {
        // the closing delay rejects with 'Game stopped'
        return Stopped;
      }
      return Completed;
    }

    /** moveForward. */
    method MoveForward() returns (o: Outcome)
      requires Valid()
      modifies this
      ensures Valid() && level == old(level) && (State(), o) == ForwardSpec(level, old(State()))
    {
      if !isGameRunning {
        return Completed;
      }
      var k := 0;
      while k < |Dirs|
        invariant 0 <= k <= |Dirs| && State() == old(State())
        invariant forall j :: 0 <= j < k ==> !IsEnemyAtPosition(enemies, Add(robot.position, Dirs[j]))
      {
        var adjacentEnemy := FirstLivingAt(enemies, Add(robot.position, Dirs[k]));
        if adjacentEnemy.Some? {
          FaceEnemy();
          return Completed;
        }
        k := k + 1;
      }
      var next := Add(robot.position, robot.direction);
      FirstNeighbourDirIffAdjacent(robot.position, enemies);
      NoNeighbourMeansFrontIsClear(robot.position, robot.direction, enemies);
      var enemyInFront := IsEnemyAtPosition(enemies, next);
      if enemyInFront {
        // unreachable: an enemy in front is an adjacent enemy, handled above
        assert false;
      }
      if IsValidPosition(level.grid, next.x, next.y) {
        robot := robot.(position := next);
        CheckCoinCollection(next.x, next.y);
        CheckHealthRestore(next.x, next.y);
        CheckWinCondition();
      }
      o := MoveEnemies();
    }

    /** attack. */
    method Attack()
      requires Valid()
      modifies this
      ensures Valid() && level == old(level) && State() == AttackSpec(level, old(State()))
    {
      if !isGameRunning {
        return;
      }
      var attackPos := Add(robot.position, robot.direction);
      var enemyToAttack := FirstLivingAt(enemies, attackPos);
      if enemyToAttack.Some? {
        var i := enemyToAttack.value;
        var e := enemies[i];
        var isEnemyFacingAway := e.position.x - e.direction.dx == robot.position.x &&
                                 e.position.y - e.direction.dy == robot.position.y;
        var damage := if isEnemyFacingAway then 4 else 1;
        enemies := enemies[i := e.(health := e.health - damage)];
        if enemies[i].health <= 0 {
          defeatedEnemies := defeatedEnemies + 1;
        }
        CheckWinCondition();
      }
    }

    /** isEnemyAdjacent. */
    method IsEnemyAdjacent() returns (b: bool)
      ensures b == HasLivingNeighbour(robot.position, enemies)
    {
      FirstNeighbourDirIffAdjacent(robot.position, enemies);
      for k := 0 to |Dirs|
        invariant forall j :: 0 <= j < k ==> !IsEnemyAtPosition(enemies, Add(robot.position, Dirs[j]))
      {
        if IsEnemyAtPosition(enemies, Add(robot.position, Dirs[k])) {
          return true;
        }
      }
      return false;
    }

    /** getEnemyX: the nearest living enemy's column, or -1. */
    method GetEnemyX() returns (x: int)
      ensures var n := FirstNearest(robot.position, enemies);
              x == if n.Some? then enemies[n.value].position.x else -1
    {
      var nearest := NearestLivingEnemy();
      x := if nearest.Some? then enemies[nearest.value].position.x else -1;
    }

    /** getEnemyY: the nearest living enemy's row, or -1. */
    method GetEnemyY() returns (y: int)
      ensures var n := FirstNearest(robot.position, enemies);
              y == if n.Some? then enemies[n.value].position.y else -1
    {
      var nearest := NearestLivingEnemy();
      y := if nearest.Some? then enemies[nearest.value].position.y else -1;
    }

    /** getCurrentPosition: the robot's cell relative to the origin of the map. */
    method GetCurrentPosition() returns (p: Position)
      ensures IsOrigin(level.grid, robot.position.x - p.x, robot.position.y - p.y)
    {
      var minX, minY := WalkableOrigin(level.grid);
      p := Position(robot.position.x - minX, robot.position.y - minY);
    }

    /** getPlayerHealth. */
    method GetPlayerHealth() returns (h: real)
      requires Valid()
      ensures robot.health == Some(h) && 0.0 < h <= MaxHealth
    {
      h := if Truthy(robot.health) then robot.health.value else 0.0;
    }

    /** loadLevel: stop (which resets), then install the new level's fresh state. */
    method LoadLevel(newLevel: Level)
      requires Valid() && LevelOk(newLevel)
      modifies this
      ensures Valid() && level == newLevel && State() == LoadSpec(newLevel)
    {
      StopGame(true);
      levelCompleted := false;
      level := newLevel;
      collectedCoins := {};
      defeatedEnemies := 0;
      robot := StartRobot(newLevel);
      enemies := SpawnedEnemies(newLevel);
    }

    /** moveToPosition: convert the relative target, validate it, search a shortest
        path and replay it step by step. */
    method MoveToPosition(x: int, y: int) returns (o: Outcome)
      requires Valid()
      modifies this
      ensures Valid() && level == old(level)
      ensures !old(isGameRunning) ==> State() == old(State()) && o == Completed
      ensures old(isGameRunning) ==>
        forall minX, minY :: IsOrigin(level.grid, minX, minY) ==>
          MoveToResult(level, old(State()), Position(minX + x, minY + y), State(), o)
    {
      if !isGameRunning {
        return Completed;
      }
      ghost var s0 := State();
      var minX, minY := WalkableOrigin(level.grid);
      var absoluteX, absoluteY := minX + x, minY + y;
      ghost var target := Position(absoluteX, absoluteY);
      forall mx, my | IsOrigin(level.grid, mx, my) ensures Position(mx + x, my + y) == target {
        OriginUnique(level.grid, mx, my, minX, minY);
      }
      if absoluteY < 0 || absoluteY >= |level.grid| || absoluteX < 0 || absoluteX >= Width(level.grid) {
        MoveToSkips(level, s0, target);
        return Completed;
      }
      if !IsValidPosition(level.grid, absoluteX, absoluteY) {
        MoveToSkips(level, s0, target);
        return Completed;
      }
      var path := FindPathBFS(level.grid, enemies, robot.position.x, robot.position.y, absoluteX, absoluteY);
      if path.None? {
        MoveToSkips(level, s0, target);
        return Completed;
      }
      var steps := path.value;
      ghost var shortest := Shortest(level.grid, s0.enemies, s0.robot.position, target, steps);
      assert shortest;
      o := FollowPath(steps);
      MoveToReplays(level, s0, target, steps);
    }

    /** The step loop of moveToPosition: for each step, stop quietly once the game no
        longer runs, else face the step and move forward; a rejection ends the walk. */
    method FollowPath(steps: seq<Direction>) returns (o: Outcome)
      requires Valid()
      modifies this
      ensures Valid() && level == old(level) && (State(), o) == ReplaySpec(level, old(State()), steps)
    {
      ghost var s0 := State();
      o := Completed;
      for i := 0 to |steps|
        invariant Valid() && level == old(level) && o == Completed
        invariant ReplaySpec(level, s0, steps) == ReplaySpec(level, State(), steps[i..])
      {
        if !isGameRunning {
          return;
        }
        var step := steps[i];
        ghost var before := State();
        TurnToDirection(step.dx, step.dy);
        o := MoveForward();
        assert (State(), o) == StepSpec(level, before, step);
        assert steps[i..][1..] == steps[i + 1..];
        if o == Stopped {
          // the rejection propagates to the caller
          return;
        }
      }
    }
  }
}
