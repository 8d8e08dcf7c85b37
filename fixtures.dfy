/** The two level definitions of the repository that this model covers, and what the
    engine's rules imply for them. */
module Fixtures {
  import opened Types
  import opened Geometry
  import opened WorldMap
  import opened Rules
  import opened Pathfinding
  import opened EngineSpec

  /** The patrol shared by the guards of both levels: two steps forward, turn
      around, two steps back, turn around. */
  const Patrol: seq<EnemyAction> :=
    [MoveForward, MoveForward, TurnLeft, TurnLeft, MoveForward, MoveForward, TurnLeft, TurnLeft]

  const Level1: Level := Level(
    "level1",
    "觉醒之初",
    "",
    None,
    None,
    ["#########",
     "#.......#",
     "#.......#",
     "#.......#",
     "#########"],
    RobotStart(Position(1, 1), Direction(1, 0)),
    [Position(7, 2)],
    Some([Enemy(1, Position(5, 1), Direction(0, 1), 2, Patrol, 0)]),
    Some([Position(2, 1), Position(6, 3)]),
    WinCondition(Some(2), Some(Position(7, 2)), Some(1)))

  const Level2: Level := Level(
    "level2",
    "数据深渊的觉醒",
    "",
    None,
    None,
    ["#################",
     "#.#....H#.....#.#",
     "#.#.#.#.#.#.#.#.#",
     "#...#.#...#.#...#",
     "#.#.#.#.#.#.#.#.#",
     "#################"],
    RobotStart(Position(1, 1), Direction(1, 0)),
    [Position(15, 4)],
    Some([Enemy(1, Position(5, 3), Direction(0, 1), 2, Patrol, 0),
          Enemy(2, Position(9, 2), Direction(0, 1), 2, Patrol, 0)]),
    Some([Position(3, 2), Position(7, 3), Position(11, 2), Position(13, 4)]),
    WinCondition(Some(4), Some(Position(15, 4)), Some(2)))

  /** Both levels meet the engine's assumptions on headings and play-heads. */
  lemma LevelsAreWellFormed()
    ensures LevelOk(Level1) && LevelOk(Level2)
  {
    assert Templates(Level2)[0].direction == Down && Templates(Level2)[1].direction == Down;
  }

  /** Both maps are framed by walls, so relative coordinates start at (1, 1). */
  lemma LevelOrigins()
    ensures IsOrigin(Level1.grid, 1, 1) && IsOrigin(Level2.grid, 1, 1)
  {
    FramedOrigin(Level1.grid);
    FramedOrigin(Level2.grid);
  }

  /** A map whose top row and left column are walls and whose cell (1, 1) is floor
      has its origin at (1, 1). */
  lemma FramedOrigin(g: Grid)
    requires |g| > 1 && |g[0]| > 0 && |g[1]| > 1 && IsFloor(g[1][1])
    requires forall x :: 0 <= x < |g[0]| ==> g[0][x] == '#'
    requires forall y :: 0 <= y < |g| ==> |g[y]| > 0 && g[y][0] == '#'
    ensures IsOrigin(g, 1, 1)
  {
    assert FloorInColumn(g, 1) && FloorInRow(g, 1);
  }

  /** The walk from the start of level 1 to its exit: down once, then right six
      times. */
  const ExitWalk: seq<Direction> := [Down, Right, Right, Right, Right, Right, Right]

  /** Level 1's guard as reset puts it: at its post with 2 health and the play-head
      at the start of its patrol. */
  const Guard1: Enemy := Enemy(1, Position(5, 1), Direction(0, 1), 2, Patrol, 0)

  lemma Level1Reset()
    ensures FreshEnemies(Level1) == [Guard1] && SpawnedEnemies(Level1) == [Guard1]
  {
  }

  /** The cells of row 2 the exit walk crosses are passable with the guard at its
      post. */
  lemma RowTwoPassable(x: int)
    requires 1 <= x <= 7
    ensures Passable(Level1.grid, [Guard1], Position(7, 2), Position(x, 2))
  {
    assert !LivingAt([Guard1], 0, Position(x, 2));
    assert Level1.grid[2][x] == '.';
  }

  /** The first k steps of the exit walk form a walk ending at (k, 2). */
  lemma {:induction false} ExitWalkPrefix(k: nat)
    requires 1 <= k <= |ExitWalk|
    ensures IsWalk(Level1.grid, [Guard1], Position(7, 2), Position(1, 1), ExitWalk[..k])
    ensures Follow(Position(1, 1), ExitWalk[..k]) == Position(k, 2)
  {
    var g, es, start, goal := Level1.grid, [Guard1], Position(1, 1), Position(7, 2);
    RowTwoPassable(k);
    if k == 1 {
      assert ExitWalk[..1] == [] + [Down];
      IsWalkSnoc(g, es, goal, start, [], Down);
    } else {
      assert ExitWalk[k - 1] == Right;
      assert ExitWalk[..k] == ExitWalk[..k - 1] + [Right];
      ExitWalkPrefix(k - 1);
      IsWalkSnoc(g, es, goal, start, ExitWalk[..k - 1], Right);
    }
  }

  /** With the guard at its post, a shortest walk from the start of level 1 to the
      exit takes 7 steps, and ExitWalk is one. */
  lemma Level1ExitIsSevenSteps()
    ensures Shortest(Level1.grid, FreshEnemies(Level1), Position(1, 1), Position(7, 2), ExitWalk)
    ensures forall path :: Shortest(Level1.grid, FreshEnemies(Level1), Position(1, 1), Position(7, 2), path) ==>
              |path| == 7
  {
    Level1Reset();
    var g, es, start, goal := Level1.grid, [Guard1], Position(1, 1), Position(7, 2);
    ExitWalkPrefix(7);
    assert ExitWalk[..7] == ExitWalk;
    forall other | WalkTo(g, es, start, goal, other) ensures 7 <= |other| {
      WalkCoversManhattan(g, es, goal, start, other);
    }
  }

  /** Relative coordinates (6, 1) name the exit of level 1. */
  lemma Level1ExitInRelativeCoordinates(minX: int, minY: int)
    requires IsOrigin(Level1.grid, minX, minY)
    ensures Position(minX + 6, minY + 1) == Level1.winCondition.goal.value
  {
    LevelOrigins();
    OriginUnique(Level1.grid, minX, minY, 1, 1);
  }

  /** Level 1 is won on the exit with both coins and the guard defeated, and not with
      a coin missing. */
  lemma Level1WinCondition()
    ensures WinHolds(Level1.winCondition, 1, Position(7, 2), 2)
    ensures !WinHolds(Level1.winCondition, 1, Position(7, 2), 1)
    ensures !WinHolds(Level1.winCondition, 0, Position(7, 2), 2)
    ensures !WinHolds(Level1.winCondition, 1, Position(6, 2), 2)
  {
  }

  /** Four enemy hits leave the robot alive; the fifth ends the run. */
  lemma FiveHitsEndTheRun()
    ensures var h4 := EnemyHit(EnemyHit(EnemyHit(EnemyHit(Some(MaxHealth)))));
      h4.value > 0.0 && Truthy(h4) && EnemyHit(h4).value <= 0.0
  {
  }

  /** The first tick of level 1: the guard is not next to the robot, so it steps
      down its patrol and its play-head advances; nothing else changes. */
  lemma Level1FirstTick()
    ensures var s := LoadSpec(Level1).(isGameRunning := true);
      TickSpec(Level1, s) ==
        (s.(enemies := [Enemy(1, Position(5, 2), Direction(0, 1), 2, Patrol, 1)]), Completed)
  {
    var s := LoadSpec(Level1).(isGameRunning := true);
    var e := Enemy(1, Position(5, 1), Direction(0, 1), 2, Patrol, 0);
    assert s.enemies == [e];
    assert !IsPlayerAdjacentToEnemy(s.robot.position, e);
    assert !LivingAt(s.enemies, 0, Position(5, 2));
    var e1 := Enemy(1, Position(5, 2), Direction(0, 1), 2, Patrol, 1);
    assert IsFree(Level1.grid, s.enemies, Position(5, 2));
    assert BehaviorStep(Level1.grid, s.robot.position, s.enemies, 0) == e1;
    assert s.enemies[0 := e1] == [e1];
    assert ScriptedPhase(Level1.grid, s.robot.position, [e1], 1) == Phase([e1], None);
    assert ScriptedPhase(Level1.grid, s.robot.position, s.enemies, 0) == Phase([e1], None);
  }
}
