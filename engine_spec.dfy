/** The game state as a value and one pure function per engine action. The
    methods of `GameEngine` are proved to move their fields exactly as these
    functions say, and the properties of the actions are proved here. */
module EngineSpec {
  import opened Types
  import opened Geometry
  import opened WorldMap
  import opened Rules
  import opened Pathfinding

  const MaxHealth: real := 6.0
  const EnemyStartHealth: int := 2

  /** How an action sequence ended: normally, or by the 'Game stopped' rejection
      raised by a delay once the game is no longer running. */
  datatype Outcome = Completed | Stopped

  /** Everything the engine's actions read or write, besides the level. */
  datatype Snapshot = Snapshot(
    robot: Robot,
    enemies: seq<Enemy>,
    collectedCoins: set<Position>,
    defeatedEnemies: int,
    isGameRunning: bool,
    levelCompleted: bool)

  function Templates(level: Level): seq<Enemy> {
    if level.enemies.Some? then level.enemies.value else []
  }

  /** The level data the engine relies on: unit headings and valid play-heads. */
  predicate LevelOk(level: Level) {
    IsUnit(level.robotStart.direction) && AllEnemiesOk(Templates(level))
  }

  /** Every heading is one of the four unit vectors and every play-head lies inside
      its script. */
  predicate ShapeOk(s: Snapshot) {
    IsUnit(s.robot.direction) && AllEnemiesOk(s.enemies)
  }

  /** The robot's health is a number in (0, 6]: it starts full, the refill sets it to
      full, and a strike that would take it to 0 or below resets the level. */
  predicate HealthOk(h: Option<real>) {
    h.Some? && 0.0 < h.value <= MaxHealth
  }

  /** The state invariant. */
  predicate SnapshotOk(s: Snapshot) {
    ShapeOk(s) && HealthOk(s.robot.health)
  }

  function StartRobot(level: Level): Robot {
    Robot(level.robotStart.position, level.robotStart.direction, Some(MaxHealth))
  }

  /** reset's enemies: fresh copies of the templates with 2 health and the
      play-head at 0. */
  function FreshEnemies(level: Level): seq<Enemy> {
    var t := Templates(level);
    seq(|t|, i requires 0 <= i < |t| => t[i].(health := EnemyStartHealth, currentBehaviorIndex := 0))
  }

  /** The constructor's and loadLevel's enemies: the templates with 2 health; the
      template's play-head is kept. */
  function SpawnedEnemies(level: Level): seq<Enemy> {
    var t := Templates(level);
    seq(|t|, i requires 0 <= i < |t| => t[i].(health := EnemyStartHealth))
  }

  /** reset: stopped, robot and enemies back to the template; the completion flag
      is left alone. */
  function ResetSpec(level: Level, s: Snapshot): (r: Snapshot)
    ensures LevelOk(level) ==> SnapshotOk(r)
  {
    Snapshot(StartRobot(level), FreshEnemies(level), {}, 0, false, s.levelCompleted)
  }

  /** The state after the constructor or loadLevel. */
  function LoadSpec(level: Level): (r: Snapshot)
    ensures LevelOk(level) ==> SnapshotOk(r)
  {
    Snapshot(StartRobot(level), SpawnedEnemies(level), {}, 0, false, false)
  }

  /** reset restores the template: the robot at its start with full health, every
      enemy a copy of its template with 2 health and its play-head at 0, nothing
      collected or defeated, the game stopped; a second reset changes nothing more. */
  lemma ResetRestoresTemplates(level: Level, s: Snapshot)
    ensures var r := ResetSpec(level, s);
      r.robot.position == level.robotStart.position && r.robot.direction == level.robotStart.direction &&
      r.robot.health == Some(6.0) && r.collectedCoins == {} && r.defeatedEnemies == 0 && !r.isGameRunning &&
      |r.enemies| == |Templates(level)| &&
      (forall i :: 0 <= i < |r.enemies| ==>
         r.enemies[i] == Templates(level)[i].(health := 2, currentBehaviorIndex := 0)) &&
      ResetSpec(level, r) == r
  {
  }

  // ---------------------------------------------------------------------------
  // Turning

  function TurnLeftSpec(s: Snapshot): Snapshot {
    if !s.isGameRunning then s
    else s.(robot := s.robot.(direction := TurnLeftOf(s.robot.direction)))
  }

  function TurnRightSpec(s: Snapshot): Snapshot {
    if !s.isGameRunning then s
    else s.(robot := s.robot.(direction := TurnRightOf(s.robot.direction)))
  }

  function TurnSpec(s: Snapshot, t: Turn): Snapshot {
    if t == LeftTurn then TurnLeftSpec(s) else TurnRightSpec(s)
  }

  function RunTurns(s: Snapshot, ts: seq<Turn>): Snapshot
    decreases |ts|
  {
    if ts == [] then s
    else RunTurns(TurnSpec(s, ts[0]), ts[1..])
  }

  /** A plan of at most two turns runs as its turns one after the other. */
  lemma RunShortTurns(s: Snapshot, ts: seq<Turn>)
    requires |ts| <= 2
    ensures ts == [] ==> RunTurns(s, ts) == s
    ensures |ts| == 1 ==> RunTurns(s, ts) == TurnSpec(s, ts[0])
    ensures |ts| == 2 ==> RunTurns(s, ts) == TurnSpec(TurnSpec(s, ts[0]), ts[1])
  {
    if |ts| == 2 {
      var s1 := TurnSpec(s, ts[0]);
      assert ts[1..] == [ts[1]] && ts[1..][1..] == [];
      assert RunTurns(s1, [ts[1]]) == RunTurns(TurnSpec(s1, ts[1]), []);
    } else if |ts| == 1 {
      assert ts[1..] == [];
    }
  }

  /** turnToDirection: normalise the requested vector and issue the planned turns. */
  function TurnToSpec(s: Snapshot, dx: int, dy: int): Snapshot {
    RunTurns(s, PlanTurns(s.robot.direction, Normalize(dx, dy)))
  }

  /** turnToDirection case by case: no turn when already facing the request, one
      turn for 90 degrees, two equal turns for 180 degrees, and no turn for a request
      that is no unit vector away. */
  lemma TurnToCases(s: Snapshot, dx: int, dy: int)
    ensures var current, target := s.robot.direction, Normalize(dx, dy);
      TurnToSpec(s, dx, dy) ==
        if current == target then s
        else if TurnLeftOf(current) == target then TurnLeftSpec(s)
        else if TurnRightOf(current) == target then TurnRightSpec(s)
        else if Reverse(current) == target then
          (if current.dx == 1 || current.dy == -1 then TurnRightSpec(TurnRightSpec(s))
           else TurnLeftSpec(TurnLeftSpec(s)))
        else s
  {
    RunShortTurns(s, PlanTurns(s.robot.direction, Normalize(dx, dy)));
  }

  /** Turns only ever change the heading, and only while the game runs. */
  lemma {:induction false} RunTurnsTurnsOnly(s: Snapshot, ts: seq<Turn>)
    ensures s.isGameRunning ==>
      RunTurns(s, ts) == s.(robot := s.robot.(direction := ApplyTurns(s.robot.direction, ts)))
    ensures !s.isGameRunning ==> RunTurns(s, ts) == s
    decreases |ts|
  {
    if ts != [] {
      RunTurnsTurnsOnly(TurnSpec(s, ts[0]), ts[1..]);
    }
  }

  /** The two turns undo each other and leave everything but the heading alone. */
  lemma TurnsUndoEachOther(s: Snapshot)
    ensures TurnRightSpec(TurnLeftSpec(s)) == s && TurnLeftSpec(TurnRightSpec(s)) == s
    ensures TurnLeftSpec(s).robot.position == s.robot.position && TurnLeftSpec(s).robot.health == s.robot.health
    ensures TurnRightSpec(s).robot.position == s.robot.position && TurnRightSpec(s).robot.health == s.robot.health
    ensures SnapshotOk(s) ==> SnapshotOk(TurnLeftSpec(s)) && SnapshotOk(TurnRightSpec(s))
  {
  }

  /** turnToDirection faces any requested vector whose normalisation is a unit
      vector, changing nothing but the heading; when the game is stopped it does
      nothing. */
  lemma TurnToFaces(s: Snapshot, dx: int, dy: int)
    requires SnapshotOk(s)
    ensures var r := TurnToSpec(s, dx, dy);
      r == s.(robot := s.robot.(direction := r.robot.direction)) && SnapshotOk(r) &&
      (s.isGameRunning && IsUnit(Normalize(dx, dy)) ==> r.robot.direction == Normalize(dx, dy)) &&
      (!s.isGameRunning ==> r == s)
  {
    var ts := PlanTurns(s.robot.direction, Normalize(dx, dy));
    PlanTurnsReachesTarget(s.robot.direction, Normalize(dx, dy));
    RunTurnsTurnsOnly(s, ts);
    ApplyShortTurns(s.robot.direction, ts);
    if |ts| == 1 {
      assert IsUnit(ApplyTurn(s.robot.direction, ts[0]));
    } else if |ts| == 2 {
      assert IsUnit(ApplyTurn(ApplyTurn(s.robot.direction, ts[0]), ts[1]));
    }
  }

  // ---------------------------------------------------------------------------
  // Facing enemies

  /** faceEnemy: face the first adjacent living enemy in the order up, right, down,
      left; otherwise turn along the dominant axis towards the nearest living enemy. */
  function FaceEnemySpec(s: Snapshot): Snapshot {
    if !s.isGameRunning then s
    else match FirstNeighbourDir(s.robot.position, s.enemies)
      case Some(k) => TurnToSpec(s, Dirs[k].dx, Dirs[k].dy)
      case None =>
        match FirstNearest(s.robot.position, s.enemies)
        case None => s
        case Some(j) =>
          var d := AxisToward(s.robot.position, s.enemies[j].position);
          TurnToSpec(s, d.dx, d.dy)
  }

  /** faceEnemy only turns the robot; with an adjacent living enemy the robot ends up
      facing one, and otherwise it faces along the dominant axis towards the nearest. */
  lemma FaceEnemyFaces(s: Snapshot)
    requires SnapshotOk(s)
    ensures var r := FaceEnemySpec(s);
      r == s.(robot := s.robot.(direction := r.robot.direction)) && SnapshotOk(r) &&
      (s.isGameRunning && HasLivingNeighbour(s.robot.position, s.enemies) ==>
         IsEnemyAtPosition(s.enemies, Add(s.robot.position, r.robot.direction))) &&
      (s.isGameRunning && !HasLivingNeighbour(s.robot.position, s.enemies) &&
       FirstNearest(s.robot.position, s.enemies).Some? ==>
         r.robot.direction ==
           AxisToward(s.robot.position, s.enemies[FirstNearest(s.robot.position, s.enemies).value].position))
  {
    FirstNeighbourDirIffAdjacent(s.robot.position, s.enemies);
    if s.isGameRunning {
      match FirstNeighbourDir(s.robot.position, s.enemies)
      case Some(k) =>
        TurnToFaces(s, Dirs[k].dx, Dirs[k].dy);
      case None =>
        match FirstNearest(s.robot.position, s.enemies)
        case None =>
        case Some(j) =>
          var d := AxisToward(s.robot.position, s.enemies[j].position);
          TurnToFaces(s, d.dx, d.dy);
    }
  }

  // ---------------------------------------------------------------------------
  // Arrival on a cell

  /** checkCoinCollection: a level coin on the cell is added unless already taken. */
  function CollectCoin(level: Level, s: Snapshot, p: Position): Snapshot {
    if level.coins.None? then s
    else if p in level.coins.value && p !in s.collectedCoins
    then s.(collectedCoins := s.collectedCoins + {p})
    else s
  }

  /** checkHealthRestore: an 'H' cell refills a defined health below the maximum. */
  function RestoreHealth(level: Level, s: Snapshot, p: Position): Snapshot {
    if IsHealthCell(level.grid, p.x, p.y) && s.robot.health.Some? && s.robot.health.value < MaxHealth
    then s.(robot := s.robot.(health := Some(MaxHealth)))
    else s
  }

  /** checkWinCondition: set the completion flag when every sub-goal holds. */
  function EvaluateWin(level: Level, s: Snapshot): Snapshot {
    if WinHolds(level.winCondition, s.defeatedEnemies, s.robot.position, |s.collectedCoins|)
    then s.(levelCompleted := true)
    else s
  }

  function Arrive(level: Level, s: Snapshot, p: Position): Snapshot {
    EvaluateWin(level, RestoreHealth(level, CollectCoin(level, s, p), p))
  }

  /** Arriving only adds the cell's own coin, if it is a level coin, refills health
      only on an 'H' cell below the maximum, and only ever sets the completion flag. */
  lemma ArriveEffects(level: Level, s: Snapshot, p: Position)
    ensures var r := Arrive(level, s, p);
      r.robot.position == s.robot.position && r.robot.direction == s.robot.direction &&
      r.enemies == s.enemies && r.defeatedEnemies == s.defeatedEnemies && r.isGameRunning == s.isGameRunning &&
      s.collectedCoins <= r.collectedCoins &&
      r.collectedCoins - s.collectedCoins <= (if level.coins.Some? && p in level.coins.value then {p} else {}) &&
      (r.robot.health != s.robot.health ==>
         IsHealthCell(level.grid, p.x, p.y) && s.robot.health.Some? && s.robot.health.value < MaxHealth &&
         r.robot.health == Some(MaxHealth)) &&
      (s.levelCompleted ==> r.levelCompleted)
  {
  }

  // ---------------------------------------------------------------------------
  // One enemy tick

  /** enemyAttack on enemy k: while the game runs and the robot stands in front of
      the enemy, a truthy health drops by 1.2; reaching 0 or below stops the game,
      which resets it. */
  function EnemyAttackSpec(level: Level, s: Snapshot, k: nat): (r: Snapshot)
    requires k < |s.enemies|
    ensures LevelOk(level) && SnapshotOk(s) ==> SnapshotOk(r)
  {
    if !s.isGameRunning then s
    else if Add(s.enemies[k].position, s.enemies[k].direction) != s.robot.position then s
    else if !Truthy(s.robot.health) then s
    else
      var h := s.robot.health.value - EnemyDamage;
      if h <= 0.0 then ResetSpec(level, s.(robot := s.robot.(health := Some(h)), isGameRunning := false))
      else s.(robot := s.robot.(health := Some(h)))
  }

  /** moveEnemies, one tick: the scripted phase, then the first engaged enemy faces
      the robot and attacks. The closing delay rejects when the attack stopped the game. */
  function TickSpec(level: Level, s: Snapshot): (r: (Snapshot, Outcome))
    requires SnapshotOk(s)
    ensures LevelOk(level) ==> SnapshotOk(r.0)
  {
    if !s.isGameRunning then (s, Completed)
    else
      var phase := ScriptedPhase(level.grid, s.robot.position, s.enemies, 0);
      EngagedTurnKeepsOk(level.grid, s.robot.position, s.enemies);
      match phase.engaged
      case None => (s.(enemies := phase.enemies), Completed)
      case Some(k) =>
        var faced := s.(enemies := phase.enemies[k := TurnedTowards(s.robot.position, phase.enemies[k])]);
        var after := EnemyAttackSpec(level, faced, k);
        (after, if after.isGameRunning then Completed else Stopped)
  }

  /** A tick whose scripted phase finds no engaged enemy only moves the enemies. */
  lemma TickQuiet(level: Level, s: Snapshot)
    requires SnapshotOk(s) && s.isGameRunning
    requires ScriptedPhase(level.grid, s.robot.position, s.enemies, 0).engaged.None?
    ensures TickSpec(level, s) ==
              (s.(enemies := ScriptedPhase(level.grid, s.robot.position, s.enemies, 0).enemies), Completed)
  {
  }

  /** A tick whose scripted phase stops at enemy k turns that enemy to the robot and
      lets it attack. */
  lemma TickEngaged(level: Level, s: Snapshot, k: nat)
    requires SnapshotOk(s) && s.isGameRunning
    requires ScriptedPhase(level.grid, s.robot.position, s.enemies, 0).engaged == Some(k)
    ensures var es := ScriptedPhase(level.grid, s.robot.position, s.enemies, 0).enemies;
      k < |es| && IsPlayerAdjacentToEnemy(s.robot.position, es[k]) &&
      var after := EnemyAttackSpec(level, s.(enemies := es[k := TurnedTowards(s.robot.position, es[k])]), k);
      TickSpec(level, s) == (after, if after.isGameRunning then Completed else Stopped)
  {
    EngagedTurnKeepsOk(level.grid, s.robot.position, s.enemies);
  }

  /** A tick never moves or turns the robot and never touches coins or the defeat
      count unless it killed the robot; then the game is stopped and reset. The robot
      loses exactly 1.2 health, or nothing, and survives a completed tick. */
  lemma TickEffects(level: Level, s: Snapshot)
    requires SnapshotOk(s)
    ensures var (r, o) := TickSpec(level, s);
      (o == Stopped <==> s.isGameRunning && !r.isGameRunning) &&
      (o == Stopped ==> r == ResetSpec(level, s)) &&
      (o == Completed ==>
         r.robot.position == s.robot.position && r.robot.direction == s.robot.direction &&
         r.collectedCoins == s.collectedCoins && r.defeatedEnemies == s.defeatedEnemies &&
         r.isGameRunning == s.isGameRunning && r.levelCompleted == s.levelCompleted &&
         (r.robot.health == s.robot.health ||
          (Truthy(s.robot.health) && r.robot.health == Some(s.robot.health.value - EnemyDamage)))) &&
      // a completed tick that hit the robot left it alive
      (o == Completed && r.robot.health != s.robot.health ==>
         r.robot.health.Some? && r.robot.health.value > 0.0)
  {
  }

  /** In a running game the robot is hit in a tick exactly when the scripted phase
      stops at an engaged enemy: that enemy turns to the robot, so its attack
      always connects. */
  lemma TickHitsIffEngaged(level: Level, s: Snapshot)
    requires SnapshotOk(s) && s.isGameRunning
    ensures TickSpec(level, s).0.robot.health != s.robot.health <==>
      ScriptedPhase(level.grid, s.robot.position, s.enemies, 0).engaged.Some?
  {
    var phase := ScriptedPhase(level.grid, s.robot.position, s.enemies, 0);
    ScriptedPhaseEngaged(level.grid, s.robot.position, s.enemies, 0);
    if phase.engaged.Some? {
      var k := phase.engaged.value;
      EngagedEnemyFacesRobot(s.robot.position, phase.enemies[k]);
      assert s.robot.health.value - EnemyDamage != s.robot.health.value;
    }
  }

  // ---------------------------------------------------------------------------
  // Player actions that end with a tick

  /** moveForward: with an adjacent living enemy the robot only faces it; otherwise
      it steps forward if the cell is walkable, and in both of those cases a tick follows. */
  function ForwardSpec(level: Level, s: Snapshot): (r: (Snapshot, Outcome))
    requires SnapshotOk(s)
    ensures LevelOk(level) ==> SnapshotOk(r.0)
  {
    if !s.isGameRunning then (s, Completed)
    else if FirstNeighbourDir(s.robot.position, s.enemies).Some? then
      FaceEnemyFaces(s);
      (FaceEnemySpec(s), Completed)
    else
      var next := Add(s.robot.position, s.robot.direction);
      var moved := if IsValidPosition(level.grid, next.x, next.y)
                   then Arrive(level, s.(robot := s.robot.(position := next)), next)
                   else s;
      TickSpec(level, moved)
  }

  /** Next to a living enemy, moveForward keeps the robot's cell and faces an enemy. */
  lemma ForwardBlockedByNeighbour(level: Level, s: Snapshot)
    requires SnapshotOk(s) && s.isGameRunning && HasLivingNeighbour(s.robot.position, s.enemies)
    ensures var (r, o) := ForwardSpec(level, s);
      o == Completed && r.robot.position == s.robot.position && r.enemies == s.enemies &&
      r.collectedCoins == s.collectedCoins && r.robot.health == s.robot.health &&
      IsEnemyAtPosition(s.enemies, Add(s.robot.position, r.robot.direction))
  {
    FirstNeighbourDirIffAdjacent(s.robot.position, s.enemies);
    FaceEnemyFaces(s);
  }

  /** Otherwise, unless the tick killed the robot, it ends one step ahead exactly when
      the forward cell is walkable, and its coins only grow, by the arrival cell. A
      killed robot leaves the game in the reset of the state before the step. */
  lemma ForwardSteps(level: Level, s: Snapshot)
    requires SnapshotOk(s) && s.isGameRunning && !HasLivingNeighbour(s.robot.position, s.enemies)
    ensures var (r, o) := ForwardSpec(level, s);
      var next := Add(s.robot.position, s.robot.direction);
      (o == Completed ==>
         r.robot.position == (if IsValidPosition(level.grid, next.x, next.y) then next else s.robot.position) &&
         r.robot.direction == s.robot.direction &&
         s.collectedCoins <= r.collectedCoins && r.collectedCoins - s.collectedCoins <= {next}) &&
      // a killed robot leaves the reset of the old state, the completion flag aside,
      // which the step may have set and the reset keeps
      (o == Stopped ==> r == ResetSpec(level, s).(levelCompleted := r.levelCompleted) &&
                        (s.levelCompleted ==> r.levelCompleted))
  {
    FirstNeighbourDirIffAdjacent(s.robot.position, s.enemies);
    var next := Add(s.robot.position, s.robot.direction);
    var moved := if IsValidPosition(level.grid, next.x, next.y)
                 then Arrive(level, s.(robot := s.robot.(position := next)), next)
                 else s;
    ArriveEffects(level, s.(robot := s.robot.(position := next)), next);
    TickEffects(level, moved);
  }

  /** attack: the first living enemy in front takes 4 damage from behind and 1
      otherwise; a defeat is counted and the win condition re-evaluated only on a hit. */
  function AttackSpec(level: Level, s: Snapshot): Snapshot {
    if !s.isGameRunning then s
    else match FirstLivingAt(s.enemies, Add(s.robot.position, s.robot.direction))
      case None => s
      case Some(i) =>
        var e := s.enemies[i];
        var h := e.health - AttackDamage(s.robot.position, e);
        EvaluateWin(level, s.(enemies := s.enemies[i := e.(health := h)],
                              defeatedEnemies := if h <= 0 then s.defeatedEnemies + 1 else s.defeatedEnemies))
  }

  /** A miss changes nothing at all. */
  lemma AttackMissChangesNothing(level: Level, s: Snapshot)
    requires !IsEnemyAtPosition(s.enemies, Add(s.robot.position, s.robot.direction))
    ensures AttackSpec(level, s) == s
  {
  }

  /** A hit touches only the enemy in front: its health drops by the damage, the
      defeat count goes up by one exactly when that brings it to 0 or below, and the
      robot, the coins and every other enemy are unchanged. */
  lemma AttackHit(level: Level, s: Snapshot)
    requires s.isGameRunning && IsEnemyAtPosition(s.enemies, Add(s.robot.position, s.robot.direction))
    ensures var r := AttackSpec(level, s);
      var i := FirstLivingAt(s.enemies, Add(s.robot.position, s.robot.direction)).value;
      var e := s.enemies[i];
      |r.enemies| == |s.enemies| && e.position == Add(s.robot.position, s.robot.direction) && e.health > 0 &&
      (forall j :: 0 <= j < |s.enemies| && j != i ==> r.enemies[j] == s.enemies[j]) &&
      r.enemies[i] == e.(health := e.health - AttackDamage(s.robot.position, e)) &&
      (AttackDamage(s.robot.position, e) == 4 <==> e.direction == s.robot.direction) &&
      r.defeatedEnemies == s.defeatedEnemies + (if r.enemies[i].health <= 0 then 1 else 0) &&
      r.robot == s.robot && r.collectedCoins == s.collectedCoins && r.isGameRunning
  {
    var i := FirstLivingAt(s.enemies, Add(s.robot.position, s.robot.direction)).value;
    BackAttackIffFacingAway(s.robot.position, s.robot.direction, s.enemies[i]);
  }

  /** A fresh enemy (health 2) falls to one attack from behind, or to two attacks
      from the front or side; its defeat is counted once. */
  lemma FreshEnemyDefeat(level: Level, s: Snapshot)
    requires s.isGameRunning
    requires FirstLivingAt(s.enemies, Add(s.robot.position, s.robot.direction)).Some?
    requires s.enemies[FirstLivingAt(s.enemies, Add(s.robot.position, s.robot.direction)).value].health == EnemyStartHealth
    ensures var i := FirstLivingAt(s.enemies, Add(s.robot.position, s.robot.direction)).value;
      var r1 := AttackSpec(level, s);
      (s.enemies[i].direction == s.robot.direction ==>
         r1.enemies[i].health <= 0 && r1.defeatedEnemies == s.defeatedEnemies + 1) &&
      (s.enemies[i].direction != s.robot.direction ==>
         r1.enemies[i].health == 1 && r1.defeatedEnemies == s.defeatedEnemies &&
         AttackSpec(level, r1).enemies[i].health <= 0 &&
         AttackSpec(level, r1).defeatedEnemies == s.defeatedEnemies + 1)
  {
    var p := Add(s.robot.position, s.robot.direction);
    var i := FirstLivingAt(s.enemies, p).value;
    AttackHit(level, s);
    var r1 := AttackSpec(level, s);
    if s.enemies[i].direction != s.robot.direction {
      assert FirstLivingAt(r1.enemies, p) == Some(i) by {
        forall j | 0 <= j < i ensures !LivingAt(r1.enemies, j, p) {
          assert r1.enemies[j] == s.enemies[j];
          assert !LivingAt(s.enemies, j, p);
        }
        assert LivingAt(r1.enemies, i, p);
      }
      AttackHit(level, r1);
    }
  }

  // ---------------------------------------------------------------------------
  // moveToPosition

  /** One step of moveToPosition's replay: face the step's direction, then move
      forward. */
  function StepSpec(level: Level, s: Snapshot, d: Direction): (r: (Snapshot, Outcome))
    requires LevelOk(level) && SnapshotOk(s)
    ensures SnapshotOk(r.0)
  {
    TurnToFaces(s, d.dx, d.dy);
    ForwardSpec(level, TurnToSpec(s, d.dx, d.dy))
  }

  /** The step replay of moveToPosition: for each step, stop quietly if the game no
      longer runs, else take the step; a rejection ends the replay. */
  function ReplaySpec(level: Level, s: Snapshot, path: seq<Direction>): (r: (Snapshot, Outcome))
    requires LevelOk(level) && SnapshotOk(s)
    ensures SnapshotOk(r.0)
    decreases |path|
  {
    if |path| == 0 || !s.isGameRunning then (s, Completed)
    else
      var (moved, o) := StepSpec(level, s, path[0]);
      if o == Stopped then (moved, Stopped) else ReplaySpec(level, moved, path[1..])
  }

  /** What moveToPosition does for the absolute target cell: nothing when it is off
      the map, a wall, or unreachable; otherwise it replays a shortest walk. */
  ghost predicate MoveToResult(level: Level, s: Snapshot, target: Position, r: Snapshot, o: Outcome) {
    LevelOk(level) && SnapshotOk(s) &&
    if !(0 <= target.y < |level.grid| && 0 <= target.x < Width(level.grid)) ||
       !IsValidPosition(level.grid, target.x, target.y) ||
       !Reachable(level.grid, s.enemies, s.robot.position, target)
    then r == s && o == Completed
    else exists path :: Shortest(level.grid, s.enemies, s.robot.position, target, path) &&
                        (r, o) == ReplaySpec(level, s, path)
  }

  /** A target off the map, on a wall or out of reach leaves the state alone. */
  lemma MoveToSkips(level: Level, s: Snapshot, target: Position)
    requires LevelOk(level) && SnapshotOk(s)
    requires !(0 <= target.y < |level.grid| && 0 <= target.x < Width(level.grid)) ||
             !IsValidPosition(level.grid, target.x, target.y) ||
             !Reachable(level.grid, s.enemies, s.robot.position, target)
    ensures MoveToResult(level, s, target, s, Completed)
  {
  }

  /** A walkable target inside the map is reached by replaying a shortest walk. */
  lemma MoveToReplays(level: Level, s: Snapshot, target: Position, path: seq<Direction>)
    requires LevelOk(level) && SnapshotOk(s)
    requires 0 <= target.y < |level.grid| && 0 <= target.x < Width(level.grid)
    requires IsValidPosition(level.grid, target.x, target.y)
    requires Shortest(level.grid, s.enemies, s.robot.position, target, path)
    ensures MoveToResult(level, s, target, ReplaySpec(level, s, path).0, ReplaySpec(level, s, path).1)
  {
    assert Reachable(level.grid, s.enemies, s.robot.position, target);
  }

  predicate NoLivingEnemy(es: seq<Enemy>) {
    forall i :: 0 <= i < |es| ==> es[i].health <= 0
  }

  lemma WalkFront(g: Grid, es: seq<Enemy>, target: Position, start: Position, path: seq<Direction>)
    requires |path| > 0
    ensures Follow(start, path) == Follow(Add(start, path[0]), path[1..])
    ensures IsWalk(g, es, target, start, path) <==>
      IsUnit(path[0]) && Passable(g, es, target, Add(start, path[0])) &&
      IsWalk(g, es, target, Add(start, path[0]), path[1..])
    decreases |path|
  {
    if |path| > 1 {
      var prefix := path[..|path| - 1];
      WalkFront(g, es, target, start, prefix);
      assert prefix[0] == path[0];
      assert prefix[1..] == path[1..][..|path| - 2];
    } else {
      assert path[1..] == [];
      assert path[..0] == [];
    }
  }

  /** With no living enemy about, replaying any walk from the robot's cell carries it
      along the walk: it ends on the walk's last cell and nothing stops it. */
  lemma {:induction false} ReplayFollowsWalk(level: Level, s: Snapshot, target: Position, path: seq<Direction>)
    requires LevelOk(level) && SnapshotOk(s) && s.isGameRunning && NoLivingEnemy(s.enemies)
    requires IsWalk(level.grid, s.enemies, target, s.robot.position, path)
    ensures var (r, o) := ReplaySpec(level, s, path);
      o == Completed && r.robot.position == Follow(s.robot.position, path) &&
      r.isGameRunning && NoLivingEnemy(r.enemies) && r.enemies == s.enemies
    decreases |path|
  {
    if |path| > 0 {
      var d := path[0];
      WalkFront(level.grid, s.enemies, target, s.robot.position, path);
      TurnToFaces(s, d.dx, d.dy);
      var turned := TurnToSpec(s, d.dx, d.dy);
      assert Normalize(d.dx, d.dy) == d;
      var next := Add(s.robot.position, d);
      assert !HasLivingNeighbour(turned.robot.position, turned.enemies);
      FirstNeighbourDirIffAdjacent(turned.robot.position, turned.enemies);
      var moved := Arrive(level, turned.(robot := turned.robot.(position := next)), next);
      ArriveEffects(level, turned.(robot := turned.robot.(position := next)), next);
      ScriptedPhaseKeeps(level.grid, moved.robot.position, moved.enemies, 0);
      ScriptedPhaseEngaged(level.grid, moved.robot.position, moved.enemies, 0);
      assert ScriptedPhase(level.grid, moved.robot.position, moved.enemies, 0).enemies == moved.enemies;
      var (after, o) := ForwardSpec(level, turned);
      assert after == moved.(enemies := moved.enemies);
      assert IsWalk(level.grid, after.enemies, target, after.robot.position, path[1..]);
      ReplayFollowsWalk(level, after, target, path[1..]);
    }
  }

  /** With no living enemy about, moveToPosition brings the robot to any walkable,
      reachable target. */
  lemma MoveToArrives(level: Level, s: Snapshot, target: Position, r: Snapshot, o: Outcome)
    requires MoveToResult(level, s, target, r, o)
    requires s.isGameRunning && NoLivingEnemy(s.enemies)
    requires IsValidPosition(level.grid, target.x, target.y)
    requires Reachable(level.grid, s.enemies, s.robot.position, target)
    ensures r.robot.position == target && o == Completed
  {
    var path :| Shortest(level.grid, s.enemies, s.robot.position, target, path) &&
                (r, o) == ReplaySpec(level, s, path);
    ReplayFollowsWalk(level, s, target, path);
  }

  /** getCurrentPosition and moveToPosition agree: the relative coordinates reported
      against the map's origin, handed back to moveToPosition, name the robot's own
      cell, and walking there changes nothing. */
  lemma MoveToCurrentPosition(level: Level, s: Snapshot, rx: int, ry: int, minX: int, minY: int,
                              r: Snapshot, o: Outcome)
    requires IsOrigin(level.grid, s.robot.position.x - rx, s.robot.position.y - ry)
    requires IsOrigin(level.grid, minX, minY)
    requires MoveToResult(level, s, Position(minX + rx, minY + ry), r, o)
    ensures r == s && o == Completed
  {
    OriginUnique(level.grid, minX, minY, s.robot.position.x - rx, s.robot.position.y - ry);
    var target := Position(minX + rx, minY + ry);
    assert target == s.robot.position;
    if 0 <= target.y < |level.grid| && 0 <= target.x < Width(level.grid) &&
       IsValidPosition(level.grid, target.x, target.y) &&
       Reachable(level.grid, s.enemies, s.robot.position, target) {
      var path :| Shortest(level.grid, s.enemies, s.robot.position, target, path) &&
                  (r, o) == ReplaySpec(level, s, path);
      EmptyWalkIffSameCell(level.grid, s.enemies, s.robot.position, target, path);
    }
  }
}
