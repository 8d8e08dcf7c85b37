/** The records of the game: positions, direction vectors, the robot, enemies and
    their scripted actions, win conditions and level definitions. */
module Types {

  /** An optional value (TypeScript's `T | undefined`). */
  datatype Option<+T> = None | Some(value: T)

  /** A grid cell; (0,0) is the top-left cell of the map, y grows downwards. */
  datatype Position = Position(x: int, y: int)

  /** A direction vector; the engine only ever uses the four unit vectors. */
  datatype Direction = Direction(dx: int, dy: int)

  /** The player's robot. Health is optional in the record type. */
  datatype Robot = Robot(position: Position, direction: Direction, health: Option<real>)

  /** The closed set of primitive actions an enemy script is made of. */
  datatype EnemyAction = MoveForward | TurnLeft | TurnRight

  /** An enemy with its cyclic behaviour script and the play-head into it. */
  datatype Enemy = Enemy(
    id: int,
    position: Position,
    direction: Direction,
    health: int,
    behavior: seq<EnemyAction>,
    currentBehaviorIndex: int)

  /** Three independently optional sub-goals. */
  datatype WinCondition = WinCondition(
    requiredCoins: Option<int>,
    goal: Option<Position>,
    requiredEnemies: Option<int>)

  datatype RobotStart = RobotStart(position: Position, direction: Direction)

  /** A level definition. The map (field `grid`, as `map` is a Dafny keyword) is a list of rows indexed grid[y][x]:
      '#' is a wall, '.' and ' ' are floor, 'H' restores health. */
  datatype Level = Level(
    id: string,
    name: string,
    description: string,
    hint: Option<string>,
    story: Option<string>,
    grid: seq<string>,
    robotStart: RobotStart,
    goals: seq<Position>,
    enemies: Option<seq<Enemy>>,
    coins: Option<seq<Position>>,
    winCondition: WinCondition)
}
