/** Direction vectors on the grid and the turns the robot and enemies make. */
module Geometry {
  import opened Types

  const Up := Direction(0, -1)
  const Right := Direction(1, 0)
  const Down := Direction(0, 1)
  const Left := Direction(-1, 0)

  /** The fixed exploration order used throughout the engine: up, right, down, left. */
  const Dirs: seq<Direction> := [Up, Right, Down, Left]

  predicate IsUnit(d: Direction) {
    d == Up || d == Right || d == Down || d == Left
  }

  function Add(p: Position, d: Direction): Position {
    Position(p.x + d.dx, p.y + d.dy)
  }

  /** The cell behind an entity at `p` facing `d`. */
  function Behind(p: Position, d: Direction): Position {
    Position(p.x - d.dx, p.y - d.dy)
  }

  function Abs(n: int): nat {
    if n < 0 then -n else n
  }

  /** Orthogonal neighbours: the two cells differ by one unit vector. */
  predicate Orthogonal(p: Position, q: Position) {
    Abs(p.x - q.x) + Abs(p.y - q.y) == 1
  }

  /** A 90 degree counter-clockwise turn, (dx,dy) -> (dy,-dx). */
  function TurnLeftOf(d: Direction): (r: Direction)
    ensures d == Up ==> r == Left
    ensures d == Left ==> r == Down
    ensures d == Down ==> r == Right
    ensures d == Right ==> r == Up
    ensures IsUnit(d) <==> IsUnit(r)
  {
    Direction(d.dy, -d.dx)
  }

  /** A 90 degree clockwise turn, (dx,dy) -> (-dy,dx). */
  function TurnRightOf(d: Direction): (r: Direction)
    ensures d == Up ==> r == Right
    ensures d == Right ==> r == Down
    ensures d == Down ==> r == Left
    ensures d == Left ==> r == Up
    ensures IsUnit(d) <==> IsUnit(r)
  {
    Direction(-d.dy, d.dx)
  }

  function Reverse(d: Direction): Direction {
    Direction(-d.dx, -d.dy)
  }

  /** The two turns undo each other, and two equal turns reverse a direction. */
  lemma TurnsAreInverse(d: Direction)
    ensures TurnLeftOf(TurnRightOf(d)) == d
    ensures TurnRightOf(TurnLeftOf(d)) == d
    ensures TurnLeftOf(TurnLeftOf(d)) == Reverse(d) == TurnRightOf(TurnRightOf(d))
  {
  }

  /** The position of a unit direction in `Dirs`. */
  function DirIndex(d: Direction): (k: nat)
    requires IsUnit(d)
    ensures k < |Dirs| && Dirs[k] == d
  {
    if d == Up then 0 else if d == Right then 1 else if d == Down then 2 else 3
  }

  /** The index of `d` in the direction table (up, right, down, left), or -1 when
      `d` is not a unit direction. */
  method DirectionIndex(d: Direction) returns (index: int)
    ensures index == -1 <==> !IsUnit(d)
    ensures index != -1 ==> 0 <= index < |Dirs| && Dirs[index] == d
  {
    index := -1;
    var k := 0;
    while k < |Dirs| && index == -1
      invariant 0 <= k <= |Dirs|
      invariant index == -1 ==> forall j :: 0 <= j < k ==> Dirs[j] != d
      invariant index != -1 ==> 0 <= index < |Dirs| && Dirs[index] == d
    {
      if Dirs[k] == d {
        index := k;
      }
      k := k + 1;
    }
    assert IsUnit(d) <==> d == Dirs[0] || d == Dirs[1] || d == Dirs[2] || d == Dirs[3];
  }

  /** One step clockwise in `Dirs` is a right turn, three steps a left turn and
      two steps a reversal. */
  lemma DirsCycle(k: nat)
    requires k < |Dirs|
    ensures Dirs[(k + 1) % 4] == TurnRightOf(Dirs[k])
    ensures Dirs[(k + 3) % 4] == TurnLeftOf(Dirs[k])
    ensures Dirs[(k + 2) % 4] == Reverse(Dirs[k])
  {
  }

  /** Sign normalisation of one component of a requested direction. */
  function Sign(n: int): (s: int)
    ensures n > 0 ==> s == 1
    ensures n < 0 ==> s == -1
    ensures n == 0 ==> s == 0
  {
    if n == 0 then 0 else if n > 0 then 1 else -1
  }

  function Normalize(dx: int, dy: int): Direction {
    Direction(Sign(dx), Sign(dy))
  }

  datatype Turn = LeftTurn | RightTurn

  /** The turns issued to face `target` from `current`: none when already facing it,
      one left or right turn for 90 degrees, and for 180 degrees right-right when
      facing right or up and left-left otherwise. Any other target gets no turn. */
  function PlanTurns(current: Direction, target: Direction): seq<Turn> {
    if current == target then []
    else if TurnLeftOf(current) == target then [LeftTurn]
    else if TurnRightOf(current) == target then [RightTurn]
    else if Reverse(current) == target then
      (if current.dx == 1 || current.dy == -1 then [RightTurn, RightTurn] else [LeftTurn, LeftTurn])
    else []
  }

  function ApplyTurn(d: Direction, t: Turn): Direction {
    match t
    case LeftTurn => TurnLeftOf(d)
    case RightTurn => TurnRightOf(d)
  }

  function ApplyTurns(d: Direction, ts: seq<Turn>): Direction
    decreases |ts|
  {
    if ts == [] then d else ApplyTurns(ApplyTurn(d, ts[0]), ts[1..])
  }

  /** From any unit direction, the planned turns reach any unit target, with at most
      two turns, two exactly for a reversal, and right-right exactly when reversing
      from right or up. A target that is not a unit vector yields no turn at all. */
  lemma PlanTurnsReachesTarget(current: Direction, target: Direction)
    requires IsUnit(current)
    ensures IsUnit(target) ==> ApplyTurns(current, PlanTurns(current, target)) == target
    ensures |PlanTurns(current, target)| <= 2
    ensures |PlanTurns(current, target)| == 2 <==> IsUnit(target) && target == Reverse(current)
    ensures PlanTurns(current, target) == [RightTurn, RightTurn] <==>
              target == Reverse(current) && (current == Right || current == Up)
    ensures !IsUnit(target) ==> PlanTurns(current, target) == []
  {
    var ts := PlanTurns(current, target);
    ApplyShortTurns(current, ts);
    if target == current {
      assert ts == [];
    } else if target == TurnLeftOf(current) {
      assert ts == [LeftTurn];
    } else if target == TurnRightOf(current) {
      assert ts == [RightTurn];
    } else if target == Reverse(current) {
      assert TurnLeftOf(TurnLeftOf(current)) == target == TurnRightOf(TurnRightOf(current));
    } else {
      assert ts == [];
      assert !IsUnit(target) by {
        if current == Up { } else if current == Right { } else if current == Down { } else { }
      }
    }
  }

  lemma ApplyShortTurns(d: Direction, ts: seq<Turn>)
    requires |ts| <= 2
    ensures |ts| == 1 ==> ApplyTurns(d, ts) == ApplyTurn(d, ts[0])
    ensures |ts| == 2 ==> ApplyTurns(d, ts) == ApplyTurn(ApplyTurn(d, ts[0]), ts[1])
  {
    if |ts| == 2 {
      var mid := ApplyTurn(d, ts[0]);
      assert ts[1..] == [ts[1]] && [ts[1]][1..] == [];
      assert ApplyTurns(d, ts) == ApplyTurns(mid, [ts[1]]) == ApplyTurn(mid, ts[1]);
    } else if |ts| == 1 {
      assert ts[1..] == [];
    }
  }
}
