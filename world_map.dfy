/** Map geometry: bounds, walkability, health-restore cells and the relative
    coordinate system anchored at the top-left floor cell. */
module WorldMap {
  import opened Types

  /** Rows of the map, indexed grid[y][x]. */
  type Grid = seq<string>

  /** The width is taken from row 0 (an empty map has width 0). */
  function Width(g: Grid): int {
    if |g| == 0 then 0 else |g[0]|
  }

  /** The character at (x, y), or None where the row is too short or the cell is
      off the map (JavaScript's `undefined`). */
  function CellAt(g: Grid, x: int, y: int): (c: Option<char>)
    ensures c.Some? <==> 0 <= y < |g| && 0 <= x < |g[y]|
    ensures c.Some? ==> c.value == g[y][x]
  {
    if 0 <= y < |g| && 0 <= x < |g[y]| then Some(g[y][x]) else None
  }

  /** A cell is walkable iff it lies in the width-by-height box and is not '#'.
      A cell past the end of a short row reads as undefined, hence walkable. */
  function IsValidPosition(g: Grid, x: int, y: int): (r: bool)
    ensures r ==> 0 <= x < Width(g) && 0 <= y < |g|
    ensures 0 <= x < Width(g) && 0 <= y < |g| ==> (r <==> CellAt(g, x, y) != Some('#'))
  {
    if x < 0 || x >= Width(g) || y < 0 || y >= |g| then false
    else if x < |g[y]| && g[y][x] == '#' then false
    else true
  }

  /** Health-restore cells: inside their own row and holding 'H'. */
  predicate IsHealthCell(g: Grid, x: int, y: int) {
    0 <= y < |g| && 0 <= x < |g[y]| && g[y][x] == 'H'
  }

  /** A health-restore cell within the map width is walkable. */
  lemma HealthCellIsWalkable(g: Grid, x: int, y: int)
    requires IsHealthCell(g, x, y) && x < Width(g)
    ensures IsValidPosition(g, x, y)
  {
  }

  /** Floor cells anchor relative coordinates; 'H' cells do not. */
  predicate IsFloor(c: char) {
    c == '.' || c == ' '
  }

  /** Some floor cell of the map lies in column x (resp. row y). */
  ghost predicate FloorInColumn(g: Grid, x: int) {
    exists y :: 0 <= y < |g| && 0 <= x < |g[y]| && IsFloor(g[y][x])
  }

  ghost predicate FloorInRow(g: Grid, y: int) {
    0 <= y < |g| && exists x :: 0 <= x < |g[y]| && IsFloor(g[y][x])
  }

  /** The origin of relative coordinates: the least column and the least row that
      hold a floor cell, each capped by the width and the height of the map. */
  ghost predicate IsOrigin(g: Grid, minX: int, minY: int) {
    minX <= Width(g) && minY <= |g| &&
    (forall y, x :: 0 <= y < |g| && 0 <= x < |g[y]| && IsFloor(g[y][x]) ==> minX <= x && minY <= y) &&
    (minX == Width(g) || FloorInColumn(g, minX)) &&
    (minY == |g| || FloorInRow(g, minY))
  }

  /** The origin is determined by the map. */
  lemma OriginUnique(g: Grid, x1: int, y1: int, x2: int, y2: int)
    requires IsOrigin(g, x1, y1) && IsOrigin(g, x2, y2)
    ensures x1 == x2 && y1 == y2
  {
    if FloorInColumn(g, x1) {
      var y :| 0 <= y < |g| && 0 <= x1 < |g[y]| && IsFloor(g[y][x1]);
    }
    if FloorInColumn(g, x2) {
      var y :| 0 <= y < |g| && 0 <= x2 < |g[y]| && IsFloor(g[y][x2]);
    }
    if FloorInRow(g, y1) {
      var x :| 0 <= x < |g[y1]| && IsFloor(g[y1][x]);
    }
    if FloorInRow(g, y2) {
      var x :| 0 <= x < |g[y2]| && IsFloor(g[y2][x]);
    }
  }

  /** The min-tracking scan of getCurrentPosition and moveToPosition. */
  method WalkableOrigin(g: Grid) returns (minX: int, minY: int)
    ensures IsOrigin(g, minX, minY)
  {
    minX := Width(g);
    minY := |g|;
    var y := 0;
    while y < |g|
      invariant 0 <= y <= |g|
      invariant minX <= Width(g) && minY <= |g|
      invariant forall y', x :: 0 <= y' < y && 0 <= x < |g[y']| && IsFloor(g[y'][x]) ==> minX <= x && minY <= y'
      invariant minX == Width(g) || FloorInColumn(g, minX)
      invariant minY == |g| || FloorInRow(g, minY)
    {
      var x := 0;
      while x < |g[y]|
        invariant 0 <= x <= |g[y]|
        invariant minX <= Width(g) && minY <= |g|
        invariant forall y', x' :: 0 <= y' < y && 0 <= x' < |g[y']| && IsFloor(g[y'][x']) ==> minX <= x' && minY <= y'
        invariant forall x' :: 0 <= x' < x && IsFloor(g[y][x']) ==> minX <= x' && minY <= y
        invariant minX == Width(g) || FloorInColumn(g, minX)
        invariant minY == |g| || FloorInRow(g, minY)
      {
        if IsFloor(g[y][x]) {
          minX := if x < minX then x else minX;
          minY := if y < minY then y else minY;
        }
        x := x + 1;
      }
      y := y + 1;
    }
  }
}
