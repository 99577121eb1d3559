/**
 * Coordinates on the 5 x 4 realm grid and the pure spatial queries over them:
 * bounds, row-major numbering, the cells an intersection touches, projectile
 * rays, orthogonal adjacency and the 8-neighbourhood.
 */
module Grid {
  import Seqs

  const ROWS: int := 5
  const COLS: int := 4

  /** A grid coordinate, or an offset between two; any integers, in bounds or not. */
  datatype Cell = Cell(row: int, col: int)

  predicate InBounds(cell: Cell) {
    0 <= cell.row < ROWS && 0 <= cell.col < COLS
  }

  /** The 1-based row-major number the board constructor gives the location at `cell`. */
  function IndexOf(cell: Cell): int {
    cell.row * COLS + cell.col + 1
  }

  /** Every in-bounds cell gets a number in 1..20, and no two cells share one. */
  lemma IndexIsBijective(a: Cell, b: Cell)
    requires InBounds(a) && InBounds(b)
    ensures 1 <= IndexOf(a) <= ROWS * COLS
    ensures IndexOf(a) == IndexOf(b) <==> a == b
  {
  }

  /** Offsets walked by the projectile and adjacency queries: up, down, left, right. */
  const ORTHOGONAL: seq<Cell> := [Cell(-1, 0), Cell(1, 0), Cell(0, -1), Cell(0, 1)]

  /** Offsets walked by the nearby query: the three above, left, right, the three below. */
  const SURROUNDING: seq<Cell> := [Cell(-1, -1), Cell(-1, 0), Cell(-1, 1), Cell(0, -1), Cell(0, 1), Cell(1, -1), Cell(1, 0), Cell(1, 1)]

  function Abs(x: int): nat {
    if x < 0 then -x else x
  }

  // ---------------------------------------------------------------------------
  // Intersections

  /**
   * The cells an intersection based at (i, j) touches, in the order the board
   * lists them: the 2 x 2 block self, east, south, south-east when both
   * neighbours exist; otherwise south (if any), then east (if any), then the
   * base cell itself, last.
   */
  function IntersectionCells(i: int, j: int): (r: seq<Cell>)
    requires InBounds(Cell(i, j))
    ensures forall k :: 0 <= k < |r| ==> InBounds(r[k])
  {
    if i < ROWS - 1 && j < COLS - 1 then
      [Cell(i, j), Cell(i, j + 1), Cell(i + 1, j), Cell(i + 1, j + 1)]
    else
      (if i < ROWS - 1 then [Cell(i + 1, j)] else [])
      + (if j < COLS - 1 then [Cell(i, j + 1)] else [])
      + [Cell(i, j)]
  }

  /**
   * An intersection touches one to four cells, always including its base cell;
   * each lies at most one row below and one column right of the base, and on
   * the edges the base cell comes last (alone in the bottom-right corner).
   */
  lemma IntersectionCellsSpec(i: int, j: int)
    requires InBounds(Cell(i, j))
    ensures var r := IntersectionCells(i, j);
      && 1 <= |r| <= 4
      && Cell(i, j) in r
      && (forall k :: 0 <= k < |r| ==> i <= r[k].row <= i + 1 && j <= r[k].col <= j + 1)
      && (i == ROWS - 1 && j == COLS - 1 ==> r == [Cell(i, j)])
      && ((i == ROWS - 1 || j == COLS - 1) ==> r[|r| - 1] == Cell(i, j))
  {
  }

  /** An inner cell's intersection is the full 2 x 2 block; an edge cell's never is. */
  lemma IntersectionSize(i: int, j: int)
    requires InBounds(Cell(i, j))
    ensures |IntersectionCells(i, j)| == 4 <==> (i < ROWS - 1 && j < COLS - 1)
    ensures i < ROWS - 1 && j < COLS - 1 ==>
      IntersectionCells(i, j) == [Cell(i, j), Cell(i, j + 1), Cell(i + 1, j), Cell(i + 1, j + 1)]
    ensures i == ROWS - 1 && j < COLS - 1 ==> IntersectionCells(i, j) == [Cell(i, j + 1), Cell(i, j)]
    ensures i < ROWS - 1 && j == COLS - 1 ==> IntersectionCells(i, j) == [Cell(i + 1, j), Cell(i, j)]
  {
  }

  // ---------------------------------------------------------------------------
  // Spatial queries on coordinates

  /** The four directions a projectile flies, in the order the board tries them. */
  datatype Direction = Up | Down | Left | Right

  const DIRECTIONS: seq<Direction> := [Up, Down, Left, Right]

  /** The unit offset of a direction: the entries of ORTHOGONAL, in the same order. */
  function Delta(d: Direction): (r: Cell)
    ensures r in ORTHOGONAL
  {
    match d
    case Up => Cell(-1, 0)
    case Down => Cell(1, 0)
    case Left => Cell(0, -1)
    case Right => Cell(0, 1)
  }

  /** The cell one step in direction `d` away from `cell`. */
  function Next(cell: Cell, d: Direction): Cell {
    Cell(cell.row + Delta(d).row, cell.col + Delta(d).col)
  }

  /** The cell `k` steps in direction `d` away from `origin`. */
  function Stepped(origin: Cell, d: Direction, k: int): Cell {
    match d
    case Up => Cell(origin.row - k, origin.col)
    case Down => Cell(origin.row + k, origin.col)
    case Left => Cell(origin.row, origin.col - k)
    case Right => Cell(origin.row, origin.col + k)
  }

  /** `Stepped` is the origin plus k times the unit offset, k orthogonal steps away. */
  lemma SteppedFormula(origin: Cell, d: Direction, k: nat)
    ensures Stepped(origin, d, k) == Cell(origin.row + k * Delta(d).row, origin.col + k * Delta(d).col)
    ensures Abs(Stepped(origin, d, k).row - origin.row) + Abs(Stepped(origin, d, k).col - origin.col) == k
  {
  }

  /** Taking n = k + 1 steps from `origin` is taking `k` steps from the cell one step away. */
  lemma SteppedShift(origin: Cell, d: Direction, k: int, n: int)
    requires n == k + 1
    ensures Stepped(origin, d, n) == Stepped(Next(origin, d), d, k)
  {
  }

  /** Number of steps from `cell` to the edge of the board in direction `d`. */
  function StepsToEdge(cell: Cell, d: Direction): int {
    match d
    case Up => cell.row
    case Down => ROWS - 1 - cell.row
    case Left => cell.col
    case Right => COLS - 1 - cell.col
  }

  /**
   * The cells from `start` onwards, one step in direction `d` at a time, until
   * the walk leaves the grid: what the projectile loop collects.
   */
  function Ray(start: Cell, d: Direction): seq<Cell>
    decreases StepsToEdge(start, d) + 1
  {
    if InBounds(start) then [start] + Ray(Next(start, d), d) else []
  }

  /** The m-th cell of a ray is the one `m` steps from where it starts. */
  lemma {:induction false} RayAt(start: Cell, d: Direction, m: nat)
    requires m < |Ray(start, d)|
    ensures Ray(start, d)[m] == Stepped(start, d, m)
    decreases m
  {
    assert InBounds(start);
    var rest := Ray(Next(start, d), d);
    assert Ray(start, d) == [start] + rest;
    if m == 0 {
      assert Stepped(start, d, 0) == start;
    } else {
      assert Ray(start, d)[m] == rest[m - 1];
      RayAt(Next(start, d), d, m - 1);
      SteppedShift(start, d, m - 1, m);
    }
  }

  /** A ray stops at the edge: every cell it holds is on the board. */
  lemma {:induction false} RayOnBoard(start: Cell, d: Direction)
    ensures forall m :: 0 <= m < |Ray(start, d)| ==> InBounds(Ray(start, d)[m])
    decreases StepsToEdge(start, d) + 1
  {
    if InBounds(start) {
      RayOnBoard(Next(start, d), d);
      assert Ray(start, d) == [start] + Ray(Next(start, d), d);
    }
  }

  /** One step brings a cell one step closer to the edge, or off the board from a cell on the edge. */
  lemma StepTowardsEdge(cell: Cell, d: Direction)
    requires InBounds(cell)
    ensures StepsToEdge(cell, d) >= 0
    ensures if InBounds(Next(cell, d)) then StepsToEdge(Next(cell, d), d) == StepsToEdge(cell, d) - 1
      else StepsToEdge(cell, d) == 0
  {
  }

  /** A ray that starts inside the grid runs to the edge and no further. */
  lemma {:induction false} RayLength(start: Cell, d: Direction)
    requires InBounds(start)
    ensures |Ray(start, d)| == StepsToEdge(start, d) + 1
    decreases StepsToEdge(start, d)
  {
    StepTowardsEdge(start, d);
    if InBounds(Next(start, d)) {
      StepTowardsEdge(Next(start, d), d);
      RayLength(Next(start, d), d);
    }
  }

  /** The line fired from `origin` in direction `d`: the ray starting one step away. */
  function ProjectileLine(origin: Cell, d: Direction): seq<Cell> {
    Ray(Next(origin, d), d)
  }

  /** Position m of a projectile line is the cell m + 1 steps from the origin. */
  lemma ProjectileLineAt(origin: Cell, d: Direction, m: nat)
    requires m < |ProjectileLine(origin, d)|
    ensures ProjectileLine(origin, d)[m] == Stepped(origin, d, m + 1)
  {
    RayAt(Next(origin, d), d, m);
    SteppedShift(origin, d, m, m + 1);
  }

  /** Every cell of a projectile line is on the board. */
  lemma ProjectileLineOnBoard(origin: Cell, d: Direction)
    ensures forall m :: 0 <= m < |ProjectileLine(origin, d)| ==> InBounds(ProjectileLine(origin, d)[m])
  {
    RayOnBoard(Next(origin, d), d);
  }

  /** From an in-bounds origin a projectile line has exactly as many cells as lie between the origin and the edge. */
  lemma ProjectileLineLength(origin: Cell, d: Direction)
    requires InBounds(origin)
    ensures |ProjectileLine(origin, d)| == StepsToEdge(origin, d)
  {
    StepTowardsEdge(origin, d);
    if InBounds(Next(origin, d)) {
      RayLength(Next(origin, d), d);
    }
  }

  /** Position m of a projectile line is the origin plus m + 1 steps, exactly m + 1 orthogonal steps from it. */
  lemma ProjectileLineCell(origin: Cell, d: Direction, m: nat)
    requires m < |ProjectileLine(origin, d)|
    ensures ProjectileLine(origin, d)[m] == Cell(origin.row + (m + 1) * Delta(d).row, origin.col + (m + 1) * Delta(d).col)
    ensures Abs(ProjectileLine(origin, d)[m].row - origin.row) + Abs(ProjectileLine(origin, d)[m].col - origin.col) == m + 1
  {
    ProjectileLineAt(origin, d, m);
    SteppedFormula(origin, d, m + 1);
  }

  /**
   * Each projectile line holds, at position m, the cell m + 1 steps from the
   * origin (so it never holds the origin and moves strictly away from it),
   * every cell is on the board, and from an in-bounds origin the line has
   * exactly as many cells as there are between the origin and the edge.
   */
  lemma ProjectileLineShape(origin: Cell, d: Direction)
    ensures forall m :: 0 <= m < |ProjectileLine(origin, d)| ==>
      ProjectileLine(origin, d)[m] == Cell(origin.row + (m + 1) * Delta(d).row, origin.col + (m + 1) * Delta(d).col)
    ensures forall m :: 0 <= m < |ProjectileLine(origin, d)| ==>
      InBounds(ProjectileLine(origin, d)[m]) &&
      Abs(ProjectileLine(origin, d)[m].row - origin.row) + Abs(ProjectileLine(origin, d)[m].col - origin.col) == m + 1
    ensures origin !in ProjectileLine(origin, d)
    ensures InBounds(origin) ==> |ProjectileLine(origin, d)| == StepsToEdge(origin, d)
  {
    var line := ProjectileLine(origin, d);
    ProjectileLineOnBoard(origin, d);
    forall m | 0 <= m < |line|
      ensures line[m] == Cell(origin.row + (m + 1) * Delta(d).row, origin.col + (m + 1) * Delta(d).col)
      ensures Abs(line[m].row - origin.row) + Abs(line[m].col - origin.col) == m + 1
      ensures line[m] != origin
    {
      ProjectileLineCell(origin, d, m);
    }
    if InBounds(origin) {
      ProjectileLineLength(origin, d);
    }
  }

  /** The four projectile lines from `origin`, in the order of DIRECTIONS: up, down, left, right. */
  function ProjectileLines(origin: Cell): (lines: seq<seq<Cell>>)
    ensures |lines| == 4
    ensures forall k, m :: 0 <= k < 4 && 0 <= m < |lines[k]| ==> InBounds(lines[k][m])
  {
    ProjectileLineOnBoard(origin, Up);
    ProjectileLineOnBoard(origin, Down);
    ProjectileLineOnBoard(origin, Left);
    ProjectileLineOnBoard(origin, Right);
    [ProjectileLine(origin, Up), ProjectileLine(origin, Down), ProjectileLine(origin, Left), ProjectileLine(origin, Right)]
  }

  /** Line k of `ProjectileLines` is the projectile line in direction DIRECTIONS[k], whose offset is ORTHOGONAL[k]. */
  lemma ProjectileLinesDirections(origin: Cell)
    ensures forall k :: 0 <= k < 4 ==>
      ProjectileLines(origin)[k] == ProjectileLine(origin, DIRECTIONS[k]) && Delta(DIRECTIONS[k]) == ORTHOGONAL[k]
  {
  }

  /** The offsets of `deltas` applied to `origin` that land on the board, in the order of `deltas`. */
  function Neighbours(origin: Cell, deltas: seq<Cell>): (r: seq<Cell>)
    ensures |r| <= |deltas|
    ensures forall cell :: cell in r <==> InBounds(cell) && Cell(cell.row - origin.row, cell.col - origin.col) in deltas
  {
    if deltas == [] then []
    else
      var cell := Cell(origin.row + deltas[0].row, origin.col + deltas[0].col);
      assert forall d :: d in deltas <==> d == deltas[0] || d in deltas[1..];
      (if InBounds(cell) then [cell] else []) + Neighbours(origin, deltas[1..])
  }

  /** `origin` moved by each offset of `deltas`, on the board or not, in the order of `deltas`. */
  function Shifted(origin: Cell, deltas: seq<Cell>): (r: seq<Cell>)
    ensures |r| == |deltas|
    ensures forall k :: 0 <= k < |r| ==> r[k] == Cell(origin.row + deltas[k].row, origin.col + deltas[k].col)
  {
    if deltas == [] then []
    else [Cell(origin.row + deltas[0].row, origin.col + deltas[0].col)] + Shifted(origin, deltas[1..])
  }

  /** The neighbour queries walk the offsets in their listed order and keep exactly the cells that land on the board. */
  lemma {:induction false} NeighboursInOrder(origin: Cell, deltas: seq<Cell>)
    ensures Neighbours(origin, deltas) == Seqs.Filter(Shifted(origin, deltas), InBounds)
  {
    if deltas != [] {
      var shifted := Shifted(origin, deltas);
      assert shifted[1..] == Shifted(origin, deltas[1..]);
      NeighboursInOrder(origin, deltas[1..]);
    }
  }

  function AdjacentCells(origin: Cell): seq<Cell> {
    Neighbours(origin, ORTHOGONAL)
  }

  function NearbyCells(origin: Cell): seq<Cell> {
    Neighbours(origin, SURROUNDING)
  }

  lemma OrthogonalOffsets(d: Cell)
    ensures d in ORTHOGONAL <==> Abs(d.row) + Abs(d.col) == 1
  {
    assert d in ORTHOGONAL <==> d == Cell(-1, 0) || d == Cell(1, 0) || d == Cell(0, -1) || d == Cell(0, 1);
  }

  lemma SurroundingOffsets(d: Cell)
    ensures d in SURROUNDING <==> d != Cell(0, 0) && Abs(d.row) <= 1 && Abs(d.col) <= 1
  {
    assert d in SURROUNDING <==>
      d == Cell(-1, -1) || d == Cell(-1, 0) || d == Cell(-1, 1) || d == Cell(0, -1) ||
      d == Cell(0, 1) || d == Cell(1, -1) || d == Cell(1, 0) || d == Cell(1, 1);
  }

  /** A cell is adjacent exactly when it is on the board and one orthogonal step away. */
  lemma AdjacentCellsSpec(origin: Cell, cell: Cell)
    ensures |AdjacentCells(origin)| <= 4
    ensures cell in AdjacentCells(origin) <==>
      InBounds(cell) && Abs(cell.row - origin.row) + Abs(cell.col - origin.col) == 1
  {
    OrthogonalOffsets(Cell(cell.row - origin.row, cell.col - origin.col));
  }

  /**
   * Adjacency between two cells on the board is symmetric. (An off-board cell
   * can list on-board cells as adjacent, so both cells must be on the board.)
   */
  lemma AdjacentSymmetric(a: Cell, b: Cell)
    requires InBounds(a) && InBounds(b)
    ensures b in AdjacentCells(a) <==> a in AdjacentCells(b)
  {
    AdjacentCellsSpec(a, b);
    AdjacentCellsSpec(b, a);
    assert Abs(b.row - a.row) == Abs(a.row - b.row) && Abs(b.col - a.col) == Abs(a.col - b.col);
  }

  /**
   * A cell is nearby exactly when it is on the board, is not the origin, and is
   * at most one step away in each coordinate; every adjacent cell is nearby.
   */
  lemma NearbyCellsSpec(origin: Cell, cell: Cell)
    ensures |NearbyCells(origin)| <= 8
    ensures cell in NearbyCells(origin) <==>
      InBounds(cell) && cell != origin && Abs(cell.row - origin.row) <= 1 && Abs(cell.col - origin.col) <= 1
  {
    var d := Cell(cell.row - origin.row, cell.col - origin.col);
    SurroundingOffsets(d);
    assert cell in NearbyCells(origin) <==> InBounds(cell) && d in SURROUNDING;
    assert d != Cell(0, 0) <==> cell != origin;
  }

  /** Every adjacent cell is also nearby. */
  lemma AdjacentAreNearby(origin: Cell, cell: Cell)
    requires cell in AdjacentCells(origin)
    ensures cell in NearbyCells(origin)
  {
    AdjacentCellsSpec(origin, cell);
    NearbyCellsSpec(origin, cell);
  }

  /** Every listed adjacent cell is on the board and one orthogonal step from the origin; there are at most four. */
  lemma AdjacentCellsAll(origin: Cell)
    ensures |AdjacentCells(origin)| <= 4
    ensures forall k :: 0 <= k < |AdjacentCells(origin)| ==>
      InBounds(AdjacentCells(origin)[k]) &&
      Abs(AdjacentCells(origin)[k].row - origin.row) + Abs(AdjacentCells(origin)[k].col - origin.col) == 1
  {
    var cells := AdjacentCells(origin);
    forall k | 0 <= k < |cells|
      ensures InBounds(cells[k]) && Abs(cells[k].row - origin.row) + Abs(cells[k].col - origin.col) == 1
    {
      AdjacentCellsSpec(origin, cells[k]);
    }
    AdjacentCellsSpec(origin, origin);
  }

  /** Every listed nearby cell is on the board, not the origin, and at most one step away in each coordinate; there are at most eight. */
  lemma NearbyCellsAll(origin: Cell)
    ensures |NearbyCells(origin)| <= 8
    ensures forall k :: 0 <= k < |NearbyCells(origin)| ==>
      InBounds(NearbyCells(origin)[k]) && NearbyCells(origin)[k] != origin &&
      Abs(NearbyCells(origin)[k].row - origin.row) <= 1 && Abs(NearbyCells(origin)[k].col - origin.col) <= 1
  {
    var cells := NearbyCells(origin);
    forall k | 0 <= k < |cells|
      ensures InBounds(cells[k]) && cells[k] != origin &&
        Abs(cells[k].row - origin.row) <= 1 && Abs(cells[k].col - origin.col) <= 1
    {
      NearbyCellsSpec(origin, cells[k]);
    }
    NearbyCellsSpec(origin, origin);
  }
}
