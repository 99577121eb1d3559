/**
 * The realm grid as objects: a fixed 5 x 4 matrix of locations, numbered 1..20
 * row by row, the derived matrix of intersections (corner points touching one
 * to four locations), bounds-checked lookups and the three spatial queries
 * (projectile rays, orthogonal adjacency, the 8-neighbourhood).
 */
module Boards {
  import opened Wrappers
  import opened Grid
  import Cards

  const ZONES: seq<string> := ["Atlas", "Spellbook", "Hand", "Cemetery", "Discard"]

  // ---------------------------------------------------------------------------
  // Locations, intersections and the board

  predicate IsGrid<T>(grid: seq<seq<T>>) {
    |grid| == ROWS && forall i :: 0 <= i < ROWS ==> |grid[i]| == COLS
  }

  /** One grid square. */
  class Location {
    var site: Option<Cards.Card>
    var surfaceSpells: seq<Cards.Card>
    var subSurfaceSpells: seq<Cards.Card>
    var isWater: bool
    var bodyIndex: int
    var index: int

    /** No site, no spells, dry land, no body of water, not yet numbered. */
    constructor ()
      ensures Blank(this) && index == -1
    {
      site := None;
      surfaceSpells := [];
      subSurfaceSpells := [];
      isWater := false;
      bodyIndex := -1;
      index := -1;
    }
  }

  /** `loc` holds nothing and is dry land outside any body of water. */
  ghost predicate Blank(loc: Location)
    reads loc
  {
    loc.site == None && loc.surfaceSpells == [] && loc.subSurfaceSpells == [] &&
    !loc.isWater && loc.bodyIndex == -1
  }

  /** A corner point bordering one to four locations; the bordering locations never change. */
  class Intersection {
    var spells: seq<Cards.Card>
    const adjacentLocations: seq<Location>

    constructor (adjacent: seq<Location>)
      ensures spells == [] && adjacentLocations == adjacent
    {
      spells := [];
      adjacentLocations := adjacent;
    }
  }

  /** `x` borders exactly the locations of `grid` at the cells of the intersection based at (i, j). */
  ghost predicate Borders(x: Intersection, grid: seq<seq<Location>>, i: int, j: int)
    requires IsGrid(grid) && InBounds(Cell(i, j))
  {
    var cells := IntersectionCells(i, j);
    |x.adjacentLocations| == |cells| &&
    forall k :: 0 <= k < |cells| ==> x.adjacentLocations[k] == grid[cells[k].row][cells[k].col]
  }

  /** Every entry of `row` borders the cells of the intersection based at its position on row `i`. */
  ghost predicate RowBorders(row: seq<Intersection>, grid: seq<seq<Location>>, i: int)
    requires IsGrid(grid) && 0 <= i < ROWS
  {
    |row| == COLS && forall j :: 0 <= j < COLS ==> Borders(row[j], grid, i, j)
  }

  /** The intersection based at (i, j): its south, east and own locations on the edges, the 2x2 block elsewhere. */
  method NewIntersection(grid: seq<seq<Location>>, i: int, j: int) returns (x: Intersection)
    requires IsGrid(grid) && InBounds(Cell(i, j))
    ensures fresh(x) && x.spells == []
    ensures Borders(x, grid, i, j)
  {
    var adj: seq<Location> := [];
    if i < ROWS - 1 && j < COLS - 1 {
      adj := [grid[i][j], grid[i][j + 1], grid[i + 1][j], grid[i + 1][j + 1]];
    } else {
      if i < ROWS - 1 {
        adj := adj + [grid[i + 1][j]];
      }
      if j < COLS - 1 {
        adj := adj + [grid[i][j + 1]];
      }
      adj := adj + [grid[i][j]];
    }
    x := new Intersection(adj);
  }

  /** The intersections based on row `i`, left to right. */
  method NewIntersectionRow(grid: seq<seq<Location>>, i: int) returns (row: seq<Intersection>)
    requires IsGrid(grid) && 0 <= i < ROWS
    ensures RowBorders(row, grid, i)
  {
    row := [];
    for j := 0 to COLS
      invariant |row| == j
      invariant forall c :: 0 <= c < j ==> Borders(row[c], grid, i, c)
    {
      var x := NewIntersection(grid, i, j);
      row := row + [x];
    }
  }

  /** A row of fresh blank locations numbered `first`, `first` + 1, ... from left to right; `next` is the number after the last. */
  method NewLocationRow(first: int) returns (row: seq<Location>, next: int)
    ensures |row| == COLS && next == first + COLS
    ensures forall c :: 0 <= c < COLS ==> fresh(row[c]) && Blank(row[c]) && row[c].index == first + c
  {
    row := [];
    next := first;
    for j := 0 to COLS
      invariant |row| == j && next == first + j
      invariant forall c :: 0 <= c < j ==> fresh(row[c]) && Blank(row[c]) && row[c].index == first + c
    {
      var loc := new Location();
      loc.index := next;
      next := next + 1;
      row := row + [loc];
    }
  }

  /** A cell of a query result: its coordinates and the location found there. */
  datatype Placed = Placed(row: int, col: int, location: Location)

  class Board {
    var locations: seq<seq<Location>>
    var intersections: seq<seq<Intersection>>

    /** The location rows and columns have the board's fixed dimensions. */
    ghost predicate Gridded()
      reads this
    {
      IsGrid(locations)
    }

    /** Both matrices have the board's fixed dimensions. */
    ghost predicate Shaped()
      reads this
    {
      && Gridded()
      && |intersections| == ROWS
      && (forall i :: 0 <= i < ROWS ==> |intersections[i]| == COLS)
    }

    ghost function Cells(): set<Location>
      reads this
    {
      set i, j | 0 <= i < |locations| && 0 <= j < |locations[i]| :: locations[i][j]
    }

    /** Every location carries its row-major number. */
    ghost predicate Numbered()
      reads this, Cells()
      requires Gridded()
    {
      forall i, j :: InBounds(Cell(i, j)) ==> locations[i][j].index == IndexOf(Cell(i, j))
    }

    /** Every intersection borders exactly the locations of its cells. */
    ghost predicate Linked()
      reads this
      requires Shaped()
    {
      forall i :: 0 <= i < ROWS ==> RowBorders(intersections[i], locations, i)
    }

    ghost predicate Valid()
      reads this, Cells()
    {
      Shaped() && Numbered() && Linked()
    }

    /** Builds the grid row by row, numbering locations 1..20, then derives the intersections. */
    constructor ()
      ensures Valid()
      ensures forall i, j :: InBounds(Cell(i, j)) ==> fresh(locations[i][j]) && Blank(locations[i][j])
    {
      var grid: seq<seq<Location>> := [];
      var index := 1;
      for i := 0 to ROWS
        invariant |grid| == i
        invariant index == i * COLS + 1
        invariant forall r :: 0 <= r < i ==> |grid[r]| == COLS
        invariant forall r, c :: 0 <= r < i && 0 <= c < COLS ==>
          fresh(grid[r][c]) && Blank(grid[r][c]) && grid[r][c].index == IndexOf(Cell(r, c))
      {
        var row;
        row, index := NewLocationRow(index);
        grid := grid + [row];
      }
      locations := grid;
      intersections := [];
      new;
      intersections := CreateIntersections();
    }

    /** One intersection per cell, bordering the locations its cells name. */
    method CreateIntersections() returns (xs: seq<seq<Intersection>>)
      requires Gridded()
      ensures |xs| == ROWS
      ensures forall i :: 0 <= i < ROWS ==> RowBorders(xs[i], locations, i)
    {
      var grid := locations;
      xs := [];
      for i := 0 to ROWS
        invariant |xs| == i
        invariant forall r :: 0 <= r < i ==> RowBorders(xs[r], grid, r)
      {
        var row := NewIntersectionRow(grid, i);
        xs := xs + [row];
      }
    }

    /** The location at (row, col), or nothing when that cell is off the board. */
    function GetLocation(row: int, col: int): (r: Option<Location>)
      reads this, Cells()
      requires Valid()
      ensures r.Some? <==> InBounds(Cell(row, col))
      ensures r.Some? ==> r.value in Cells() && r.value.index == IndexOf(Cell(row, col))
    {
      if 0 <= row < ROWS && 0 <= col < COLS then Some(locations[row][col])
      else None
    }

    /** The intersection based at (row, col), or nothing when that cell is off the board. */
    function GetIntersection(row: int, col: int): (r: Option<Intersection>)
      reads this
      requires Shaped() && Linked()
      ensures r.Some? <==> InBounds(Cell(row, col))
      ensures r.Some? ==> Borders(r.value, locations, row, col)
    {
      if 0 <= row < ROWS && 0 <= col < COLS then Some(intersections[row][col]) else None
    }

    /** `p` names a cell on the board and the location stored there. */
    ghost predicate OnBoard(p: Placed)
      reads this
      requires Shaped()
    {
      InBounds(Cell(p.row, p.col)) && p.location == locations[p.row][p.col]
    }

    /** Pairs each in-bounds cell with the location stored there. */
    function Place(cells: seq<Cell>): (r: seq<Placed>)
      reads this
      requires Shaped()
      requires forall k :: 0 <= k < |cells| ==> InBounds(cells[k])
      ensures |r| == |cells|
      ensures forall k :: 0 <= k < |r| ==> Cell(r[k].row, r[k].col) == cells[k] && OnBoard(r[k])
    {
      var locs := locations;
      seq(|cells|, k requires 0 <= k < |cells| =>
        assert InBounds(cells[k]) && |locs[cells[k].row]| == COLS;
        Placed(cells[k].row, cells[k].col, locs[cells[k].row][cells[k].col]))
    }

    /**
     * The four projectile lines from (row, col), in the order up, down, left,
     * right; each is the ray of cells moving away from the origin up to the
     * edge, with the location at each cell.
     */
    function GetProjectileLocations(row: int, col: int): (lines: seq<seq<Placed>>)
      reads this
      requires Shaped()
      ensures |lines| == 4
      ensures forall k :: 0 <= k < 4 ==> lines[k] == Place(ProjectileLines(Cell(row, col))[k])
    {
      var cells := ProjectileLines(Cell(row, col));
      [Place(cells[0]), Place(cells[1]), Place(cells[2]), Place(cells[3])]
    }

    /** The in-bounds orthogonal neighbours of (row, col), in up/down/left/right order. */
    function GetAdjacentLocations(row: int, col: int): (r: seq<Placed>)
      reads this
      requires Shaped()
      ensures |r| <= 4
      ensures forall k :: 0 <= k < |r| ==> OnBoard(r[k]) && Abs(r[k].row - row) + Abs(r[k].col - col) == 1
      ensures r == Place(AdjacentCells(Cell(row, col)))
    {
      AdjacentCellsAll(Cell(row, col));
      Place(AdjacentCells(Cell(row, col)))
    }

    /** The in-bounds cells around (row, col), diagonals included, in reading order. */
    function GetNearbyLocations(row: int, col: int): (r: seq<Placed>)
      reads this
      requires Shaped()
      ensures |r| <= 8
      ensures forall k :: 0 <= k < |r| ==>
        OnBoard(r[k]) && Cell(r[k].row, r[k].col) != Cell(row, col) &&
        Abs(r[k].row - row) <= 1 && Abs(r[k].col - col) <= 1
      ensures r == Place(NearbyCells(Cell(row, col)))
    {
      NearbyCellsAll(Cell(row, col));
      Place(NearbyCells(Cell(row, col)))
    }
  }

  /** Distinct cells of a valid board hold distinct locations. */
  lemma DistinctLocations(b: Board, p: Cell, q: Cell)
    requires b.Valid()
    requires InBounds(p) && InBounds(q) && p != q
    ensures b.locations[p.row][p.col] != b.locations[q.row][q.col]
  {
    IndexIsBijective(p, q);
  }
}
