/** Grid geometry of one player's playfield: dimensions, obstacle shapes
    and the cells an obstacle occupies. Positions are kept in cells; a
    pixel coordinate of the game is always the cell index times BLOCK_SIZE. */
module Geometry {

  datatype Option<T> = None | Some(value: T)

  const NUM_PLAYERS: int := 2
  const PLAYER_WIDTH: int := 400
  const SCREEN_HEIGHT: int := 800
  const BLOCK_SIZE: int := 40
  /** Columns of one player's grid (GRID_WIDTH_PER_PLAYER). */
  const GRID_WIDTH: int := PLAYER_WIDTH / BLOCK_SIZE
  const GRID_HEIGHT: int := SCREEN_HEIGHT / BLOCK_SIZE
  /** How many steps an obstacle cell is projected downwards by the bots. */
  const SIM_DEPTH: int := GRID_HEIGHT + 5
  /** The player's row: y = SCREEN_HEIGHT - 3 * BLOCK_SIZE. */
  const PLAYER_ROW: int := (SCREEN_HEIGHT - 3 * BLOCK_SIZE) / BLOCK_SIZE
  /** Obstacles whose y reaches SCREEN_HEIGHT + BLOCK_SIZE are dropped. */
  const PRUNE_ROW: int := (SCREEN_HEIGHT + BLOCK_SIZE) / BLOCK_SIZE

  /** A shape matrix; an entry is true where the piece has a block. */
  type Shape = seq<seq<bool>>

  /** A falling piece: its shape, the column and row of its top-left
      corner, and the index of the lane it was spawned in. */
  datatype Obstacle = Obstacle(shape: Shape, col: int, row: int, lane: nat)

  datatype Cell = Cell(col: int, row: int)

  /** Obstacle t has a block on column x, row y. */
  predicate Covers(t: Obstacle, x: int, y: int)
  {
    0 <= y - t.row < |t.shape| && 0 <= x - t.col < |t.shape[y - t.row]| && t.shape[y - t.row][x - t.col]
  }

  /** The number of blocks among the first n entries of a shape row. */
  function CountRow(line: seq<bool>, n: nat): nat
    requires n <= |line|
  {
    if n == 0 then 0 else CountRow(line, n - 1) + (if line[n - 1] then 1 else 0)
  }

  /** The number of blocks in the first m rows of a shape. */
  function CountRows(shape: Shape, m: nat): nat
    requires m <= |shape|
  {
    if m == 0 then 0 else CountRows(shape, m - 1) + CountRow(shape[m - 1], |shape[m - 1]|)
  }

  function ShapeSize(shape: Shape): nat
  {
    CountRows(shape, |shape|)
  }

  /** The length of the longest row of a shape: the width of its bounding box. */
  function MaxWidth(shape: Shape): (w: nat)
    ensures forall r :: 0 <= r < |shape| ==> |shape[r]| <= w
    ensures |shape| > 0 ==> exists r :: 0 <= r < |shape| && |shape[r]| == w
    ensures |shape| == 0 ==> w == 0
  {
    if |shape| == 0 then 0
    else
      var rest := MaxWidth(shape[1..]);
      assert forall r :: 1 <= r < |shape| ==> shape[r] == shape[1..][r - 1];
      if |shape[0]| >= rest then |shape[0]| else rest
  }

  /** The set of cells obstacle t occupies: one per block of its shape,
      offset by its anchor. */
  method GetOccupiedCells(t: Obstacle) returns (cells: set<Cell>)
    ensures forall cell :: cell in cells <==> Covers(t, cell.col, cell.row)
    ensures |cells| == ShapeSize(t.shape)
    ensures forall cell :: cell in cells ==>
      t.col <= cell.col < t.col + MaxWidth(t.shape) && t.row <= cell.row < t.row + |t.shape|
  {
    cells := {};
    var r := 0;
    while r < |t.shape|
      invariant 0 <= r <= |t.shape|
      invariant CellsBefore(t, r, 0, cells) && |cells| == CountRows(t.shape, r)
    {
      cells := AddRowCells(t, r, cells);
      r := r + 1;
    }
  }

  /** cells holds exactly the blocks of t in the shape rows above r and in
      the first c entries of shape row r. */
  ghost predicate CellsBefore(t: Obstacle, r: int, c: int, cells: set<Cell>)
  {
    forall cell :: cell in cells <==>
      Covers(t, cell.col, cell.row) && (cell.row - t.row < r || (cell.row - t.row == r && cell.col - t.col < c))
  }

  lemma CellsBeforeStep(t: Obstacle, r: nat, c: nat, cells: set<Cell>)
    requires r < |t.shape| && c < |t.shape[r]| && CellsBefore(t, r, c, cells)
    ensures t.shape[r][c] ==> Cell(t.col + c, t.row + r) !in cells &&
                              CellsBefore(t, r, c + 1, cells + {Cell(t.col + c, t.row + r)})
    ensures !t.shape[r][c] ==> CellsBefore(t, r, c + 1, cells)
  {
  }

  /** Adds the cells of the blocks of shape row r to the cells of the rows
      above it. */
  method AddRowCells(t: Obstacle, r: nat, cells: set<Cell>) returns (cells': set<Cell>)
    requires r < |t.shape|
    requires CellsBefore(t, r, 0, cells) && |cells| == CountRows(t.shape, r)
    ensures CellsBefore(t, r + 1, 0, cells') && |cells'| == CountRows(t.shape, r + 1)
  {
    cells' := cells;
    var c := 0;
    while c < |t.shape[r]|
      invariant 0 <= c <= |t.shape[r]|
      invariant CellsBefore(t, r, c, cells')
      invariant |cells'| == CountRows(t.shape, r) + CountRow(t.shape[r], c)
    {
      CellsBeforeStep(t, r, c, cells');
      if t.shape[r][c] {
        cells' := cells' + {Cell(t.col + c, t.row + r)};
      }
      c := c + 1;
    }
    RowEnd(t, r, cells');
  }

  lemma RowEnd(t: Obstacle, r: nat, cells: set<Cell>)
    requires r < |t.shape| && CellsBefore(t, r, |t.shape[r]|, cells)
    ensures CellsBefore(t, r + 1, 0, cells)
  {
  }

  /** A shape whose rows all have the length of the first one. */
  predicate Rectangular(shape: Shape)
  {
    |shape| > 0 && forall r :: 0 <= r < |shape| ==> |shape[r]| == |shape[0]|
  }
}
