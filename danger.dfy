/** The danger field: every block of every obstacle is projected downwards
    for SIM_DEPTH steps, and each grid cell counts the projections that land
    on it. */
module DangerField {
  import opened Geometry

  /** The number of steps s < steps with top + s == y, for y inside the grid. */
  function StepHits(top: int, steps: nat, y: int): (n: nat)
    ensures n == if 0 <= y < GRID_HEIGHT && top <= y < top + steps then 1 else 0
  {
    if steps == 0 then 0
    else StepHits(top, steps - 1, y) + (if top + steps - 1 == y && 0 <= y < GRID_HEIGHT then 1 else 0)
  }

  /** The hits on (y, x) of the projection of the entry (r, c) of obstacle t. */
  function CellHits(t: Obstacle, r: nat, c: nat, y: int, x: int): nat
    requires r < |t.shape| && c < |t.shape[r]|
  {
    if t.shape[r][c] && 0 <= t.col + c < GRID_WIDTH && t.col + c == x then StepHits(t.row + r, SIM_DEPTH, y) else 0
  }

  /** The hits on (y, x) from the first n entries of row r of obstacle t. */
  function LineHits(t: Obstacle, r: nat, n: nat, y: int, x: int): (h: nat)
    requires r < |t.shape| && n <= |t.shape[r]|
    ensures h == if 0 <= x - t.col < n && t.shape[r][x - t.col] && 0 <= x < GRID_WIDTH
                 then StepHits(t.row + r, SIM_DEPTH, y) else 0
  {
    if n == 0 then 0 else LineHits(t, r, n - 1, y, x) + CellHits(t, r, n - 1, y, x)
  }

  /** The hits on (y, x) from the first m rows of obstacle t. */
  function ShapeHits(t: Obstacle, m: nat, y: int, x: int): nat
    requires m <= |t.shape|
  {
    if m == 0 then 0 else ShapeHits(t, m - 1, y, x) + LineHits(t, m - 1, |t.shape[m - 1]|, y, x)
  }

  /** The value of the danger field at row y, column x for the obstacles obs:
      the number of (obstacle block, step < SIM_DEPTH) pairs whose projection
      lands on the in-grid cell (y, x). */
  function DangerAt(obs: seq<Obstacle>, y: int, x: int): nat
  {
    if |obs| == 0 then 0
    else DangerAt(obs[..|obs| - 1], y, x) + ShapeHits(obs[|obs| - 1], |obs[|obs| - 1].shape|, y, x)
  }

  /** Obstacle t has a block in column x at most SIM_DEPTH - 1 rows above the
      in-grid cell (y, x), among its first m shape rows. */
  ghost predicate ThreatensBefore(t: Obstacle, m: int, y: int, x: int)
  {
    0 <= y < GRID_HEIGHT && 0 <= x < GRID_WIDTH &&
    exists y0 :: y - SIM_DEPTH < y0 <= y && Covers(t, x, y0) && y0 - t.row < m
  }

  ghost predicate Threatens(t: Obstacle, y: int, x: int)
  {
    ThreatensBefore(t, |t.shape|, y, x)
  }

  lemma {:induction false} ShapeHitsPositive(t: Obstacle, m: nat, y: int, x: int)
    requires m <= |t.shape|
    ensures ShapeHits(t, m, y, x) > 0 <==> ThreatensBefore(t, m, y, x)
  {
    if m > 0 {
      ShapeHitsPositive(t, m - 1, y, x);
      var r := m - 1;
      if LineHits(t, r, |t.shape[r]|, y, x) > 0 {
        assert Covers(t, x, t.row + r);
      }
      if ThreatensBefore(t, m, y, x) && !ThreatensBefore(t, m - 1, y, x) {
        var y0 :| y - SIM_DEPTH < y0 <= y && Covers(t, x, y0) && y0 - t.row < m;
        assert y0 - t.row == r;
      }
    }
  }

  /** The danger at an in-grid cell is positive exactly when some obstacle has
      a block in that column no more than SIM_DEPTH - 1 rows above it. */
  lemma {:induction false} DangerPositive(obs: seq<Obstacle>, y: int, x: int)
    ensures DangerAt(obs, y, x) > 0 <==> exists i :: 0 <= i < |obs| && Threatens(obs[i], y, x)
  {
    if |obs| > 0 {
      var init, last := obs[..|obs| - 1], obs[|obs| - 1];
      DangerPositive(init, y, x);
      ShapeHitsPositive(last, |last.shape|, y, x);
      if exists i :: 0 <= i < |obs| && Threatens(obs[i], y, x) {
        var i :| 0 <= i < |obs| && Threatens(obs[i], y, x);
        if i < |obs| - 1 {
          assert init[i] == obs[i];
        }
      }
      if exists i :: 0 <= i < |init| && Threatens(init[i], y, x) {
        var i :| 0 <= i < |init| && Threatens(init[i], y, x);
        assert obs[i] == init[i];
      }
    }
  }

  /** A block at (y0, x) raises the danger of every in-grid cell of its
      column from y0 down to y0 + SIM_DEPTH - 1. */
  lemma ProjectionReaches(obs: seq<Obstacle>, i: int, x: int, y0: int, y: int)
    requires 0 <= i < |obs| && Covers(obs[i], x, y0)
    requires 0 <= x < GRID_WIDTH && 0 <= y < GRID_HEIGHT && y0 <= y < y0 + SIM_DEPTH
    ensures DangerAt(obs, y, x) >= 1
  {
    DangerPositive(obs, y, x);
    assert Threatens(obs[i], y, x);
  }

  lemma NoObstaclesNoDanger(y: int, x: int)
    ensures DangerAt([], y, x) == 0
  {
  }

  /** Cells outside the grid never receive danger. */
  lemma OutsideGridNoDanger(obs: seq<Obstacle>, y: int, x: int)
    requires !(0 <= y < GRID_HEIGHT && 0 <= x < GRID_WIDTH)
    ensures DangerAt(obs, y, x) == 0
  {
    DangerPositive(obs, y, x);
  }

  /** Adds the projection of one obstacle to the field. */
  method AddObstacle(g: array2<int>, t: Obstacle)
    requires g.Length0 == GRID_HEIGHT && g.Length1 == GRID_WIDTH
    modifies g
    ensures forall y, x :: 0 <= y < GRID_HEIGHT && 0 <= x < GRID_WIDTH ==>
      g[y, x] == old(g[y, x]) + ShapeHits(t, |t.shape|, y, x)
  {
    var r := 0;
    while r < |t.shape|
      invariant 0 <= r <= |t.shape|
      invariant forall y, x :: 0 <= y < GRID_HEIGHT && 0 <= x < GRID_WIDTH ==>
        g[y, x] == old(g[y, x]) + ShapeHits(t, r, y, x)
    {
      var c := 0;
      while c < |t.shape[r]|
        invariant 0 <= c <= |t.shape[r]|
        invariant forall y, x :: 0 <= y < GRID_HEIGHT && 0 <= x < GRID_WIDTH ==>
          g[y, x] == old(g[y, x]) + ShapeHits(t, r, y, x) + LineHits(t, r, c, y, x)
      {
        if t.shape[r][c] {
          var tetCol := t.col + c;
          if 0 <= tetCol < GRID_WIDTH {
            var step := 0;
            while step < SIM_DEPTH
              invariant 0 <= step <= SIM_DEPTH
              invariant forall y, x :: 0 <= y < GRID_HEIGHT && 0 <= x < GRID_WIDTH ==>
                g[y, x] == old(g[y, x]) + ShapeHits(t, r, y, x) + LineHits(t, r, c, y, x)
                           + (if x == tetCol then StepHits(t.row + r, step, y) else 0)
            {
              var tetRow := t.row + r + step;
              if 0 <= tetRow < GRID_HEIGHT {
                g[tetRow, tetCol] := g[tetRow, tetCol] + 1;
              }
              step := step + 1;
            }
          }
        }
        c := c + 1;
      }
      r := r + 1;
    }
  }

  /** buildDangerGrid: a GRID_HEIGHT x GRID_WIDTH field holding DangerAt for
      every cell. */
  method BuildDangerGrid(obs: seq<Obstacle>) returns (g: array2<int>)
    ensures g.Length0 == GRID_HEIGHT && g.Length1 == GRID_WIDTH
    ensures forall y, x :: 0 <= y < GRID_HEIGHT && 0 <= x < GRID_WIDTH ==> g[y, x] == DangerAt(obs, y, x)
  {
    g := new int[GRID_HEIGHT, GRID_WIDTH]((_, _) => 0);
    var i := 0;
    while i < |obs|
      invariant 0 <= i <= |obs|
      invariant forall y, x :: 0 <= y < GRID_HEIGHT && 0 <= x < GRID_WIDTH ==> g[y, x] == DangerAt(obs[..i], y, x)
    {
      AddObstacle(g, obs[i]);
      assert obs[..i + 1][..i] == obs[..i];
      i := i + 1;
    }
    assert obs[..|obs|] == obs;
  }

  /** A column is safe on row `row` when the danger there is zero and, if a
      row above exists, the danger there is zero as well. */
  ghost predicate Safe(obs: seq<Obstacle>, row: int, col: int)
  {
    DangerAt(obs, row, col) == 0 && (row > 0 ==> DangerAt(obs, row - 1, col) == 0)
  }

  /** The danger of a column on `row` plus that on the row above. */
  function Combined(obs: seq<Obstacle>, row: int, col: int): nat
  {
    DangerAt(obs, row, col) + (if row > 0 then DangerAt(obs, row - 1, col) else 0)
  }

  /** An in-grid column is safe exactly when no obstacle has a block in that
      column within SIM_DEPTH rows above the row or the row before it. */
  lemma SafeMeansNoThreat(obs: seq<Obstacle>, row: int, col: int)
    requires 0 <= row < GRID_HEIGHT && 0 <= col < GRID_WIDTH
    ensures Safe(obs, row, col) <==>
      forall i :: 0 <= i < |obs| ==> !Threatens(obs[i], row, col) && (row > 0 ==> !Threatens(obs[i], row - 1, col))
  {
    DangerPositive(obs, row, col);
    DangerPositive(obs, row - 1, col);
  }
}
