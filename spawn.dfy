/** The spawn planner: the catalogue of shapes, the three lanes, the
    proposal of a new obstacle from the random draws, and the buffer rule
    that keeps a new obstacle away from the obstacles near the top. */
module SpawnPlanner {
  import opened Geometry

  /** A lane is a contiguous range of columns of the grid. */
  datatype Lane = Lane(start: int, width: int)

  /** The lanes in the order of their names: left, middle, right. */
  const LANES: seq<Lane> := [Lane(0, 3), Lane(3, 4), Lane(7, 3)]

  /** The shapes of ALL_TETROMINOS, in their order (colours are not modelled). */
  const CATALOGUE: seq<Shape> := [
    [[true]],
    [[true, true]],
    [[true], [true]],
    [[true, true, true, true]],
    [[true, true], [true, true]],
    [[false, true, false], [true, true, true]],
    [[false, true, true], [true, true, false]],
    [[true, true, false], [false, true, true]],
    [[false, false, true], [true, true, true]],
    [[true, false, false], [true, true, true]],
    [[true, true, true]],
    [[true], [true], [true]]
  ]

  /** Radius of the buffer square around each candidate block. */
  const BUFFER_RADIUS: int := 2
  /** Only obstacles with y < 4 * BLOCK_SIZE take part in the buffer check. */
  const BUFFER_BAND: int := 4

  /** The outcome of the three Math.random draws of one spawn attempt,
      each taken modulo the size of the range it picks from. */
  datatype SpawnDraw = SpawnDraw(lane: nat, shape: nat, offset: nat)

  lemma CatalogueRectangular()
    ensures forall s :: s in CATALOGUE ==> Rectangular(s)
  {
  }

  /** The shapes of the catalogue whose first row fits in the given width,
      in catalogue order. */
  function FitWithin(shapes: seq<Shape>, width: int): (r: seq<Shape>)
    requires forall s :: s in shapes ==> |s| > 0
    ensures forall s :: s in r <==> s in shapes && |s[0]| <= width
    ensures |r| <= |shapes|
  {
    if shapes == [] then []
    else (if |shapes[0][0]| <= width then [shapes[0]] else []) + FitWithin(shapes[1..], width)
  }

  function Allowed(width: int): (r: seq<Shape>)
    ensures forall s :: s in r <==> s in CATALOGUE && |s[0]| <= width
  {
    FitWithin(CATALOGUE, width)
  }

  /** The candidate obstacle of attemptSpawnInLane before the buffer check:
      a lane, a shape whose first row fits the lane, and an offset that keeps
      the shape in the lane; its bottom row is the row just above the grid. */
  function Propose(draw: SpawnDraw): (r: Option<Obstacle>)
    ensures r.Some? ==> r.value.lane < |LANES|
    ensures r.Some? && r.value.lane < |LANES| ==>
      var lane := LANES[r.value.lane];
      && r.value.shape in CATALOGUE
      && |r.value.shape[0]| <= lane.width
      && lane.start <= r.value.col
      && r.value.col + |r.value.shape[0]| <= lane.start + lane.width
      && r.value.row + |r.value.shape| - 1 == -1
      && (forall x, y :: Covers(r.value, x, y) ==> lane.start <= x < lane.start + lane.width && y < 0)
    ensures r.None? <==> Allowed(LANES[draw.lane % |LANES|].width) == []
  {
    var li := draw.lane % |LANES|;
    var lane := LANES[li];
    var allowed := Allowed(lane.width);
    if |allowed| == 0 then None
    else
      var shape := allowed[draw.shape % |allowed|];
      assert shape in CATALOGUE;
      CatalogueRectangular();
      var offset := draw.offset % (lane.width - |shape[0]| + 1);
      Some(Obstacle(shape, lane.start + offset, -|shape|, li))
  }

  /** Cell (x, y) lies within Chebyshev distance BUFFER_RADIUS of a block of cand. */
  ghost predicate InBuffer(cand: Obstacle, x: int, y: int)
  {
    exists cx, cy :: Covers(cand, cx, cy) && -BUFFER_RADIUS <= x - cx <= BUFFER_RADIUS && -BUFFER_RADIUS <= y - cy <= BUFFER_RADIUS
  }

  /** Some obstacle near the top has a block inside the buffer of cand. */
  ghost predicate Blocked(cand: Obstacle, existing: seq<Obstacle>)
  {
    exists i, x, y :: 0 <= i < |existing| && existing[i].row < BUFFER_BAND && Covers(existing[i], x, y) && InBuffer(cand, x, y)
  }

  ghost predicate CanSpawn(cand: Obstacle, existing: seq<Obstacle>)
  {
    !Blocked(cand, existing)
  }

  /** Adds the (2r+1) x (2r+1) square of cells around a base cell. */
  method AddSquare(buffer: set<Cell>, baseCol: int, baseRow: int) returns (result: set<Cell>)
    ensures forall cell :: cell in result <==>
      cell in buffer || (-BUFFER_RADIUS <= cell.col - baseCol <= BUFFER_RADIUS && -BUFFER_RADIUS <= cell.row - baseRow <= BUFFER_RADIUS)
  {
    result := buffer;
    var dr := -BUFFER_RADIUS;
    while dr <= BUFFER_RADIUS
      invariant -BUFFER_RADIUS <= dr <= BUFFER_RADIUS + 1
      invariant forall cell :: cell in result <==>
        cell in buffer || (-BUFFER_RADIUS <= cell.col - baseCol <= BUFFER_RADIUS && -BUFFER_RADIUS <= cell.row - baseRow < dr)
    {
      var dc := -BUFFER_RADIUS;
      while dc <= BUFFER_RADIUS
        invariant -BUFFER_RADIUS <= dc <= BUFFER_RADIUS + 1
        invariant forall cell :: cell in result <==>
          cell in buffer || (-BUFFER_RADIUS <= cell.col - baseCol <= BUFFER_RADIUS && -BUFFER_RADIUS <= cell.row - baseRow < dr)
          || (cell.row - baseRow == dr && -BUFFER_RADIUS <= cell.col - baseCol < dc)
      {
        result := result + {Cell(baseCol + dc, baseRow + dr)};
        dc := dc + 1;
      }
      dr := dr + 1;
    }
  }

  /** Blocks of cand in rows before r, or in row r before column c. */
  predicate CoveredBefore(cand: Obstacle, r: int, c: int, x: int, y: int)
  {
    Covers(cand, x, y) && (y - cand.row < r || (y - cand.row == r && x - cand.col < c))
  }

  ghost predicate InBufferBefore(cand: Obstacle, r: int, c: int, x: int, y: int)
  {
    exists cx, cy :: CoveredBefore(cand, r, c, cx, cy) && -BUFFER_RADIUS <= x - cx <= BUFFER_RADIUS && -BUFFER_RADIUS <= y - cy <= BUFFER_RADIUS
  }

  /** The candidate's buffer: every cell within distance BUFFER_RADIUS of one
      of its blocks. */
  method CandidateBuffer(cand: Obstacle) returns (buffer: set<Cell>)
    ensures forall cell :: cell in buffer <==> InBuffer(cand, cell.col, cell.row)
  {
    buffer := {};
    var r := 0;
    while r < |cand.shape|
      invariant 0 <= r <= |cand.shape|
      invariant forall cell :: cell in buffer <==> InBufferBefore(cand, r, 0, cell.col, cell.row)
    {
      var c := 0;
      while c < |cand.shape[r]|
        invariant 0 <= c <= |cand.shape[r]|
        invariant forall cell :: cell in buffer <==> InBufferBefore(cand, r, c, cell.col, cell.row)
      {
        if cand.shape[r][c] {
          var baseCol, baseRow := cand.col + c, cand.row + r;
          ghost var prev := buffer;
          buffer := AddSquare(buffer, baseCol, baseRow);
          forall cell: Cell | InBufferBefore(cand, r, c + 1, cell.col, cell.row)
            ensures cell in buffer
          {
            var cx, cy :| CoveredBefore(cand, r, c + 1, cx, cy) && -BUFFER_RADIUS <= cell.col - cx <= BUFFER_RADIUS && -BUFFER_RADIUS <= cell.row - cy <= BUFFER_RADIUS;
            if !CoveredBefore(cand, r, c, cx, cy) {
              assert cx == baseCol && cy == baseRow;
            }
          }
          forall cell: Cell | cell in buffer
            ensures InBufferBefore(cand, r, c + 1, cell.col, cell.row)
          {
            if cell in prev {
              var cx, cy :| CoveredBefore(cand, r, c, cx, cy) && -BUFFER_RADIUS <= cell.col - cx <= BUFFER_RADIUS && -BUFFER_RADIUS <= cell.row - cy <= BUFFER_RADIUS;
              assert CoveredBefore(cand, r, c + 1, cx, cy);
            } else {
              assert CoveredBefore(cand, r, c + 1, baseCol, baseRow);
            }
          }
        } else {
          forall cell: Cell | InBufferBefore(cand, r, c + 1, cell.col, cell.row)
            ensures InBufferBefore(cand, r, c, cell.col, cell.row)
          {
            var cx, cy :| CoveredBefore(cand, r, c + 1, cx, cy) && -BUFFER_RADIUS <= cell.col - cx <= BUFFER_RADIUS && -BUFFER_RADIUS <= cell.row - cy <= BUFFER_RADIUS;
            assert CoveredBefore(cand, r, c, cx, cy);
          }
          forall cell: Cell | InBufferBefore(cand, r, c, cell.col, cell.row)
            ensures InBufferBefore(cand, r, c + 1, cell.col, cell.row)
          {
            var cx, cy :| CoveredBefore(cand, r, c, cx, cy) && -BUFFER_RADIUS <= cell.col - cx <= BUFFER_RADIUS && -BUFFER_RADIUS <= cell.row - cy <= BUFFER_RADIUS;
            assert CoveredBefore(cand, r, c + 1, cx, cy);
          }
        }
        c := c + 1;
      }
      forall cell: Cell | InBufferBefore(cand, r + 1, 0, cell.col, cell.row)
        ensures InBufferBefore(cand, r, |cand.shape[r]|, cell.col, cell.row)
      {
        var cx, cy :| CoveredBefore(cand, r + 1, 0, cx, cy) && -BUFFER_RADIUS <= cell.col - cx <= BUFFER_RADIUS && -BUFFER_RADIUS <= cell.row - cy <= BUFFER_RADIUS;
        assert CoveredBefore(cand, r, |cand.shape[r]|, cx, cy);
      }
      forall cell: Cell | InBufferBefore(cand, r, |cand.shape[r]|, cell.col, cell.row)
        ensures InBufferBefore(cand, r + 1, 0, cell.col, cell.row)
      {
        var cx, cy :| CoveredBefore(cand, r, |cand.shape[r]|, cx, cy) && -BUFFER_RADIUS <= cell.col - cx <= BUFFER_RADIUS && -BUFFER_RADIUS <= cell.row - cy <= BUFFER_RADIUS;
        assert CoveredBefore(cand, r + 1, 0, cx, cy);
      }
      r := r + 1;
    }
    forall cell: Cell | InBuffer(cand, cell.col, cell.row)
      ensures InBufferBefore(cand, |cand.shape|, 0, cell.col, cell.row)
    {
      var cx, cy :| Covers(cand, cx, cy) && -BUFFER_RADIUS <= cell.col - cx <= BUFFER_RADIUS && -BUFFER_RADIUS <= cell.row - cy <= BUFFER_RADIUS;
      assert CoveredBefore(cand, |cand.shape|, 0, cx, cy);
    }
  }

  /** canSpawnWithBuffer: false exactly when an existing obstacle above row
      BUFFER_BAND has a block inside the candidate's buffer. */
  method CanSpawnWithBuffer(cand: Obstacle, existing: seq<Obstacle>) returns (ok: bool)
    ensures ok == CanSpawn(cand, existing)
  {
    var buffer := CandidateBuffer(cand);
    var i := 0;
    while i < |existing|
      invariant 0 <= i <= |existing|
      invariant forall j, x, y :: 0 <= j < i && existing[j].row < BUFFER_BAND && Covers(existing[j], x, y) ==> !InBuffer(cand, x, y)
    {
      if existing[i].row < BUFFER_BAND {
        var cells := GetOccupiedCells(existing[i]);
        var rest := cells;
        while rest != {}
          invariant rest <= cells
          invariant forall cell :: cell in cells - rest ==> cell !in buffer
          decreases |rest|
        {
          var cell :| cell in rest;
          if cell in buffer {
            assert Covers(existing[i], cell.col, cell.row);
            return false;
          }
          rest := rest - {cell};
        }
        assert forall x, y :: Covers(existing[i], x, y) ==> Cell(x, y) in cells;
      }
      i := i + 1;
    }
    return true;
  }

  /** The outcome of attemptSpawnInLane for a player's obstacles and a draw. */
  ghost function SpawnOutcome(existing: seq<Obstacle>, draw: SpawnDraw): Option<Obstacle>
  {
    var cand := Propose(draw);
    if cand.Some? && CanSpawn(cand.value, existing) then cand else None
  }

  /** attemptSpawnInLane with its random choices supplied as a draw. */
  method AttemptSpawnInLane(existing: seq<Obstacle>, draw: SpawnDraw) returns (r: Option<Obstacle>)
    ensures r == SpawnOutcome(existing, draw)
    ensures r.Some? ==>
      var lane := LANES[r.value.lane];
      && r.value.lane < |LANES|
      && |r.value.shape[0]| <= lane.width
      && (forall x, y :: Covers(r.value, x, y) ==> lane.start <= x < lane.start + lane.width && y < 0)
      && r.value.row + |r.value.shape| == 0
      && CanSpawn(r.value, existing)
  {
    var cand := Propose(draw);
    if cand.None? {
      return None;
    }
    var ok := CanSpawnWithBuffer(cand.value, existing);
    if ok {
      return cand;
    }
    return None;
  }

  /** With no obstacle in the top band, every candidate is accepted. */
  lemma NothingNearTopAccepts(cand: Obstacle, existing: seq<Obstacle>)
    requires forall i :: 0 <= i < |existing| ==> existing[i].row >= BUFFER_BAND
    ensures CanSpawn(cand, existing)
  {
  }

  function ShiftCols(t: Obstacle, k: int): Obstacle
  {
    t.(col := t.col + k)
  }

  function ShiftAll(ts: seq<Obstacle>, k: int): (r: seq<Obstacle>)
    ensures |r| == |ts| && forall i :: 0 <= i < |ts| ==> r[i] == ShiftCols(ts[i], k)
  {
    seq(|ts|, i requires 0 <= i < |ts| => ShiftCols(ts[i], k))
  }

  lemma ShiftCovers(t: Obstacle, k: int, x: int, y: int)
    ensures Covers(ShiftCols(t, k), x + k, y) == Covers(t, x, y)
  {
  }

  lemma ShiftBufferOneWay(cand: Obstacle, existing: seq<Obstacle>, k: int)
    requires Blocked(cand, existing)
    ensures Blocked(ShiftCols(cand, k), ShiftAll(existing, k))
  {
    var i, x, y :| 0 <= i < |existing| && existing[i].row < BUFFER_BAND && Covers(existing[i], x, y) && InBuffer(cand, x, y);
    var cx, cy :| Covers(cand, cx, cy) && -BUFFER_RADIUS <= x - cx <= BUFFER_RADIUS && -BUFFER_RADIUS <= y - cy <= BUFFER_RADIUS;
    ShiftCovers(cand, k, cx, cy);
    ShiftCovers(existing[i], k, x, y);
    var shifted := ShiftAll(existing, k);
    assert Covers(shifted[i], x + k, y);
    assert InBuffer(ShiftCols(cand, k), x + k, y);
  }

  /** The buffer rule depends only on relative positions: shifting the
      candidate and every existing obstacle by the same number of columns
      does not change the verdict. */
  lemma ShiftInvariance(cand: Obstacle, existing: seq<Obstacle>, k: int)
    ensures CanSpawn(ShiftCols(cand, k), ShiftAll(existing, k)) == CanSpawn(cand, existing)
  {
    if Blocked(cand, existing) {
      ShiftBufferOneWay(cand, existing, k);
    }
    if Blocked(ShiftCols(cand, k), ShiftAll(existing, k)) {
      ShiftBufferOneWay(ShiftCols(cand, k), ShiftAll(existing, k), -k);
      assert ShiftCols(ShiftCols(cand, k), -k) == cand;
      assert ShiftAll(ShiftAll(existing, k), -k) == existing;
    }
  }

  /** A candidate is rejected exactly when an obstacle in the top band has a
      block within Chebyshev distance BUFFER_RADIUS of one of its blocks. */
  lemma RejectWitness(cand: Obstacle, existing: seq<Obstacle>, i: int, x: int, y: int, cx: int, cy: int)
    requires 0 <= i < |existing| && existing[i].row < BUFFER_BAND
    requires Covers(existing[i], x, y) && Covers(cand, cx, cy)
    requires -BUFFER_RADIUS <= x - cx <= BUFFER_RADIUS && -BUFFER_RADIUS <= y - cy <= BUFFER_RADIUS
    ensures !CanSpawn(cand, existing)
  {
    assert InBuffer(cand, x, y);
  }
}
