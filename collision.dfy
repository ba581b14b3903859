/** The collision detector: a player is hit when a block of one of its
    obstacles is in the player's column, on the player's row or on the row
    directly above it. */
module Collision {
  import opened Geometry

  /** Some obstacle has a block at (col, row) or at (col, row - 1). */
  ghost predicate HitsPlayer(obs: seq<Obstacle>, col: int, row: int)
  {
    exists i :: 0 <= i < |obs| && (Covers(obs[i], col, row) || Covers(obs[i], col, row - 1))
  }

  /** checkCollision over the player's obstacles, stopping at the first hit. */
  method CheckCollision(obs: seq<Obstacle>, col: int, row: int) returns (hit: bool)
    ensures hit <==> HitsPlayer(obs, col, row)
  {
    var i := 0;
    while i < |obs|
      invariant 0 <= i <= |obs|
      invariant forall j :: 0 <= j < i ==> !Covers(obs[j], col, row) && !Covers(obs[j], col, row - 1)
    {
      var t := obs[i];
      var r := 0;
      while r < |t.shape|
        invariant 0 <= r <= |t.shape|
        invariant forall y :: (y == row || y == row - 1) && y - t.row < r ==> !Covers(t, col, y)
      {
        var c := 0;
        while c < |t.shape[r]|
          invariant 0 <= c <= |t.shape[r]|
          invariant forall y :: (y == row || y == row - 1) && y - t.row < r ==> !Covers(t, col, y)
          invariant (t.row + r == row || t.row + r == row - 1) ==> forall k :: 0 <= k < c && t.col + k == col ==> !t.shape[r][k]
        {
          if t.shape[r][c] {
            if t.col + c == col && (t.row + r == row || t.row + r == row - 1) {
              assert Covers(t, col, t.row + r);
              return true;
            }
          }
          c := c + 1;
        }
        r := r + 1;
      }
      i := i + 1;
    }
    return false;
  }

  lemma NoObstaclesNoHit(col: int, row: int)
    ensures !HitsPlayer([], col, row)
  {
  }

  /** Dropping obstacles whose top row is at or below PRUNE_ROW never removes a
      hit on a player standing above that row. */
  lemma {:induction false} PruneKeepsHits(obs: seq<Obstacle>, kept: seq<Obstacle>, col: int, row: int)
    requires row < PRUNE_ROW
    requires forall t :: t in kept ==> t in obs
    requires forall t :: t in obs && t.row < PRUNE_ROW ==> t in kept
    ensures HitsPlayer(kept, col, row) == HitsPlayer(obs, col, row)
  {
    if HitsPlayer(obs, col, row) {
      var i :| 0 <= i < |obs| && (Covers(obs[i], col, row) || Covers(obs[i], col, row - 1));
      assert obs[i] in kept;
      var j :| 0 <= j < |kept| && kept[j] == obs[i];
    }
    if HitsPlayer(kept, col, row) {
      var j :| 0 <= j < |kept| && (Covers(kept[j], col, row) || Covers(kept[j], col, row - 1));
      assert kept[j] in obs;
      var i :| 0 <= i < |obs| && obs[i] == kept[j];
    }
  }
}
