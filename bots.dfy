/** The bot strategy engine: four ways of choosing a target column on the
    player's row from the danger field, and the path the bot shows towards it.
    Columns are cells; the path is the list of columns on the player's row. */
module BotStrategies {
  import opened Geometry
  import opened DangerField

  /** A bot decision: the target column and the columns of the path to it. */
  datatype Plan = Plan(target: int, path: seq<int>)

  const CENTER: int := GRID_WIDTH / 2

  function Dist(a: int, b: int): nat
  {
    if a >= b then a - b else b - a
  }

  /** The position of column c in the order a breadth-first search from p
      reaches the columns: p, p - 1, p + 1, p - 2, p + 2, ... */
  function Rank(p: int, c: int): nat
  {
    if c < p then 2 * (p - c) - 1 else 2 * (c - p)
  }

  /** Column c comes strictly before column t when searching outward from p:
      it is nearer, or as near and further left. */
  predicate Before(p: int, c: int, t: int)
  {
    Dist(c, p) < Dist(t, p) || (Dist(c, p) == Dist(t, p) && c < t)
  }

  lemma RankIsSearchOrder(p: int, c: int, t: int)
    ensures Rank(p, c) < Rank(p, t) <==> Before(p, c, t)
  {
  }

  /** The columns from p to c inclusive, one step at a time. */
  function Straight(p: int, c: int): (s: seq<int>)
    decreases Dist(p, c)
    ensures |s| == Dist(p, c) + 1
    ensures forall i :: 0 <= i < |s| ==> s[i] == if c >= p then p + i else p - i
  {
    if c == p then [p]
    else if c > p then Straight(p, c - 1) + [c]
    else Straight(p, c + 1) + [c]
  }

  /** A straight path one column longer than another. */
  lemma StraightStep(p: int, c: int)
    ensures c > p ==> Straight(p, c) == Straight(p, c - 1) + [c]
    ensures c < p ==> Straight(p, c) == Straight(p, c + 1) + [c]
  {
  }

  /** A straight path starts at p, ends at c and moves one column per step. */
  lemma StraightIsAdjacentWalk(p: int, c: int)
    ensures var s := Straight(p, c);
      s[0] == p && s[|s| - 1] == c && forall i :: 0 <= i < |s| - 1 ==> Dist(s[i], s[i + 1]) == 1
  {
  }

  ghost predicate SomeSafe(obs: seq<Obstacle>, row: int)
  {
    exists c :: 0 <= c < GRID_WIDTH && Safe(obs, row, c)
  }

  /** Strategy 1: the safe column nearest to p (ties to the left) and the
      straight path to it; without a safe column, stay on p. */
  ghost predicate NearestSafePlan(obs: seq<Obstacle>, row: int, p: int, plan: Plan)
  {
    if SomeSafe(obs, row) then
      && 0 <= plan.target < GRID_WIDTH
      && Safe(obs, row, plan.target)
      && plan.path == Straight(p, plan.target)
      && forall c :: 0 <= c < GRID_WIDTH && Before(p, c, plan.target) ==> !Safe(obs, row, c)
    else
      plan == Plan(p, [p])
  }

  /** A search queue entry: a column and the path that reached it. */
  datatype Entry = Entry(col: int, path: seq<int>)

  /** Column c waits in the queue (which never holds more than two entries). */
  predicate Pending(queue: seq<Entry>, c: int)
  {
    (|queue| > 0 && queue[0].col == c) || (|queue| > 1 && queue[1].col == c)
  }

  /** A queue entry for one end of the visited interval, with its path. */
  predicate EndEntry(e: Entry, lo: int, hi: int, p: int)
  {
    (e.col == lo || e.col == hi) && e.path == Straight(p, e.col)
  }

  /** The shape of the breadth-first search state on a line of columns:
      the visited columns are the interval [lo, hi] around p, the queue holds
      at most its two ends in search order with their straight paths, and an
      end that can still grow is waiting in the queue. */
  ghost predicate SearchFront(queue: seq<Entry>, visited: set<int>, lo: int, hi: int, p: int)
  {
    && 0 <= lo <= p <= hi < GRID_WIDTH
    && (forall c :: c in visited <==> lo <= c <= hi)
    && |queue| <= 2
    && (|queue| > 0 ==> EndEntry(queue[0], lo, hi, p))
    && (|queue| > 1 ==> EndEntry(queue[1], lo, hi, p))
    && (|queue| == 2 ==> Rank(p, queue[1].col) == Rank(p, queue[0].col) + 1)
    && (Pending(queue, p) ==> lo == p && hi == p)
    && (lo > 0 ==> Pending(queue, lo))
    && (hi < GRID_WIDTH - 1 ==> Pending(queue, hi))
  }

  lemma PendingAppend(q: seq<Entry>, e: Entry)
    requires |q| <= 1
    ensures forall c :: Pending(q + [e], c) <==> Pending(q, c) || e.col == c
  {
  }

  /** One search step: shift the head off the queue and push its unvisited
      neighbours, left (-1) first, then right (+1), each with its path. */
  method Advance(queue: seq<Entry>, visited: set<int>, ghost lo: int, ghost hi: int, ghost p: int)
    returns (queue': seq<Entry>, visited': set<int>, ghost lo': int, ghost hi': int)
    requires SearchFront(queue, visited, lo, hi, p) && |queue| > 0
    ensures SearchFront(queue', visited', lo', hi', p)
    ensures lo' <= lo && hi <= hi'
    ensures 2 * (hi' - lo') - |queue'| > 2 * (hi - lo) - |queue|
    ensures forall c :: Pending(queue', c) <==>
      (Pending(queue, c) && c != queue[0].col) || lo' <= c < lo || hi < c <= hi'
  {
    var currentCol, path := queue[0].col, queue[0].path;
    queue' := queue[1..];
    visited' := visited;
    var nextCol := currentCol - 1;
    if nextCol >= 0 && nextCol < GRID_WIDTH && nextCol !in visited' {
      visited' := visited' + {nextCol};
      queue' := queue' + [Entry(nextCol, path + [nextCol])];
    }
    nextCol := currentCol + 1;
    if nextCol >= 0 && nextCol < GRID_WIDTH && nextCol !in visited' {
      visited' := visited' + {nextCol};
      queue' := queue' + [Entry(nextCol, path + [nextCol])];
    }
    lo' := if currentCol == lo && lo > 0 then lo - 1 else lo;
    hi' := if currentCol == hi && hi < GRID_WIDTH - 1 then hi + 1 else hi;
    assert queue' == Grown(queue, lo, hi) && visited' == visited + GrownCols(queue[0].col, lo, hi);
    GrownFront(queue, visited, lo, hi, p);
    assert GrowsWell(queue, visited, lo, hi, p);
  }

  /** The columns a search step adds at the ends of [lo, hi] when it takes
      column cur off the queue. */
  function GrownCols(cur: int, lo: int, hi: int): set<int>
  {
    (if cur == lo && lo > 0 then {lo - 1} else {}) + (if cur == hi && hi < GRID_WIDTH - 1 then {hi + 1} else {})
  }

  /** The queue after a search step, in closed form. */
  function Grown(queue: seq<Entry>, lo: int, hi: int): seq<Entry>
    requires |queue| > 0
  {
    var cur, path := queue[0].col, queue[0].path;
    queue[1..]
    + (if cur == lo && lo > 0 then [Entry(lo - 1, path + [lo - 1])] else [])
    + (if cur == hi && hi < GRID_WIDTH - 1 then [Entry(hi + 1, path + [hi + 1])] else [])
  }

  /** The search state after a step from (queue, visited, lo, hi) has the
      search shape, a larger measure, and pends exactly the columns the old
      queue still pended plus the new ends. */
  ghost predicate GrowsWell(queue: seq<Entry>, visited: set<int>, lo: int, hi: int, p: int)
    requires |queue| > 0
  {
    var cur := queue[0].col;
    var lo', hi' := (if cur == lo && lo > 0 then lo - 1 else lo), (if cur == hi && hi < GRID_WIDTH - 1 then hi + 1 else hi);
    var queue' := Grown(queue, lo, hi);
    && SearchFront(queue', visited + GrownCols(cur, lo, hi), lo', hi', p)
    && 2 * (hi' - lo') - |queue'| > 2 * (hi - lo) - |queue|
    && forall c :: Pending(queue', c) <==> (Pending(queue, c) && c != cur) || lo' <= c < lo || hi < c <= hi'
  }

  /** A search step keeps the shape of the search state and widens it. */
  lemma GrownFront(queue: seq<Entry>, visited: set<int>, lo: int, hi: int, p: int)
    requires SearchFront(queue, visited, lo, hi, p) && |queue| > 0
    ensures GrowsWell(queue, visited, lo, hi, p)
  {
    var cur := queue[0].col;
    if cur == p {
      GrownFromStart(queue, visited, lo, hi, p);
    } else if cur == lo {
      GrownAtLeft(queue, visited, lo, hi, p);
    } else {
      GrownAtRight(queue, visited, lo, hi, p);
    }
  }

  /** The first step, from the player's column alone. */
  lemma GrownFromStart(queue: seq<Entry>, visited: set<int>, lo: int, hi: int, p: int)
    requires SearchFront(queue, visited, lo, hi, p) && |queue| > 0 && queue[0].col == p
    ensures GrowsWell(queue, visited, lo, hi, p)
  {
    assert lo == p == hi;
    assert |queue| == 1;
    assert queue[1..] == [];
    StraightStep(p, p + 1);
    StraightStep(p, p - 1);
  }

  /** A step from the left end of the interval, left of the player. */
  lemma GrownAtLeft(queue: seq<Entry>, visited: set<int>, lo: int, hi: int, p: int)
    requires SearchFront(queue, visited, lo, hi, p) && |queue| > 0 && queue[0].col == lo < p
    ensures GrowsWell(queue, visited, lo, hi, p)
  {
    var lo' := if lo > 0 then lo - 1 else lo;
    var queue', visited' := Grown(queue, lo, hi), visited + GrownCols(lo, lo, hi);
    assert |queue| == 2 ==> queue[1].col == hi;
    assert forall c :: c in visited' <==> lo' <= c <= hi;
    if lo > 0 {
      StraightStep(p, lo - 1);
      assert queue' == queue[1..] + [Entry(lo - 1, Straight(p, lo - 1))];
      PendingAppend(queue[1..], Entry(lo - 1, Straight(p, lo - 1)));
    } else {
      assert queue' == queue[1..];
    }
    assert SearchFront(queue', visited', lo', hi, p);
  }

  /** A step from the right end of the interval, right of the player. */
  lemma GrownAtRight(queue: seq<Entry>, visited: set<int>, lo: int, hi: int, p: int)
    requires SearchFront(queue, visited, lo, hi, p) && |queue| > 0 && queue[0].col == hi > p
    ensures GrowsWell(queue, visited, lo, hi, p)
  {
    var hi' := if hi < GRID_WIDTH - 1 then hi + 1 else hi;
    var queue', visited' := Grown(queue, lo, hi), visited + GrownCols(hi, lo, hi);
    assert |queue| == 2 ==> queue[1].col == lo;
    assert forall c :: c in visited' <==> lo <= c <= hi';
    if hi < GRID_WIDTH - 1 {
      StraightStep(p, hi + 1);
      assert queue' == queue[1..] + [Entry(hi + 1, Straight(p, hi + 1))];
      PendingAppend(queue[1..], Entry(hi + 1, Straight(p, hi + 1)));
    } else {
      assert queue' == queue[1..];
    }
    assert SearchFront(queue', visited', lo, hi', p);
  }

  /** The combined danger of column col on row `row` and the row above,
      read off a danger grid built for obs. */
  method CombinedAt(g: array2<int>, ghost obs: seq<Obstacle>, row: int, col: int) returns (danger: int)
    requires 0 <= row < GRID_HEIGHT && 0 <= col < GRID_WIDTH
    requires g.Length0 == GRID_HEIGHT && g.Length1 == GRID_WIDTH
    requires forall y, x :: 0 <= y < GRID_HEIGHT && 0 <= x < GRID_WIDTH ==> g[y, x] == DangerAt(obs, y, x)
    ensures danger == Combined(obs, row, col)
  {
    danger := g[row, col] + (if row > 0 then g[row - 1, col] else 0);
  }

  /** Whether column col is safe on row `row`, read off a danger grid built
      for obs. */
  method SafeAt(g: array2<int>, ghost obs: seq<Obstacle>, row: int, col: int) returns (isSafe: bool)
    requires 0 <= row < GRID_HEIGHT && 0 <= col < GRID_WIDTH
    requires g.Length0 == GRID_HEIGHT && g.Length1 == GRID_WIDTH
    requires forall y, x :: 0 <= y < GRID_HEIGHT && 0 <= x < GRID_WIDTH ==> g[y, x] == DangerAt(obs, y, x)
    ensures isSafe <==> Safe(obs, row, col)
  {
    isSafe := g[row, col] == 0 && (if row > 0 then g[row - 1, col] == 0 else true);
  }

  /** findBestPath_BFS: breadth-first search from the player's column for the
      first column that is safe on the player's row. */
  method FindBestPathBfs(obs: seq<Obstacle>, row: int, p: int) returns (plan: Plan)
    requires 0 <= row < GRID_HEIGHT && 0 <= p < GRID_WIDTH
    ensures NearestSafePlan(obs, row, p, plan)
  {
    var g := BuildDangerGrid(obs);
    var queue := [Entry(p, [p])];
    var visited := {p};
    ghost var lo, hi := p, p;
    while |queue| > 0
      invariant SearchFront(queue, visited, lo, hi, p)
      invariant forall c :: lo <= c <= hi && !Pending(queue, c) ==> !Safe(obs, row, c)
      invariant forall y, x :: 0 <= y < GRID_HEIGHT && 0 <= x < GRID_WIDTH ==> g[y, x] == DangerAt(obs, y, x)
      decreases 2 * (GRID_WIDTH - (hi - lo)) + |queue|
    {
      var currentCol, path := queue[0].col, queue[0].path;
      var isSafe := SafeAt(g, obs, row, currentCol);
      if isSafe {
        forall c | 0 <= c < GRID_WIDTH && Before(p, c, currentCol)
          ensures !Safe(obs, row, c)
        {
          RankIsSearchOrder(p, c, currentCol);
          assert lo <= c <= hi && !Pending(queue, c);
        }
        return Plan(currentCol, path);
      }
      queue, visited, lo, hi := Advance(queue, visited, lo, hi, p);
    }
    return Plan(p, [p]);
  }

  /** findBestPath_BFS_to_Target: breadth-first search from the player's
      column to a given column; an in-range target is always reached along
      the straight path, an out-of-range one leaves the bot in place. */
  method FindBestPathBfsToTarget(row: int, p: int, targetCol: int) returns (plan: Plan)
    requires 0 <= row < GRID_HEIGHT && 0 <= p < GRID_WIDTH
    ensures 0 <= targetCol < GRID_WIDTH ==> plan == Plan(targetCol, Straight(p, targetCol))
    ensures !(0 <= targetCol < GRID_WIDTH) ==> plan == Plan(p, [p])
  {
    var queue := [Entry(p, [p])];
    var visited := {p};
    ghost var lo, hi := p, p;
    while |queue| > 0
      invariant SearchFront(queue, visited, lo, hi, p)
      invariant lo <= targetCol <= hi ==> Pending(queue, targetCol)
      decreases 2 * (GRID_WIDTH - (hi - lo)) + |queue|
    {
      var currentCol, path := queue[0].col, queue[0].path;
      if currentCol == targetCol {
        return Plan(targetCol, path);
      }
      queue, visited, lo, hi := Advance(queue, visited, lo, hi, p);
    }
    return Plan(p, [p]);
  }

  /** Strategy 2: among the player's column and its in-grid neighbours, the
      one with the least combined danger; ties go to the earlier option in
      the order stay, left, right. */
  ghost predicate GreedyPlan(obs: seq<Obstacle>, row: int, p: int, plan: Plan)
  {
    && 0 <= plan.target < GRID_WIDTH
    && Dist(plan.target, p) <= 1
    && plan.path == Straight(p, plan.target)
    && forall c :: 0 <= c < GRID_WIDTH && Dist(c, p) <= 1 ==>
         Combined(obs, row, plan.target) <= Combined(obs, row, c)
         && (Before(p, c, plan.target) ==> Combined(obs, row, plan.target) < Combined(obs, row, c))
  }

  /** The greedy options: the player's column, then the left and the right
      neighbour, those outside the grid filtered out. */
  function GreedyOptions(p: int): (options: seq<int>)
    requires 0 <= p < GRID_WIDTH
    ensures forall c :: c in options <==> 0 <= c < GRID_WIDTH && Dist(c, p) <= 1
    ensures forall i, j :: 0 <= i < j < |options| ==> Before(p, options[i], options[j])
    ensures |options| > 0 && options[0] == p
  {
    [p] + (if p - 1 >= 0 then [p - 1] else []) + (if p + 1 < GRID_WIDTH then [p + 1] else [])
  }

  /** findBestPath_Greedy: one pass over the options keeping the first one
      of strictly least danger. */
  method FindBestPathGreedy(obs: seq<Obstacle>, row: int, p: int) returns (plan: Plan)
    requires 0 <= row < GRID_HEIGHT && 0 <= p < GRID_WIDTH
    ensures GreedyPlan(obs, row, p, plan)
  {
    var options := GreedyOptions(p);
    var dangers := OptionDangers(obs, row, options);
    var bestCol := p;
    var minDanger := 0;
    var seen := false;  // minDanger is still "Infinity"
    for k := 0 to |options|
      invariant seen <==> k > 0
      invariant !seen ==> bestCol == p
      invariant seen ==> bestCol in options[..k] && minDanger == Combined(obs, row, bestCol)
      invariant forall i :: 0 <= i < k ==>
        minDanger <= Combined(obs, row, options[i]) &&
        (Before(p, options[i], bestCol) ==> minDanger < Combined(obs, row, options[i]))
    {
      var col, danger := options[k], dangers[k];
      if !seen || danger < minDanger {
        minDanger := danger;
        bestCol := col;
        seen := true;
      }
    }
    var path := if bestCol == p then [p] else [p, bestCol];
    plan := Plan(bestCol, path);
  }

  /** The combined danger of each option, read off the danger grid. */
  method OptionDangers(obs: seq<Obstacle>, row: int, options: seq<int>) returns (dangers: seq<nat>)
    requires 0 <= row < GRID_HEIGHT
    requires forall i :: 0 <= i < |options| ==> 0 <= options[i] < GRID_WIDTH
    ensures |dangers| == |options|
    ensures forall i :: 0 <= i < |options| ==> dangers[i] == Combined(obs, row, options[i])
  {
    var g := BuildDangerGrid(obs);
    dangers := [];
    for k := 0 to |options|
      invariant forall y, x :: 0 <= y < GRID_HEIGHT && 0 <= x < GRID_WIDTH ==> g[y, x] == DangerAt(obs, y, x)
      invariant |dangers| == k
      invariant forall i :: 0 <= i < k ==> dangers[i] == Combined(obs, row, options[i])
    {
      var col := options[k];
      var danger := CombinedAt(g, obs, row, col);
      dangers := dangers + [danger];
    }
  }

  /** The combined danger of every column of row `row`: the weights of the
      center hugger's search. */
  function RowDanger(obs: seq<Obstacle>, row: int): (dg: seq<nat>)
    ensures |dg| == GRID_WIDTH
    ensures forall c :: 0 <= c < GRID_WIDTH ==> dg[c] == Combined(obs, row, c)
    ensures forall c :: 0 <= c < GRID_WIDTH ==> (dg[c] == 0 <==> Safe(obs, row, c))
  {
    seq(GRID_WIDTH, c => Combined(obs, row, c))
  }

  /** The cost of stepping onto column v, 1 + 10 * danger + 0.2 * |v - center|,
      scaled by 5 so that it is a whole number. */
  function EdgeCost(dg: seq<nat>, v: int): nat
    requires 0 <= v < |dg|
  {
    5 + 50 * dg[v] + Dist(v, CENTER)
  }

  /** The cost of the straight path from p to c: the sum of the costs of the
      columns it steps onto. */
  function PathCost(dg: seq<nat>, p: int, c: int): nat
    requires 0 <= p < |dg| && 0 <= c < |dg|
    decreases Dist(p, c)
  {
    if c == p then 0
    else if c > p then PathCost(dg, p, c - 1) + EdgeCost(dg, c)
    else PathCost(dg, p, c + 1) + EdgeCost(dg, c)
  }

  /** A walk along the player's row: in-grid columns, each one step from the
      one before. */
  predicate IsWalk(w: seq<int>)
  {
    && |w| > 0
    && (forall i :: 0 <= i < |w| ==> 0 <= w[i] < GRID_WIDTH)
    && (forall i :: 0 <= i < |w| - 1 ==> Dist(w[i], w[i + 1]) == 1)
  }

  /** The cost of a walk: the sum of the costs of the columns it steps onto. */
  function WalkCost(dg: seq<nat>, w: seq<int>): nat
    requires forall i :: 0 <= i < |w| ==> 0 <= w[i] < |dg|
  {
    if |w| <= 1 then 0 else WalkCost(dg, w[..|w| - 1]) + EdgeCost(dg, w[|w| - 1])
  }

  /** Moving one more column never makes the straight path cheaper than the
      path to the neighbour plus the step. */
  lemma PathCostStep(dg: seq<nat>, p: int, b: int, c: int)
    requires 0 <= p < |dg| && 0 <= b < |dg| && 0 <= c < |dg| && Dist(b, c) == 1
    ensures PathCost(dg, p, c) <= PathCost(dg, p, b) + EdgeCost(dg, c)
  {
    if Dist(p, b) < Dist(p, c) {
      assert PathCost(dg, p, c) == PathCost(dg, p, b) + EdgeCost(dg, c);
    } else {
      assert PathCost(dg, p, b) == PathCost(dg, p, c) + EdgeCost(dg, b);
    }
  }

  /** The straight path costs no more than any walk with the same ends: the
      costs the weighted search settles are the least walk costs. */
  lemma {:induction false} StraightIsCheapest(dg: seq<nat>, p: int, w: seq<int>)
    requires |dg| == GRID_WIDTH && IsWalk(w) && w[0] == p
    ensures PathCost(dg, p, w[|w| - 1]) <= WalkCost(dg, w)
  {
    if |w| > 1 {
      var w' := w[..|w| - 1];
      assert IsWalk(w') && w'[0] == p;
      StraightIsCheapest(dg, p, w');
      PathCostStep(dg, p, w'[|w'| - 1], w[|w| - 1]);
    }
  }

  lemma StraightIsWalk(p: int, c: int)
    requires 0 <= p < GRID_WIDTH && 0 <= c < GRID_WIDTH
    ensures IsWalk(Straight(p, c))
  {
    StraightIsAdjacentWalk(p, c);
  }

  /** The straight path costs exactly PathCost; with StraightIsWalk and
      StraightIsCheapest, PathCost is the least cost of a walk from p to c. */
  lemma {:induction false} StraightPathCost(dg: seq<nat>, p: int, c: int)
    requires 0 <= p < |dg| && 0 <= c < |dg|
    ensures forall i :: 0 <= i < |Straight(p, c)| ==> 0 <= Straight(p, c)[i] < |dg|
    ensures WalkCost(dg, Straight(p, c)) == PathCost(dg, p, c)
    decreases Dist(p, c)
  {
    var s := Straight(p, c);
    if c != p {
      var b := if c > p then c - 1 else c + 1;
      StraightPathCost(dg, p, b);
      assert s[..|s| - 1] == Straight(p, b);
    }
  }

  /** Strategy 3: the safe column whose straight path from p is cheapest
      (ties to the lowest column), with that path; without a safe column,
      the greedy choice. */
  ghost predicate CheapestSafePlan(obs: seq<Obstacle>, row: int, p: int, plan: Plan)
  {
    var dg := RowDanger(obs, row);
    if SomeSafe(obs, row) then
      && 0 <= p < GRID_WIDTH
      && 0 <= plan.target < GRID_WIDTH
      && Safe(obs, row, plan.target)
      && plan.path == Straight(p, plan.target)
      && forall c :: 0 <= c < GRID_WIDTH && Safe(obs, row, c) ==>
           PathCost(dg, p, plan.target) <= PathCost(dg, p, c)
           && (c < plan.target ==> PathCost(dg, p, plan.target) < PathCost(dg, p, c))
    else
      GreedyPlan(obs, row, p, plan)
  }

  /** The weighted search of findBestPath_CenterHugger: settles the cost and
      the path of every column. On a line the cheapest walk to a column is the
      straight one, so a sweep to the right of p and one to the left settle
      the same costs and paths as the priority queue. */
  method SettleCosts(obs: seq<Obstacle>, row: int, p: int, g: array2<int>)
    returns (costs: array<int>, paths: map<int, seq<int>>)
    requires 0 <= row < GRID_HEIGHT && 0 <= p < GRID_WIDTH
    requires g.Length0 == GRID_HEIGHT && g.Length1 == GRID_WIDTH
    requires forall y, x :: 0 <= y < GRID_HEIGHT && 0 <= x < GRID_WIDTH ==> g[y, x] == DangerAt(obs, y, x)
    ensures costs.Length == GRID_WIDTH
    ensures Settled(costs[..], RowDanger(obs, row), p, 0, GRID_WIDTH - 1)
    ensures PathsSettled(paths, p, 0, GRID_WIDTH - 1)
  {
    costs := new int[GRID_WIDTH];
    paths := map[p := [p]];
    costs[p] := 0;
    paths := SweepRight(obs, row, p, g, costs, paths);
    paths := SweepLeft(obs, row, p, g, costs, paths);
  }

  /** The entries lo .. hi of s hold the straight path costs from p. */
  ghost predicate Settled(s: seq<int>, dg: seq<nat>, p: int, lo: int, hi: int)
  {
    && 0 <= p < |dg| && 0 <= lo && hi < |s| && hi < |dg|
    && forall c :: lo <= c <= hi ==> s[c] == PathCost(dg, p, c)
  }

  /** Settling column v from its right neighbour extends the settled range. */
  lemma SettleLeftward(s: seq<int>, dg: seq<nat>, p: int, v: int, hi: int)
    requires 0 <= v < p <= hi && Settled(s, dg, p, v + 1, hi)
    ensures Settled(s[v := s[v + 1] + EdgeCost(dg, v)], dg, p, v, hi)
  {
  }

  /** Settling column v from its left neighbour extends the settled range. */
  lemma SettleRightward(s: seq<int>, dg: seq<nat>, p: int, lo: int, v: int)
    requires lo <= p < v && v < |s| && v < |dg| && Settled(s, dg, p, lo, v - 1)
    ensures Settled(s[v := s[v - 1] + EdgeCost(dg, v)], dg, p, lo, v)
  {
  }

  /** The paths to columns lo .. hi are the straight ones from p. */
  ghost predicate PathsSettled(m: map<int, seq<int>>, p: int, lo: int, hi: int)
  {
    forall c :: lo <= c <= hi ==> c in m && m[c] == Straight(p, c)
  }

  lemma PathLeftward(m: map<int, seq<int>>, p: int, v: int, hi: int)
    requires v < p <= hi && PathsSettled(m, p, v + 1, hi)
    ensures PathsSettled(m[v := m[v + 1] + [v]], p, v, hi)
  {
    StraightStep(p, v);
  }

  lemma PathRightward(m: map<int, seq<int>>, p: int, lo: int, v: int)
    requires lo <= p < v && PathsSettled(m, p, lo, v - 1)
    ensures PathsSettled(m[v := m[v - 1] + [v]], p, lo, v)
  {
    StraightStep(p, v);
  }

  /** The columns right of p, each settled from its left neighbour. */
  method SweepRight(obs: seq<Obstacle>, row: int, p: int, g: array2<int>, costs: array<int>, paths: map<int, seq<int>>)
    returns (paths': map<int, seq<int>>)
    requires 0 <= row < GRID_HEIGHT && 0 <= p < GRID_WIDTH
    requires g.Length0 == GRID_HEIGHT && g.Length1 == GRID_WIDTH && costs.Length == GRID_WIDTH
    requires forall y, x :: 0 <= y < GRID_HEIGHT && 0 <= x < GRID_WIDTH ==> g[y, x] == DangerAt(obs, y, x)
    requires costs[p] == 0 && p in paths && paths[p] == [p]
    modifies costs
    ensures Settled(costs[..], RowDanger(obs, row), p, p, GRID_WIDTH - 1)
    ensures PathsSettled(paths', p, p, GRID_WIDTH - 1)
  {
    ghost var dg := RowDanger(obs, row);
    paths' := paths;
    var v := p + 1;
    while v < GRID_WIDTH
      invariant p + 1 <= v <= GRID_WIDTH
      invariant Settled(costs[..], dg, p, p, v - 1)
      invariant PathsSettled(paths', p, p, v - 1)
    {
      var danger := CombinedAt(g, obs, row, v);
      SettleRightward(costs[..], dg, p, p, v);
      PathRightward(paths', p, p, v);
      costs[v] := costs[v - 1] + (5 + 50 * danger + Dist(v, CENTER));
      paths' := paths'[v := paths'[v - 1] + [v]];
      v := v + 1;
    }
  }

  /** The columns left of p, each settled from its right neighbour; the
      columns right of p keep their costs and paths. */
  method SweepLeft(obs: seq<Obstacle>, row: int, p: int, g: array2<int>, costs: array<int>, paths: map<int, seq<int>>)
    returns (paths': map<int, seq<int>>)
    requires 0 <= row < GRID_HEIGHT && 0 <= p < GRID_WIDTH
    requires g.Length0 == GRID_HEIGHT && g.Length1 == GRID_WIDTH && costs.Length == GRID_WIDTH
    requires forall y, x :: 0 <= y < GRID_HEIGHT && 0 <= x < GRID_WIDTH ==> g[y, x] == DangerAt(obs, y, x)
    requires Settled(costs[..], RowDanger(obs, row), p, p, GRID_WIDTH - 1)
    requires PathsSettled(paths, p, p, GRID_WIDTH - 1)
    modifies costs
    ensures Settled(costs[..], RowDanger(obs, row), p, 0, GRID_WIDTH - 1)
    ensures PathsSettled(paths', p, 0, GRID_WIDTH - 1)
  {
    ghost var dg := RowDanger(obs, row);
    paths' := paths;
    var v := p - 1;
    while v >= 0
      invariant -1 <= v < p
      invariant Settled(costs[..], dg, p, v + 1, GRID_WIDTH - 1)
      invariant PathsSettled(paths', p, v + 1, GRID_WIDTH - 1)
    {
      var danger := CombinedAt(g, obs, row, v);
      SettleLeftward(costs[..], dg, p, v, GRID_WIDTH - 1);
      PathLeftward(paths', p, v, GRID_WIDTH - 1);
      costs[v] := costs[v + 1] + (5 + 50 * danger + Dist(v, CENTER));
      paths' := paths'[v := paths'[v + 1] + [v]];
      v := v - 1;
    }
  }

  /** Of the columns before i, best is the safe one of least cost (the
      first of equal ones) and lowest its cost; best is -1 when none of them
      is safe. */
  ghost predicate CheapestAmong(obs: seq<Obstacle>, row: int, dg: seq<nat>, p: int, i: int, best: int, lowest: int)
  {
    && |dg| == GRID_WIDTH && 0 <= p < GRID_WIDTH && 0 <= i <= GRID_WIDTH
    && (best == -1 ==> forall c :: 0 <= c < i ==> !Safe(obs, row, c))
    && (best != -1 ==>
          && 0 <= best < i
          && Safe(obs, row, best)
          && lowest == PathCost(dg, p, best)
          && forall c :: 0 <= c < i && Safe(obs, row, c) ==>
               lowest <= PathCost(dg, p, c) && (c < best ==> lowest < PathCost(dg, p, c)))
  }

  /** One selection step: column i replaces the best so far when it is safe
      and strictly cheaper, or when it is the first safe column. */
  lemma CheapestStep(obs: seq<Obstacle>, row: int, dg: seq<nat>, p: int, i: int, best: int, lowest: int, isSafe: bool, cost: int)
    requires CheapestAmong(obs, row, dg, p, i, best, lowest) && i < GRID_WIDTH
    requires (isSafe <==> Safe(obs, row, i)) && cost == PathCost(dg, p, i)
    ensures var take := isSafe && (best == -1 || cost < lowest);
      CheapestAmong(obs, row, dg, p, i + 1, if take then i else best, if take then cost else lowest)
  {
  }

  /** findBestPath_CenterHugger: settles the cost and the path of every
      column, then keeps the first safe column of strictly least cost;
      without one, falls back to the greedy choice. */
  method FindBestPathCenterHugger(obs: seq<Obstacle>, row: int, p: int) returns (plan: Plan)
    requires 0 <= row < GRID_HEIGHT && 0 <= p < GRID_WIDTH
    ensures CheapestSafePlan(obs, row, p, plan)
  {
    var g := BuildDangerGrid(obs);
    var costs, paths := SettleCosts(obs, row, p, g);
    ghost var dg := RowDanger(obs, row);
    var bestTarget := -1;
    var lowestCost := 0;  // "Infinity" while bestTarget is -1
    for i := 0 to GRID_WIDTH
      invariant forall y, x :: 0 <= y < GRID_HEIGHT && 0 <= x < GRID_WIDTH ==> g[y, x] == DangerAt(obs, y, x)
      invariant Settled(costs[..], dg, p, 0, GRID_WIDTH - 1)
      invariant CheapestAmong(obs, row, dg, p, i, bestTarget, lowestCost)
    {
      var isSafe := SafeAt(g, obs, row, i);
      CheapestStep(obs, row, dg, p, i, bestTarget, lowestCost, isSafe, costs[i]);
      if isSafe && (bestTarget == -1 || costs[i] < lowestCost) {
        lowestCost := costs[i];
        bestTarget := i;
      }
    }
    if bestTarget != -1 {
      return Plan(bestTarget, paths[bestTarget]);
    }
    plan := FindBestPathGreedy(obs, row, p);
  }

  /** Columns s .. s + l - 1 (at least one) are in the grid and all safe. */
  ghost predicate SafeRun(obs: seq<Obstacle>, row: int, s: int, l: int)
  {
    1 <= l && 0 <= s && s + l <= GRID_WIDTH && forall c :: s <= c < s + l ==> Safe(obs, row, c)
  }

  /** The widest run of safe columns; of several equally wide, the leftmost. */
  ghost predicate WidestRun(obs: seq<Obstacle>, row: int, s: int, l: int)
  {
    SafeRun(obs, row, s, l) &&
    forall s', l' :: SafeRun(obs, row, s', l') ==> l' <= l && (s' < s ==> l' < l)
  }

  /** Strategy 4: the middle column (rounded right) of the widest safe run and
      the straight path to it; without a safe column, the greedy choice. */
  ghost predicate WidestGapPlan(obs: seq<Obstacle>, row: int, p: int, plan: Plan)
  {
    if SomeSafe(obs, row) then
      exists s, l :: WidestRun(obs, row, s, l) && plan == Plan(s + l / 2, Straight(p, s + l / 2))
    else
      GreedyPlan(obs, row, p, plan)
  }

  /** The state of the opportunist's scan before column col: the current
      run of safe columns (currentStart = -1 when there is none) ends just
      before col and cannot be extended to the left, and the best run is the
      widest, leftmost one among the runs that ended before the current one. */
  ghost predicate Scanned(obs: seq<Obstacle>, row: int, col: int, bestStart: int, maxLength: int, currentStart: int, currentLength: int)
  {
    && 0 <= col <= GRID_WIDTH && 0 <= currentLength && 0 <= maxLength
    && (currentStart == -1) == (currentLength == 0)
    && (currentLength > 0 ==>
          && SafeRun(obs, row, currentStart, currentLength)
          && currentStart + currentLength == col
          && (currentStart > 0 ==> !Safe(obs, row, currentStart - 1)))
    && (currentLength == 0 && col > 0 ==> !Safe(obs, row, col - 1))
    && (bestStart == -1) == (maxLength == 0)
    && (maxLength > 0 ==>
          && SafeRun(obs, row, bestStart, maxLength)
          && bestStart + maxLength <= col
          && (currentLength > 0 ==> bestStart + maxLength < currentStart))
    && forall s, l :: SafeRun(obs, row, s, l) && s + l <= col && (currentLength == 0 || s < currentStart) ==>
         l <= maxLength && (s < bestStart ==> l < maxLength)
  }

  /** One column of the scan: a safe column extends (or starts) the current
      run; an unsafe one closes it, and it becomes the best run when it is
      strictly wider. */
  lemma ScanStep(obs: seq<Obstacle>, row: int, col: int, bestStart: int, maxLength: int, currentStart: int, currentLength: int, isSafe: bool)
    requires Scanned(obs, row, col, bestStart, maxLength, currentStart, currentLength) && col < GRID_WIDTH
    requires isSafe <==> Safe(obs, row, col)
    ensures isSafe ==>
      Scanned(obs, row, col + 1, bestStart, maxLength, if currentStart == -1 then col else currentStart, currentLength + 1)
    ensures !isSafe && currentLength > maxLength ==> Scanned(obs, row, col + 1, currentStart, currentLength, -1, 0)
    ensures !isSafe && currentLength <= maxLength ==> Scanned(obs, row, col + 1, bestStart, maxLength, -1, 0)
  {
    if isSafe {
      var start := if currentStart == -1 then col else currentStart;
      forall s, l | SafeRun(obs, row, s, l) && s + l <= col + 1 && s < start
        ensures s + l <= col
      {
        assert !Safe(obs, row, start - 1);
      }
    } else {
      forall s, l | SafeRun(obs, row, s, l) && s + l <= col + 1
        ensures s + l <= col
        ensures currentLength > 0 && s >= currentStart ==> l <= currentLength
      {
        assert s + l == col + 1 ==> Safe(obs, row, col);
      }
    }
  }

  /** findBestPath_Opportunist: one scan of the row measuring runs of safe
      columns, keeping the first of the greatest length, then a search to its
      middle column. */
  method FindBestPathOpportunist(obs: seq<Obstacle>, row: int, p: int) returns (plan: Plan)
    requires 0 <= row < GRID_HEIGHT && 0 <= p < GRID_WIDTH
    ensures WidestGapPlan(obs, row, p, plan)
  {
    var g := BuildDangerGrid(obs);
    var bestStart, maxLength, currentStart, currentLength := -1, 0, -1, 0;
    for col := 0 to GRID_WIDTH
      invariant forall y, x :: 0 <= y < GRID_HEIGHT && 0 <= x < GRID_WIDTH ==> g[y, x] == DangerAt(obs, y, x)
      invariant Scanned(obs, row, col, bestStart, maxLength, currentStart, currentLength)
    {
      var isSafe := SafeAt(g, obs, row, col);
      ScanStep(obs, row, col, bestStart, maxLength, currentStart, currentLength, isSafe);
      if isSafe {
        if currentStart == -1 {
          currentStart := col;
        }
        currentLength := currentLength + 1;
      } else {
        if currentLength > maxLength {
          maxLength := currentLength;
          bestStart := currentStart;
        }
        currentStart := -1;
        currentLength := 0;
      }
    }
    if currentLength > maxLength {
      maxLength := currentLength;
      bestStart := currentStart;
    }
    if bestStart != -1 {
      forall s, l | SafeRun(obs, row, s, l)
        ensures l <= maxLength && (s < bestStart ==> l < maxLength)
      {
      }
      var targetCol := bestStart + maxLength / 2;
      plan := FindBestPathBfsToTarget(row, p, targetCol);
      assert WidestRun(obs, row, bestStart, maxLength);
      assert Safe(obs, row, bestStart);
      return;
    }
    if SomeSafe(obs, row) {
      var c :| 0 <= c < GRID_WIDTH && Safe(obs, row, c);
      assert SafeRun(obs, row, c, 1);
    }
    plan := FindBestPathGreedy(obs, row, p);
  }

  /** The plan each algorithm number stands for: 2 greedy, 3 center hugger,
      4 opportunist, anything else breadth-first search. */
  ghost predicate StrategyPlan(algorithm: int, obs: seq<Obstacle>, row: int, p: int, plan: Plan)
  {
    if algorithm == 2 then GreedyPlan(obs, row, p, plan)
    else if algorithm == 3 then CheapestSafePlan(obs, row, p, plan)
    else if algorithm == 4 then WidestGapPlan(obs, row, p, plan)
    else NearestSafePlan(obs, row, p, plan)
  }

  /** Every strategy's plan targets an in-grid column and walks straight to it. */
  lemma {:induction false} PlanIsStraight(algorithm: int, obs: seq<Obstacle>, row: int, p: int, plan: Plan)
    requires 0 <= p < GRID_WIDTH
    requires StrategyPlan(algorithm, obs, row, p, plan)
    ensures 0 <= plan.target < GRID_WIDTH && plan.path == Straight(p, plan.target)
  {
    if algorithm == 4 && SomeSafe(obs, row) {
      var s, l :| WidestRun(obs, row, s, l) && plan == Plan(s + l / 2, Straight(p, s + l / 2));
    }
  }

  /** findBestPath: dispatch on the bot's algorithm number. */
  method FindBestPath(obs: seq<Obstacle>, row: int, p: int, algorithm: int) returns (plan: Plan)
    requires 0 <= row < GRID_HEIGHT && 0 <= p < GRID_WIDTH
    ensures StrategyPlan(algorithm, obs, row, p, plan)
    ensures 0 <= plan.target < GRID_WIDTH && plan.path == Straight(p, plan.target)
  {
    if algorithm == 1 {
      plan := FindBestPathBfs(obs, row, p);
    } else if algorithm == 2 {
      plan := FindBestPathGreedy(obs, row, p);
    } else if algorithm == 3 {
      plan := FindBestPathCenterHugger(obs, row, p);
    } else if algorithm == 4 {
      plan := FindBestPathOpportunist(obs, row, p);
    } else {
      plan := FindBestPathBfs(obs, row, p);
    }
    PlanIsStraight(algorithm, obs, row, p, plan);
  }

  /** The breadth-first plan is fully determined: nearest safe column, ties
      to the left. */
  lemma NearestSafePlanUnique(obs: seq<Obstacle>, row: int, p: int, a: Plan, b: Plan)
    requires NearestSafePlan(obs, row, p, a) && NearestSafePlan(obs, row, p, b)
    ensures a == b
  {
  }

  /** The greedy plan is fully determined. */
  lemma GreedyPlanUnique(obs: seq<Obstacle>, row: int, p: int, a: Plan, b: Plan)
    requires GreedyPlan(obs, row, p, a) && GreedyPlan(obs, row, p, b)
    ensures a == b
  {
  }

  /** A straight path of at least one step costs at least 5 per step. */
  lemma {:induction false} PathCostGrows(dg: seq<nat>, p: int, c: int)
    requires 0 <= p < |dg| && 0 <= c < |dg|
    ensures PathCost(dg, p, c) >= 5 * Dist(p, c)
    decreases Dist(p, c)
  {
    if c > p {
      PathCostGrows(dg, p, c - 1);
    } else if c < p {
      PathCostGrows(dg, p, c + 1);
    }
  }

  /** The center-hugger plan is fully determined. */
  lemma CheapestSafePlanUnique(obs: seq<Obstacle>, row: int, p: int, a: Plan, b: Plan)
    requires CheapestSafePlan(obs, row, p, a) && CheapestSafePlan(obs, row, p, b)
    ensures a == b
  {
    if !SomeSafe(obs, row) {
      GreedyPlanUnique(obs, row, p, a, b);
    }
  }

  /** Of two widest runs, neither is wider nor further left: they are one. */
  lemma WidestRunUnique(obs: seq<Obstacle>, row: int, s1: int, l1: int, s2: int, l2: int)
    requires WidestRun(obs, row, s1, l1) && WidestRun(obs, row, s2, l2)
    ensures s1 == s2 && l1 == l2
  {
    assert l1 <= l2 && l2 <= l1;
  }

  /** The opportunist's target is a safe column inside the widest run. */
  lemma OpportunistTargetSafe(obs: seq<Obstacle>, row: int, p: int, plan: Plan)
    requires SomeSafe(obs, row) && WidestGapPlan(obs, row, p, plan)
    ensures 0 <= plan.target < GRID_WIDTH && Safe(obs, row, plan.target)
  {
    var s, l :| WidestRun(obs, row, s, l) && plan == Plan(s + l / 2, Straight(p, s + l / 2));
    assert s <= s + l / 2 < s + l;
  }

  /** A bot already on a safe column stays there under strategies 1 to 3. */
  lemma StaysWhenSafe(algorithm: int, obs: seq<Obstacle>, row: int, p: int, plan: Plan)
    requires 0 <= p < GRID_WIDTH && Safe(obs, row, p) && algorithm != 4
    requires StrategyPlan(algorithm, obs, row, p, plan)
    ensures plan == Plan(p, [p])
  {
    if algorithm == 2 {
      if plan.target != p {
        assert Before(p, p, plan.target);
      }
    } else if algorithm == 3 {
      PathCostGrows(RowDanger(obs, row), p, plan.target);
    } else {
      if plan.target != p {
        assert Before(p, p, plan.target);
      }
    }
  }
}
