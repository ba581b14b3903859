/** The game state and its tick: two players, each with its own obstacles,
    an optional bot, a score and a game-over flag; a per-frame update that
    moves obstacles, runs the bots, spawns, detects collisions and latches
    the end of the race; and the keyboard commands. Timestamps are whole
    milliseconds and the speed multiplier is kept in tenths. */
module Simulation {
  import opened Geometry
  import opened SpawnPlanner
  import opened Collision
  import opened DangerField
  import opened BotStrategies

  const INITIAL_MOVE_INTERVAL: int := 600
  const SPAWN_INTERVAL: int := 500
  const BOT_THINK_INTERVAL: int := 100
  /** Speed multipliers in tenths: 1.0 is 10, the step 0.2 is 2, the bounds
      0.2 and 5.0 are 2 and 50. */
  const INITIAL_SPEED: int := 10
  const SPEED_INCREMENT: int := 2
  const MIN_SPEED: int := 2
  const MAX_SPEED: int := 50

  /** A bot's settings and its latest decision (target column and path). */
  datatype Bot = Bot(isActive: bool, algorithm: int, targetX: Option<int>, path: seq<int>, lastThinkTime: int)

  /** The idle bot every new player starts with. */
  const IDLE_BOT: Bot := Bot(false, 1, None, [], 0)

  /** Everything about a player that a tick or a key can change. */
  datatype PlayerView = PlayerView(
    x: int, y: int, tetrominos: seq<Obstacle>, score: int, gameOver: bool, lastSpawnTime: int, bot: Bot)

  /** The obstacles have fallen far enough: now - last > 600 / speed. */
  predicate MoveDue(now: int, last: int, speed: int)
  {
    (now - last) * speed > INITIAL_MOVE_INTERVAL * 10
  }

  /** A new obstacle is due: now - last > 500 / speed. */
  predicate SpawnDue(now: int, last: int, speed: int)
  {
    (now - last) * speed > SPAWN_INTERVAL * 10
  }

  predicate ThinkDue(bot: Bot, now: int)
  {
    now > bot.lastThinkTime + BOT_THINK_INTERVAL
  }

  /** The score: the whole number of tenths of a second played, times the
      speed multiplier. */
  function Score(now: int, start: int, paused: int, speed: int): int
  {
    (now - start - paused) * speed / 1000
  }

  /** The score is the floor of play time (in thousandths) times speed. */
  lemma ScoreIsFloor(now: int, start: int, paused: int, speed: int)
    ensures var score := Score(now, start, paused, speed);
      score * 1000 <= (now - start - paused) * speed < (score + 1) * 1000
  {
  }

  /** A column clamped into the grid. */
  function Clamp(x: int): (r: int)
    ensures 0 <= r < GRID_WIDTH
    ensures 0 <= x < GRID_WIDTH ==> r == x
    ensures x < 0 ==> r == 0
    ensures x >= GRID_WIDTH ==> r == GRID_WIDTH - 1
  {
    if x < 0 then 0 else if x >= GRID_WIDTH then GRID_WIDTH - 1 else x
  }

  /** One bot step: one column towards the target, kept inside the grid. */
  function StepToward(x: int, target: int): (r: int)
    ensures 0 <= r < GRID_WIDTH
    ensures 0 <= x < GRID_WIDTH ==> Dist(r, x) <= 1
    ensures 0 <= x < GRID_WIDTH && 0 <= target < GRID_WIDTH ==>
      Dist(r, target) == if x == target then 0 else Dist(x, target) - 1
  {
    Clamp(if x < target then x + 1 else if x > target then x - 1 else x)
  }

  /** A bot that keeps its target reaches it in Dist(x, target) steps. */
  lemma {:induction false} StepsReachTarget(x: int, target: int, n: nat)
    requires 0 <= x < GRID_WIDTH && 0 <= target < GRID_WIDTH && n >= Dist(x, target)
    ensures Steps(x, target, n) == target
    decreases n
  {
    if n > 0 {
      StepsReachTarget(StepToward(x, target), target, n - 1);
    }
  }

  /** n bot steps towards a fixed target. */
  function Steps(x: int, target: int, n: nat): int
    decreases n
  {
    if n == 0 then x else Steps(StepToward(x, target), target, n - 1)
  }

  /** Every obstacle one row lower. */
  function Descended(obs: seq<Obstacle>): (r: seq<Obstacle>)
    ensures |r| == |obs|
  {
    seq(|obs|, i requires 0 <= i < |obs| => obs[i].(row := obs[i].row + 1))
  }

  /** Falling one row moves every block of every obstacle down by one. */
  lemma DescendedCovers(obs: seq<Obstacle>, i: int, x: int, y: int)
    requires 0 <= i < |obs|
    ensures Covers(Descended(obs)[i], x, y) <==> Covers(obs[i], x, y - 1)
  {
  }

  /** The obstacles still above SCREEN_HEIGHT + BLOCK_SIZE, in their order. */
  function Prune(obs: seq<Obstacle>): (kept: seq<Obstacle>)
    ensures forall t :: t in kept <==> t in obs && t.row < PRUNE_ROW
    ensures |kept| <= |obs|
  {
    if |obs| == 0 then []
    else if obs[0].row < PRUNE_ROW then [obs[0]] + Prune(obs[1..])
    else Prune(obs[1..])
  }

  /** The filter keeps every copy of an obstacle above the pruning row and
      no copy of any other. */
  lemma {:induction false} PruneCounts(obs: seq<Obstacle>)
    ensures forall t :: multiset(Prune(obs))[t] == if t.row < PRUNE_ROW then multiset(obs)[t] else 0
  {
    if |obs| > 0 {
      PruneCounts(obs[1..]);
      assert obs == [obs[0]] + obs[1..];
    }
  }

  /** The filter keeps the order of the obstacles: filtering a concatenation
      concatenates the filtered parts. */
  lemma {:induction false} PruneAppend(a: seq<Obstacle>, b: seq<Obstacle>)
    ensures Prune(a + b) == Prune(a) + Prune(b)
  {
    if |a| > 0 {
      var ab := a + b;
      assert ab[0] == a[0] && ab[1..] == a[1..] + b;
      PruneAppend(a[1..], b);
      if a[0].row < PRUNE_ROW {
        assert Prune(ab) == [a[0]] + Prune(a[1..] + b);
        assert Prune(a) == [a[0]] + Prune(a[1..]);
      } else {
        assert Prune(ab) == Prune(a[1..] + b);
        assert Prune(a) == Prune(a[1..]);
      }
    } else {
      assert a + b == b;
    }
  }

  /** Pruning twice keeps what pruning once keeps. */
  lemma {:induction false} PruneIdempotent(obs: seq<Obstacle>)
    ensures Prune(Prune(obs)) == Prune(obs)
  {
    if |obs| > 0 {
      PruneIdempotent(obs[1..]);
      if obs[0].row < PRUNE_ROW {
        assert ([obs[0]] + Prune(obs[1..]))[1..] == Prune(obs[1..]);
      }
    }
  }

  /** Pruning never changes whether a player above the pruning line is hit. */
  lemma PruneKeepsCollision(obs: seq<Obstacle>, col: int, row: int)
    requires row < PRUNE_ROW
    ensures HitsPlayer(Prune(obs), col, row) == HitsPlayer(obs, col, row)
  {
    PruneKeepsHits(obs, Prune(obs), col, row);
  }

  function AsSeq(o: Option<Obstacle>): seq<Obstacle>
  {
    if o.Some? then [o.value] else []
  }

  /** A player's obstacles after the spawn step of a tick. */
  ghost function AfterSpawn(obs: seq<Obstacle>, due: bool, draw: SpawnDraw): seq<Obstacle>
  {
    if due then obs + AsSeq(SpawnOutcome(obs, draw)) else obs
  }

  /** A freshly spawned obstacle never hits a player on the grid. */
  lemma SpawnNeverHits(obs: seq<Obstacle>, due: bool, draw: SpawnDraw, col: int, row: int)
    requires 0 < row
    ensures HitsPlayer(AfterSpawn(obs, due, draw), col, row) == HitsPlayer(obs, col, row)
  {
    var after := AfterSpawn(obs, due, draw);
    if HitsPlayer(after, col, row) {
      var i :| 0 <= i < |after| && (Covers(after[i], col, row) || Covers(after[i], col, row - 1));
      if i == |obs| {
        ProposeAbove(draw);
        assert false;
      }
      assert after[i] == obs[i];
    }
    if HitsPlayer(obs, col, row) {
      var i :| 0 <= i < |obs| && (Covers(obs[i], col, row) || Covers(obs[i], col, row - 1));
      assert after[i] == obs[i];
    }
  }

  /** A proposed obstacle lies entirely above the grid. */
  lemma ProposeAbove(draw: SpawnDraw)
    ensures Propose(draw).Some? ==> forall x, y :: Covers(Propose(draw).value, x, y) ==> y < 0
  {
  }

  /** The speed after an arrow key: up and down move by 0.2 within [0.2, 5.0]. */
  function SpeedAfter(key: string, speed: int): (r: int)
    requires MIN_SPEED <= speed <= MAX_SPEED
    ensures MIN_SPEED <= r <= MAX_SPEED
    ensures key == "arrowup" ==> r >= speed && (speed < MAX_SPEED ==> r > speed)
    ensures key == "arrowdown" ==> r <= speed && (speed > MIN_SPEED ==> r < speed)
    ensures key != "arrowup" && key != "arrowdown" ==> r == speed
    ensures key == "arrowup" && speed + SPEED_INCREMENT <= MAX_SPEED ==> r == speed + SPEED_INCREMENT
    ensures key == "arrowup" && speed + SPEED_INCREMENT > MAX_SPEED ==> r == MAX_SPEED
    ensures key == "arrowdown" && speed - SPEED_INCREMENT >= MIN_SPEED ==> r == speed - SPEED_INCREMENT
    ensures key == "arrowdown" && speed - SPEED_INCREMENT < MIN_SPEED ==> r == MIN_SPEED
  {
    if key == "arrowup" then (if speed + SPEED_INCREMENT < MAX_SPEED then speed + SPEED_INCREMENT else MAX_SPEED)
    else if key == "arrowdown" then (if speed - SPEED_INCREMENT > MIN_SPEED then speed - SPEED_INCREMENT else MIN_SPEED)
    else speed
  }

  /** Away from the bounds, speeding up and slowing down cancel out. */
  lemma SpeedUpDown(speed: int)
    requires MIN_SPEED <= speed <= MAX_SPEED - SPEED_INCREMENT
    ensures SpeedAfter("arrowdown", SpeedAfter("arrowup", speed)) == speed
  {
  }

  /** A manual move: one column left or right, clamped into the grid. */
  function ManualMove(x: int, key: string, left: string, right: string): (r: int)
    requires 0 <= x < GRID_WIDTH
    ensures 0 <= r < GRID_WIDTH && Dist(r, x) <= 1
    ensures key == left && key != right ==> r == if x > 0 then x - 1 else 0
    ensures key == right && key != left ==> r == if x < GRID_WIDTH - 1 then x + 1 else x
    ensures key != left && key != right ==> r == x
  {
    var x' := if key == left then Clamp(x - 1) else x;
    if key == right then Clamp(x' + 1) else x'
  }

  /** Away from the left wall, a left move then a right move is no move. */
  lemma LeftThenRight(x: int)
    requires 0 < x < GRID_WIDTH
    ensures ManualMove(ManualMove(x, "arrowleft", "arrowleft", "arrowright"), "arrowright", "arrowleft", "arrowright") == x
  {
  }

  /** parseInt of a key: the value of a single decimal digit, otherwise
      nothing (NaN, which fails every comparison). */
  function ParseDigit(key: string): (d: Option<int>)
    ensures d.Some? <==> |key| == 1 && '0' <= key[0] <= '9'
    ensures d.Some? ==> 0 <= d.value <= 9 && key == [('0' as int + d.value) as char]
  {
    if |key| == 1 && '0' <= key[0] <= '9' then Some(key[0] as int - '0' as int) else None
  }

  /** Player one's algorithm after a key: digits 1 to 4 select it. */
  function P1Algorithm(key: string, algorithm: int): (r: int)
    ensures |key| == 1 && '1' <= key[0] <= '4' ==> r == key[0] as int - '0' as int
    ensures !(|key| == 1 && '1' <= key[0] <= '4') ==> r == algorithm
  {
    var d := ParseDigit(key);
    if d.Some? && 1 <= d.value <= 4 then d.value else algorithm
  }

  /** Player two's algorithm after a key: 7, 8, 9 select 1, 2, 3 and 0
      selects 4. */
  function P2Algorithm(key: string, algorithm: int): (r: int)
    ensures |key| == 1 && '7' <= key[0] <= '9' ==> r == key[0] as int - '0' as int - 6
    ensures key == "0" ==> r == 4
    ensures !(|key| == 1 && ('7' <= key[0] <= '9' || key[0] == '0')) ==> r == algorithm
  {
    var d := ParseDigit(key);
    if d.Some? && 7 <= d.value <= 9 then d.value - 6
    else if key == "0" then 4
    else algorithm
  }

  /** Both players can reach every algorithm with one key, and the algorithm
      always stays between 1 and 4. */
  lemma AlgorithmKeys(a: int, current: int)
    requires 1 <= a <= 4 && 1 <= current <= 4
    ensures P1Algorithm([('0' as int + a) as char], current) == a
    ensures P2Algorithm(if a == 4 then "0" else [('0' as int + a + 6) as char], current) == a
    ensures forall key :: 1 <= P1Algorithm(key, current) <= 4 && 1 <= P2Algorithm(key, current) <= 4
  {
  }

  /** No key changes the algorithms of both players. */
  lemma AlgorithmKeysDisjoint(key: string, a1: int, a2: int)
    ensures P1Algorithm(key, a1) == a1 || P2Algorithm(key, a2) == a2
  {
  }

  /** The bot after a decision: same settings, a target, the time stamped. */
  predicate Decided(before: Bot, after: Bot, now: int)
  {
    && after.(targetX := None, path := [], lastThinkTime := 0) == before.(targetX := None, path := [], lastThinkTime := 0)
    && after.lastThinkTime == now
    && after.targetX.Some?
  }

  /** updatePlayer for a live player, from the view before to the view after:
      the score from the play time, a bot decision when one is due (a plan of
      its algorithm for the obstacles and column before the step), one bot
      step towards its target, a spawn attempt when due, and game over
      exactly when an obstacle reaches the player's cell or the one above. */
  ghost predicate LiveStep(before: PlayerView, after: PlayerView, now: int, start: int, paused: int, speed: int, draw: SpawnDraw)
    requires speed > 0
  {
    var thinks := before.bot.isActive && ThinkDue(before.bot, now);
    var due := SpawnDue(now, before.lastSpawnTime, speed);
    && after.score == Score(now, start, paused, speed)
    && after.y == before.y
    && (if thinks then
          Decided(before.bot, after.bot, now) &&
          StrategyPlan(after.bot.algorithm, before.tetrominos, PLAYER_ROW, before.x, Plan(after.bot.targetX.value, after.bot.path))
        else after.bot == before.bot)
    && after.x == (if after.bot.isActive && after.bot.targetX.Some? then StepToward(before.x, after.bot.targetX.value) else before.x)
    && after.tetrominos == AfterSpawn(before.tetrominos, due, draw)
    && after.lastSpawnTime == (if due then now else before.lastSpawnTime)
    && after.gameOver == HitsPlayer(after.tetrominos, after.x, after.y)
  }

  /** The spawn of a step never decides a collision: a live player is out
      after its step exactly when one of the obstacles it already had covers
      its new cell or the one above. */
  lemma LiveStepHit(before: PlayerView, after: PlayerView, now: int, start: int, paused: int, speed: int, draw: SpawnDraw)
    requires speed > 0 && before.y > 0
    requires LiveStep(before, after, now, start, paused, speed, draw)
    ensures after.gameOver == HitsPlayer(before.tetrominos, after.x, after.y)
  {
    SpawnNeverHits(before.tetrominos, SpawnDue(now, before.lastSpawnTime, speed), draw, after.x, after.y);
  }

  /** One player's part of a frame, from its view after the move tick: a
      player who is out only loses its fallen obstacles; a live player takes
      its step and then loses its fallen obstacles. */
  ghost predicate Ticked(before: PlayerView, after: PlayerView, now: int, start: int, paused: int, speed: int, draw: SpawnDraw)
    requires speed > 0
  {
    if before.gameOver then after == before.(tetrominos := Prune(before.tetrominos))
    else
      var spawned := AfterSpawn(before.tetrominos, SpawnDue(now, before.lastSpawnTime, speed), draw);
      LiveStep(before, after.(tetrominos := spawned), now, start, paused, speed, draw) && after.tetrominos == Prune(spawned)
  }

  lemma TickedIntro(before: PlayerView, v: PlayerView, after: PlayerView, now: int, start: int, paused: int, speed: int, draw: SpawnDraw)
    requires speed > 0
    requires before.gameOver ==> v == before
    requires !before.gameOver ==> LiveStep(before, v, now, start, paused, speed, draw)
    requires after == v.(tetrominos := Prune(v.tetrominos))
    ensures Ticked(before, after, now, start, paused, speed, draw)
  {
  }

  /** After its part of a frame, a player is out exactly when it was out
      before or an obstacle it keeps covers its cell or the one above, and
      every obstacle it keeps is above the pruning line. */
  lemma TickedHit(before: PlayerView, after: PlayerView, now: int, start: int, paused: int, speed: int, draw: SpawnDraw)
    requires speed > 0 && before.y == PLAYER_ROW
    requires Ticked(before, after, now, start, paused, speed, draw)
    ensures before.gameOver ==> after.gameOver
    ensures !before.gameOver ==> after.gameOver == HitsPlayer(after.tetrominos, after.x, after.y)
    ensures forall t :: t in after.tetrominos ==> t.row < PRUNE_ROW
  {
    if !before.gameOver {
      var v := after.(tetrominos := AfterSpawn(before.tetrominos, SpawnDue(now, before.lastSpawnTime, speed), draw));
      PruneKeepsCollision(v.tetrominos, v.x, v.y);
    }
  }

  /** A player's view before updatePlayer: on a move tick a live player's
      obstacles have fallen one row. */
  function Fallen(v: PlayerView, moved: bool): PlayerView
  {
    if moved && !v.gameOver then v.(tetrominos := Descended(v.tetrominos)) else v
  }

  /** The keyboard commands for one player: a manual move when the bot is off
      and the player is in, the bot toggle, and the algorithm choice. */
  predicate Keyed(before: PlayerView, after: PlayerView, key: string, left: string, right: string, toggle: string, algorithm: int)
    requires 0 <= before.x < GRID_WIDTH
  {
    after == before.(
      x := if !before.bot.isActive && !before.gameOver then ManualMove(before.x, key, left, right) else before.x,
      bot := before.bot.(isActive := before.bot.isActive != (key == toggle), algorithm := algorithm))
  }

  /** The time of a new player's last spawn: half a spawn interval before
      now per player index, so that the players' spawns are staggered. */
  function FirstSpawnTime(now: int, id: int): int
  {
    now - (SPAWN_INTERVAL / 2) * (id + 1)
  }

  /** One player: position in cells, its own obstacles, score, game-over
      flag, time of its last spawn and its bot. */
  class Player {
    const id: int
    var x: int
    var y: int
    var tetrominos: seq<Obstacle>
    var score: int
    var gameOver: bool
    var lastSpawnTime: int
    var bot: Bot

    ghost predicate Valid()
      reads this
    {
      && 0 <= x < GRID_WIDTH
      && y == PLAYER_ROW
      && 1 <= bot.algorithm <= 4
      && (bot.targetX.Some? ==> 0 <= bot.targetX.value < GRID_WIDTH)
    }

    ghost function View(): PlayerView
      reads this
    {
      PlayerView(x, y, tetrominos, score, gameOver, lastSpawnTime, bot)
    }

    /** createPlayer: centred on the player's row, no obstacles, an idle bot,
        and the first spawn staggered by a quarter second per player index. */
    constructor (id: int, now: int)
      ensures Valid()
      ensures this.id == id
      ensures View() == PlayerView(GRID_WIDTH / 2, PLAYER_ROW, [], 0, false, FirstSpawnTime(now, id), IDLE_BOT)
    {
      this.id := id;
      x := GRID_WIDTH / 2;
      y := PLAYER_ROW;
      tetrominos := [];
      score := 0;
      gameOver := false;
      lastSpawnTime := FirstSpawnTime(now, id);
      bot := IDLE_BOT;
    }

    /** The bot's decision: a plan from its algorithm for the current
        obstacles and column, stamped with the time. */
    method Think(now: int)
      requires Valid()
      modifies this
      ensures Valid()
      ensures View() == old(View()).(bot := bot)
      ensures bot.(targetX := None, path := [], lastThinkTime := 0) == old(bot).(targetX := None, path := [], lastThinkTime := 0)
      ensures bot.lastThinkTime == now && bot.targetX.Some?
      ensures StrategyPlan(bot.algorithm, tetrominos, PLAYER_ROW, x, Plan(bot.targetX.value, bot.path))
    {
      var result := FindBestPath(tetrominos, y, x, bot.algorithm);
      bot := bot.(targetX := Some(result.target), path := result.path, lastThinkTime := now);
    }

    /** The spawn step: when due, one attempt to spawn and the time of it. */
    method SpawnStep(now: int, speed: int, draw: SpawnDraw)
      modifies this
      ensures var due := SpawnDue(now, old(lastSpawnTime), speed);
        View() == old(View()).(tetrominos := AfterSpawn(old(tetrominos), due, draw),
                               lastSpawnTime := if due then now else old(lastSpawnTime))
    {
      if (now - lastSpawnTime) * speed > SPAWN_INTERVAL * 10 {
        var newTetromino := AttemptSpawnInLane(tetrominos, draw);
        if newTetromino.Some? {
          tetrominos := tetrominos + [newTetromino.value];
        }
        lastSpawnTime := now;
      }
    }

    /** One player's block of the keydown handler: a move left or right
        (clamped) when the bot is off and the player is in, the bot toggle,
        and the algorithm the key selects. */
    method Command(key: string, left: string, right: string, toggle: string, algorithm: int)
      requires Valid() && 1 <= algorithm <= 4
      modifies this
      ensures Valid()
      ensures Keyed(old(View()), View(), key, left, right, toggle, algorithm)
    {
      if !bot.isActive && !gameOver {
        if key == left {
          x := Clamp(x - 1);
        }
        if key == right {
          x := Clamp(x + 1);
        }
      }
      if key == toggle {
        bot := bot.(isActive := !bot.isActive);
      }
      bot := bot.(algorithm := algorithm);
    }

    /** The move tick for this player: every obstacle falls one row. */
    method Descend()
      modifies this
      ensures View() == old(View()).(tetrominos := Descended(old(tetrominos)))
    {
      var i := 0;
      while i < |tetrominos|
        invariant 0 <= i <= |tetrominos| == |old(tetrominos)|
        invariant View() == old(View()).(tetrominos := tetrominos)
        invariant forall j :: 0 <= j < i ==> tetrominos[j] == old(tetrominos[j]).(row := old(tetrominos[j]).row + 1)
        invariant forall j :: i <= j < |tetrominos| ==> tetrominos[j] == old(tetrominos[j])
      {
        tetrominos := tetrominos[i := tetrominos[i].(row := tetrominos[i].row + 1)];
        i := i + 1;
      }
    }
  }

  /** A new player for a reset: createPlayer, then the earlier bot's on/off
      setting and algorithm carried over. */
  method RestoredPlayer(id: int, now: int, b: Bot) returns (p: Player)
    requires 1 <= b.algorithm <= 4
    ensures fresh(p) && p.Valid() && p.id == id
    ensures p.View() == PlayerView(GRID_WIDTH / 2, PLAYER_ROW, [], 0, false, FirstSpawnTime(now, id),
                                   IDLE_BOT.(isActive := b.isActive, algorithm := b.algorithm))
  {
    p := new Player(id, now);
    p.bot := p.bot.(isActive := b.isActive, algorithm := b.algorithm);
  }

  /** The whole race: both players and the shared clock, speed and flags. */
  class GameState {
    var players: seq<Player>
    var gameStartTime: int
    var timePausedTotal: int
    var lastMoveTime: int
    var speed: int
    var gamePaused: bool
    var overallGameOver: bool
    /** When the current pause began (kept across resets). */
    var pauseStartTime: int

    ghost predicate Valid()
      reads this, players
    {
      && |players| == NUM_PLAYERS
      && players[0] != players[1]
      && (forall i :: 0 <= i < |players| ==> players[i].Valid())
      && MIN_SPEED <= speed <= MAX_SPEED
    }

    /** A fresh race with both bots' settings given. */
    ghost predicate Started(now: int, bots: seq<Bot>)
      reads this, players
      requires |bots| == NUM_PLAYERS
    {
      && |players| == NUM_PLAYERS
      && (forall i :: 0 <= i < NUM_PLAYERS ==>
            && players[i].id == i
            && players[i].View() == PlayerView(GRID_WIDTH / 2, PLAYER_ROW, [], 0, false, FirstSpawnTime(now, i),
                 IDLE_BOT.(isActive := bots[i].isActive, algorithm := bots[i].algorithm)))
      && gameStartTime == now && timePausedTotal == 0 && lastMoveTime == now
      && speed == INITIAL_SPEED && !gamePaused && !overallGameOver
    }

    /** The first resetGameState: no earlier players, so both bots are idle. */
    constructor (now: int)
      ensures Valid() && Started(now, [IDLE_BOT, IDLE_BOT])
      ensures fresh(players[0]) && fresh(players[1])
      ensures pauseStartTime == 0
    {
      var p0 := new Player(0, now);
      var p1 := new Player(1, now);
      players := [p0, p1];
      gameStartTime := now;
      timePausedTotal := 0;
      lastMoveTime := now;
      speed := INITIAL_SPEED;
      gamePaused := false;
      overallGameOver := false;
      pauseStartTime := 0;
    }

    /** resetGameState: new players, each keeping only whether its bot was
        on and which algorithm it ran. */
    method Reset(now: int)
      requires Valid()
      modifies this
      ensures Valid() && Started(now, old([players[0].bot, players[1].bot]))
      ensures fresh(players[0]) && fresh(players[1])
      ensures pauseStartTime == old(pauseStartTime)
    {
      var bots := [players[0].bot, players[1].bot];
      var p0 := RestoredPlayer(0, now, bots[0]);
      var p1 := RestoredPlayer(1, now, bots[1]);
      players := [p0, p1];
      gameStartTime := now;
      timePausedTotal := 0;
      lastMoveTime := now;
      speed := INITIAL_SPEED;
      gamePaused := false;
      overallGameOver := false;
    }

    /** updatePlayer: score, bot decision, bot step, spawn and collision for
        one live player; nothing for a player who is out or while paused. */
    method UpdatePlayer(p: Player, now: int, draw: SpawnDraw)
      requires p.Valid() && MIN_SPEED <= speed
      modifies p
      ensures p.Valid()
      ensures old(p.gameOver) || gamePaused ==> p.View() == old(p.View())
      ensures !old(p.gameOver) && !gamePaused ==>
        LiveStep(old(p.View()), p.View(), now, gameStartTime, timePausedTotal, speed, draw)
    {
      if p.gameOver || gamePaused {
        return;
      }
      p.score := Score(now, gameStartTime, timePausedTotal, speed);
      if p.bot.isActive && now > p.bot.lastThinkTime + BOT_THINK_INTERVAL {
        p.Think(now);
      }
      if p.bot.isActive && p.bot.targetX.Some? {
        p.x := StepToward(p.x, p.bot.targetX.value);
      }
      p.SpawnStep(now, speed, draw);
      var hit := CheckCollision(p.tetrominos, p.x, p.y);
      if hit {
        p.gameOver := true;
      }
    }
  
    /** update: one frame. Frozen once the race is over or while paused;
        otherwise a due move tick drops the obstacles of every live player by
        one row, each player is updated and its fallen obstacles dropped, and
        the race is over once every player is. */
    method Update(now: int, draws: seq<SpawnDraw>)
      requires Valid() && |draws| == NUM_PLAYERS
      modifies this, players
      ensures Valid() && players == old(players)
      ensures old(overallGameOver) || old(gamePaused) ==>
        unchanged(this) && forall i :: 0 <= i < |players| ==> players[i].View() == old(players[i].View())
      ensures !old(overallGameOver) && !old(gamePaused) ==>
        && gameStartTime == old(gameStartTime) && timePausedTotal == old(timePausedTotal)
        && speed == old(speed) && !gamePaused && pauseStartTime == old(pauseStartTime)
        && lastMoveTime == (if MoveDue(now, old(lastMoveTime), speed) then now else old(lastMoveTime))
        && (overallGameOver <==> forall i :: 0 <= i < |players| ==> players[i].gameOver)
        && forall i :: 0 <= i < |players| ==>
             Ticked(Fallen(old(players[i].View()), MoveDue(now, old(lastMoveTime), speed)), players[i].View(),
                    now, gameStartTime, timePausedTotal, speed, draws[i])
    {
      if overallGameOver {
        return;
      }
      if !gamePaused {
        Frame(now, draws);
      }
    }

    /** A frame of a running race: the move tick when one is due, each
        player's step, and the game-over latch. */
    method Frame(now: int, draws: seq<SpawnDraw>)
      requires Valid() && |draws| == NUM_PLAYERS && !gamePaused && !overallGameOver
      modifies `lastMoveTime, `overallGameOver, players
      ensures Valid()
      ensures lastMoveTime == (if MoveDue(now, old(lastMoveTime), speed) then now else old(lastMoveTime))
      ensures overallGameOver <==> forall i :: 0 <= i < |players| ==> players[i].gameOver
      ensures forall i :: 0 <= i < |players| ==>
        Ticked(Fallen(old(players[i].View()), MoveDue(now, old(lastMoveTime), speed)), players[i].View(),
               now, gameStartTime, timePausedTotal, speed, draws[i])
    {
      if MoveDue(now, lastMoveTime, speed) {
        MoveTick();
        lastMoveTime := now;
      }
      TickPlayers(now, draws);
      if !overallGameOver && forall i :: 0 <= i < |players| ==> players[i].gameOver {
        overallGameOver := true;
      }
    }

    /** The move tick: the obstacles of every live player fall one row. */
    method MoveTick()
      requires Valid()
      modifies players
      ensures Valid()
      ensures forall i :: 0 <= i < |players| ==> players[i].View() == Fallen(old(players[i].View()), true)
    {
      for i := 0 to |players|
        invariant forall j :: 0 <= j < i ==> players[j].View() == Fallen(old(players[j].View()), true)
        invariant forall j :: i <= j < |players| ==> players[j].View() == old(players[j].View())
      {
        if !players[i].gameOver {
          players[i].Descend();
        }
      }
    }

    /** Each player in turn: updatePlayer, then its fallen obstacles dropped. */
    method TickPlayers(now: int, draws: seq<SpawnDraw>)
      requires Valid() && |draws| == NUM_PLAYERS && !gamePaused
      modifies players
      ensures Valid()
      ensures forall i :: 0 <= i < |players| ==>
        Ticked(old(players[i].View()), players[i].View(), now, gameStartTime, timePausedTotal, speed, draws[i])
    {
      for i := 0 to |players|
        invariant players[0].Valid() && players[1].Valid()
        invariant i > 0 ==> Ticked(old(players[0].View()), players[0].View(), now, gameStartTime, timePausedTotal, speed, draws[0])
        invariant i > 1 ==> Ticked(old(players[1].View()), players[1].View(), now, gameStartTime, timePausedTotal, speed, draws[1])
        invariant i == 0 ==> players[0].View() == old(players[0].View())
        invariant i <= 1 ==> players[1].View() == old(players[1].View())
      {
        TickOne(players[i], now, draws[i]);
      }
    }

    /** One player's part of a frame: its step, then the filter that drops
        its obstacles that have fallen past PRUNE_ROW. */
    method TickOne(p: Player, now: int, draw: SpawnDraw)
      requires p.Valid() && MIN_SPEED <= speed && !gamePaused
      modifies p
      ensures p.Valid()
      ensures Ticked(old(p.View()), p.View(), now, gameStartTime, timePausedTotal, speed, draw)
    {
      ghost var before := p.View();
      UpdatePlayer(p, now, draw);
      ghost var v := p.View();
      p.tetrominos := Prune(p.tetrominos);
      TickedIntro(before, v, p.View(), now, gameStartTime, timePausedTotal, speed, draw);
    }

    /** The keydown handler: any key restarts a finished race; 'p' toggles the
        pause and books the paused time; while paused nothing else happens;
        otherwise the players' moves, bot toggles and algorithm keys apply,
        and the up and down arrows change the speed. */
    method HandleKey(key: string, now: int)
      requires Valid()
      modifies this, players
      ensures Valid()
      ensures old(overallGameOver) ==>
        && Started(now, old([players[0].bot, players[1].bot]))
        && fresh(players[0]) && fresh(players[1])
        && pauseStartTime == old(pauseStartTime)
      ensures !old(overallGameOver) ==>
        && players == old(players)
        && !overallGameOver && gameStartTime == old(gameStartTime) && lastMoveTime == old(lastMoveTime)
        && gamePaused == (old(gamePaused) != (key == "p"))
        && pauseStartTime == (if key == "p" && gamePaused then now else old(pauseStartTime))
        && timePausedTotal == (if key == "p" && !gamePaused then old(timePausedTotal) + (now - old(pauseStartTime)) else old(timePausedTotal))
        && (gamePaused ==> speed == old(speed) && forall i :: 0 <= i < |players| ==> players[i].View() == old(players[i].View()))
        && (!gamePaused ==>
              && speed == SpeedAfter(key, old(speed))
              && Keyed(old(players[0].View()), players[0].View(), key, "arrowleft", "arrowright", "b",
                       P1Algorithm(key, old(players[0].bot.algorithm)))
              && Keyed(old(players[1].View()), players[1].View(), key, "a", "d", "n",
                       P2Algorithm(key, old(players[1].bot.algorithm))))
    {
      if overallGameOver {
        Reset(now);
        return;
      }
      if key == "p" {
        gamePaused := !gamePaused;
        if gamePaused {
          pauseStartTime := now;
        } else {
          timePausedTotal := timePausedTotal + (now - pauseStartTime);
        }
      }
      if gamePaused {
        return;
      }
      PlayKey(key);
    }

    /** The keys of a running race: each player's block, then the speed. */
    method PlayKey(key: string)
      requires Valid()
      modifies players, `speed
      ensures Valid()
      ensures speed == SpeedAfter(key, old(speed))
      ensures Keyed(old(players[0].View()), players[0].View(), key, "arrowleft", "arrowright", "b",
                    P1Algorithm(key, old(players[0].bot.algorithm)))
      ensures Keyed(old(players[1].View()), players[1].View(), key, "a", "d", "n",
                    P2Algorithm(key, old(players[1].bot.algorithm)))
    {
      var p1 := players[0];
      p1.Command(key, "arrowleft", "arrowright", "b", P1Algorithm(key, p1.bot.algorithm));
      var p2 := players[1];
      p2.Command(key, "a", "d", "n", P2Algorithm(key, p2.bot.algorithm));
      if key == "arrowup" {
        speed := if speed + SPEED_INCREMENT < MAX_SPEED then speed + SPEED_INCREMENT else MAX_SPEED;
      }
      if key == "arrowdown" {
        speed := if speed - SPEED_INCREMENT > MIN_SPEED then speed - SPEED_INCREMENT else MIN_SPEED;
      }
    }
  }
}
