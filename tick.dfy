/**
 * One tick of the game loop, `update` (server/server.js:195-255): a game that is
 * over does nothing; a game whose time has run out ends by score; otherwise every
 * living player moves, may pick up the enemy flag and may capture, then the
 * bullets advance and the carried flags follow their carriers.
 *
 * The interval timer that calls `update` sixty times a second is not modelled:
 * `Tick` is one call, and the clock reading `Date.now()` is the parameter `now`.
 */
module Tick {
  import opened Wrappers
  import opened Geometry
  import opened Match
  import opened Rules
  import opened Bullets

  /** `this.inputs[playerId] || {}`: a player who never sent input presses nothing. */
  function InputFor(inputs: map<PlayerId, Input>, id: PlayerId): Input
  {
    if id in inputs then inputs[id] else NO_INPUT
  }

  /** The movement of player i by their input: the rest of the room is unchanged. */
  function MoveStep(st: GameState, inputs: map<PlayerId, Input>, i: nat): GameState
    requires i < |st.players|
  {
    var p := st.players[i];
    st.(players := st.players[i := MovePlayer(p, InputFor(inputs, p.id), st.obstacles)])
  }

  /** Moving keeps the room invariant: the player stays in the arena and out of
      the walls, and carries what they carried. */
  lemma MoveStepKeepsInv(st: GameState, inputs: map<PlayerId, Input>, i: nat)
    requires Inv(st) && i < |st.players|
    ensures Inv(MoveStep(st, inputs, i))
  {
    var p := st.players[i];
    var q := MovePlayer(p, InputFor(inputs, p.id), st.obstacles);
    MovePlayerSpec(p, InputFor(inputs, p.id), st.obstacles);
    var s := MoveStep(st, inputs, i);
    assert PlayerOk(q, s.obstacles);
    assert CarrierOf(q) == CarrierOf(p);
    assert PlayersInv(s);
    SameRosterKeepsBullets(st.bullets, st.players, s.players, st.obstacles);
  }

  /** One iteration of the player loop, for player i: a dead player is skipped;
      a living one moves, then may pick up, then may capture. */
  function PlayerStep(st: GameState, inputs: map<PlayerId, Input>, i: nat): (r: GameState)
    requires i < |st.players|
    ensures st.players[i].isDead ==> r == st
    ensures |r.players| == |st.players|
    ensures forall k :: 0 <= k < |st.players| && k != i ==> r.players[k] == st.players[k]
    ensures forall k :: 0 <= k < |st.players| ==>
              r.players[k].id == st.players[k].id && r.players[k].team == st.players[k].team &&
              r.players[k].isDead == st.players[k].isDead
    ensures r.players[i].score == st.players[i].score ||
            (!st.players[i].isDead && r.players[i].score == st.players[i].score + 1)
    ensures r.bullets == st.bullets && r.obstacles == st.obstacles && r.startTime == st.startTime
    ensures st.gameOver ==> r.gameOver
  {
    var p := st.players[i];
    if p.isDead then st
    else
      var s' := CheckFlagPickup(MoveStep(st, inputs, i), i);
      CaptureScore(s', i);
      CheckFlagCapture(s', i)
  }

  /** A living player's step is the move, then the pickup test, then the capture test. */
  lemma PlayerStepAlive(st: GameState, inputs: map<PlayerId, Input>, i: nat)
    requires i < |st.players| && !st.players[i].isDead
    ensures PlayerStep(st, inputs, i) == CheckFlagCapture(CheckFlagPickup(MoveStep(st, inputs, i), i), i)
  {
  }

  /** A living player's step keeps the room invariant: the move keeps the player in
      the arena and out of the walls, and pickup and capture keep the flags and the
      players in agreement. */
  lemma PlayerStepKeepsInv(st: GameState, inputs: map<PlayerId, Input>, i: nat)
    requires i < |st.players|
    ensures Inv(st) ==> Inv(PlayerStep(st, inputs, i))
  {
    if Inv(st) && !st.players[i].isDead {
      var s := MoveStep(st, inputs, i);
      MoveStepKeepsInv(st, inputs, i);
      CheckFlagPickupKeepsInv(s, i);
      CheckFlagCaptureKeepsInv(CheckFlagPickup(s, i), i);
    }
  }

  /** The player loop over players 0 .. k-1, in the order of the roster. */
  function PlayersPass(st: GameState, inputs: map<PlayerId, Input>, k: nat): (r: GameState)
    requires k <= |st.players|
    decreases k
    ensures |r.players| == |st.players|
    ensures forall j :: 0 <= j < |st.players| ==>
              r.players[j].id == st.players[j].id && r.players[j].team == st.players[j].team &&
              r.players[j].isDead == st.players[j].isDead
    ensures forall j :: 0 <= j < |st.players| && st.players[j].isDead ==> r.players[j] == st.players[j]
    ensures forall j :: k <= j < |st.players| ==> r.players[j] == st.players[j]
    ensures forall j :: 0 <= j < |st.players| ==>
              r.players[j].score == st.players[j].score || r.players[j].score == st.players[j].score + 1
    ensures r.bullets == st.bullets && r.obstacles == st.obstacles && r.startTime == st.startTime
    ensures st.gameOver ==> r.gameOver
    ensures Inv(st) ==> Inv(r)
  {
    if k == 0 then st
    else
      var s := PlayersPass(st, inputs, k - 1);
      PlayerStepKeepsInv(s, inputs, k - 1);
      PlayerStep(s, inputs, k - 1)
  }

  /** `CONFIG.MATCH_TIME - Math.floor((now - startTime) / 1000)`; Dafny's integer
      division by a positive divisor rounds down, as `Math.floor` does. */
  function TimeLeft(startTime: int, now: int): int
  {
    MATCH_TIME - (now - startTime) / 1000
  }

  /** The match is over on time exactly when 180 seconds have passed since it started. */
  lemma TimeUpExactly(startTime: int, now: int)
    ensures TimeLeft(startTime, now) <= 0 <==> now - startTime >= MATCH_TIME * 1000
  {
    var d := now - startTime;
    var q := d / 1000;
    assert d == 1000 * q + d % 1000 && 0 <= d % 1000 < 1000;
    if q >= MATCH_TIME {
      assert d >= 1000 * MATCH_TIME;
    }
    if d >= MATCH_TIME * 1000 {
      assert 1000 * q > 1000 * (MATCH_TIME - 1);
    }
  }

  /** `update()` at time `now`. */
  function Tick(st: GameState, inputs: map<PlayerId, Input>, now: int): (r: GameState)
    requires |st.players| >= 2
    ensures st.gameOver ==> r == st
    ensures !st.gameOver && TimeLeft(st.startTime, now) <= 0 ==>
              r == st.(gameOver := true, winner := ScoreWinner(st.players))
  {
    if st.gameOver then st
    else if TimeLeft(st.startTime, now) <= 0 then EndGame(st, None)
    else UpdateFlagPositions(UpdateBullets(PlayersPass(st, inputs, |st.players|), now))
  }

  /** A tick keeps the room invariant. */
  lemma TickKeepsInv(st: GameState, inputs: map<PlayerId, Input>, now: int)
    requires Inv(st)
    ensures Inv(Tick(st, inputs, now))
  {
    if !st.gameOver {
      if TimeLeft(st.startTime, now) <= 0 {
        EndGameKeepsInv(st, None);
      } else {
        var s := PlayersPass(st, inputs, |st.players|);
        UpdateBulletsKeepsInv(s, now);
        UpdateFlagPositionsKeepsInv(UpdateBullets(s, now));
      }
    }
  }

  /** The game that is still running after a tick was running before, its time is
      not up, and the tick was the full sequence players, bullets, flags. */
  lemma TickRunning(st: GameState, inputs: map<PlayerId, Input>, now: int)
    requires |st.players| >= 2
    requires !st.gameOver && TimeLeft(st.startTime, now) > 0
    ensures Tick(st, inputs, now) ==
            UpdateFlagPositions(UpdateBullets(PlayersPass(st, inputs, |st.players|), now))
  {
  }

  lemma DistinctPair(st: GameState)
    requires PlayersInv(st)
    ensures DistinctIds(st.players)
  {
  }

  /** A dead player is not moved, not hit and not scored for by a tick: their
      record is exactly as it was (they wait for the respawn timer). */
  lemma TickLeavesDeadPlayers(st: GameState, inputs: map<PlayerId, Input>, now: int, j: nat)
    requires Inv(st) && j < |st.players| && st.players[j].isDead
    ensures Tick(st, inputs, now).players[j] == st.players[j]
  {
    if !st.gameOver && TimeLeft(st.startTime, now) > 0 {
      var s := PlayersPass(st, inputs, |st.players|);
      assert s.players[j] == st.players[j];
      DistinctPair(s);
      UpdateBulletsPlayers(s, now);
    }
  }

  /** Each tick raises any player's score by at most one. */
  lemma TickScoreStep(st: GameState, inputs: map<PlayerId, Input>, now: int, j: nat)
    requires |st.players| >= 2 && j < |st.players|
    ensures |Tick(st, inputs, now).players| == |st.players|
    ensures var s := Tick(st, inputs, now).players[j].score;
            s == st.players[j].score || s == st.players[j].score + 1
  {
    if !st.gameOver && TimeLeft(st.startTime, now) > 0 {
      UpdateBulletsPlayers(PlayersPass(st, inputs, |st.players|), now);
    }
  }

  /** After a running tick every bullet left is some bullet of before, moved by
      its velocity, inside the map and clear of every obstacle. */
  lemma TickBullets(st: GameState, inputs: map<PlayerId, Input>, now: int)
    requires |st.players| >= 2
    requires !st.gameOver && TimeLeft(st.startTime, now) > 0
    ensures forall b :: b in Tick(st, inputs, now).bullets ==>
              (exists i :: 0 <= i < |st.bullets| && b == Advance(st.bullets[i])) &&
              !OutOfBounds(b) && !Collides(b.x, b.y, BULLET_SIZE, st.obstacles)
  {
    var s := PlayersPass(st, inputs, |st.players|);
    UpdateBulletsSurvivors(s, now);
  }

  // ---------------------------------------------------------------------------
  // How loose the flag rules are, on a concrete room

  /** Red at (700, 100) carrying the blue flag; blue at (700, 140) carrying the red
      flag, which sits over blue and is still marked home because a pickup leaves
      `isHome` untouched. */
  function LooseFlagRoom(): (st: GameState)
    ensures Inv(st)
  {
    var st := CreateGameState("r", "b", 0);
    var red := st.players[0].(x := 700.0, y := 100.0, hasFlag := true);
    var blue := st.players[1].(x := 700.0, y := 140.0, hasFlag := true);
    assert !Collides(700.0, 100.0, PLAYER_SIZE, GenerateObstacles()) by {
      var obs := GenerateObstacles();
      forall i | 0 <= i < |obs|
        ensures !CheckCollision(CenteredSquare(700.0, 100.0, PLAYER_SIZE), obs[i])
      {
      }
    }
    assert !Collides(700.0, 140.0, PLAYER_SIZE, GenerateObstacles()) by {
      var obs := GenerateObstacles();
      forall i | 0 <= i < |obs|
        ensures !CheckCollision(CenteredSquare(700.0, 140.0, PLAYER_SIZE), obs[i])
      {
      }
    }
    st.(players := [red, blue],
        flags := Flags(Flag(700.0, 115.0, true, Some("b")), Flag(700.0, 75.0, false, Some("r"))))
  }

  /** Picking up a flag that is at home leaves it marked home while carried. */
  lemma PickupKeepsHomeMark(st: GameState, i: nat)
    requires i < |st.players| && CanPickUp(st, i)
    requires st.flags.Get(Enemy(st.players[i].team)).isHome
    ensures var f := CheckFlagPickup(st, i).flags.Get(Enemy(st.players[i].team));
            f.isHome && f.carrier == Some(st.players[i].id)
  {
  }

  /** Red scores although its own flag is in blue's hands: the capture test looks
      at where the own flag is and at its home mark, not at its carrier. */
  lemma CaptureWhileOwnFlagCarried()
    ensures var st := LooseFlagRoom();
            st.flags.red.carrier.Some? && CanCapture(st, 0) &&
            CheckFlagCapture(st, 0).players[0].score == 1
  {
    var st := LooseFlagRoom();
    assert WithinDistance(700.0, 100.0, 700.0, 115.0, CAPTURE_RADIUS);
  }

  /** The player loop does not stop when a capture ends the game: a later player
      of the same tick who also reaches three captures replaces the winner, since
      `endGame` runs again. */
  lemma LaterCaptureReplacesWinner(st: GameState, inputs: map<PlayerId, Input>, i: nat)
    requires i < |st.players| && !st.players[i].isDead
    requires var s := CheckFlagPickup(MoveStep(st, inputs, i), i);
             CanCapture(s, i) && s.players[i].score + 1 >= SCORE_TO_WIN
    ensures PlayerStep(st, inputs, i).gameOver
    ensures PlayerStep(st, inputs, i).winner == Won(st.players[i].id)
  {
    PlayerStepAlive(st, inputs, i);
  }
}
