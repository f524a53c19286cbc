/**
 * The class GameRoom of server/server.js:131-462 as an object: it owns one match
 * state, the last input each player sent, and whether its game loop is still
 * ticking. Every method performs its steps in place, in the order of the source,
 * and is proved to leave exactly the state that the rule of the same name in
 * Rules, Bullets or Tick computes; the public handlers also keep the room valid.
 */
module Room {
  import opened Wrappers
  import opened Geometry
  import opened Match
  import opened Rules
  import Bullets
  import Tick

  class GameRoom {
    const roomId: string
    /** The two seated connections, by id, red first. */
    const players: seq<PlayerId>
    var state: GameState
    var inputs: map<PlayerId, Input>
    /** The interval timer that calls `update` is still set. */
    var ticking: bool

    /** The players of the match state are the two seated connections. */
    predicate Seats()
      reads this
    {
      && |players| == 2 && |state.players| == 2
      && state.players[0].id == players[0] && state.players[1].id == players[1]
    }

    /** The match state is consistent, its players are the seated connections,
        and the loop ticks exactly while the game is not over. */
    predicate Valid()
      reads this
    {
      && Inv(state)
      && Seats()
      && (ticking <==> !state.gameOver)
    }

    /** `new GameRoom(roomId, player1Socket, player2Socket)` at time `now`. */
    constructor(roomId: string, p1: PlayerId, p2: PlayerId, now: int)
      requires p1 != p2
      ensures Valid()
      ensures this.roomId == roomId && players == [p1, p2]
      ensures state == CreateGameState(p1, p2, now) && inputs == map[] && ticking
    {
      this.roomId := roomId;
      players := [p1, p2];
      state := CreateGameState(p1, p2, now);
      inputs := map[];
      ticking := true;
    }

    /** `handleInput`: the player's latest input replaces the previous one. */
    method HandleInput(id: PlayerId, input: Input)
      requires Valid()
      modifies this
      ensures Valid()
      ensures inputs == old(inputs)[id := input]
      ensures state == old(state) && ticking == old(ticking)
    {
      inputs := inputs[id := input];
    }

    /** `handleShoot`, with the random bullet id and the velocity
        `(cos angle, sin angle) * 15` given by the caller; an angle that is not
        a number is refused, which the server does not do. */
    method HandleShoot(id: PlayerId, angle: JsNumber, bulletId: string, vx: real, vy: real)
      requires Valid()
      modifies this
      ensures Valid()
      ensures state == Rules.ShootChecked(old(state), id, angle, bulletId, vx, vy)
      ensures inputs == old(inputs) && ticking == old(ticking)
    {
      if angle.NaN? {
        return;
      }
      HandleShootKeepsInv(state, id, angle.v, bulletId, vx, vy);
      var found := IndexOf(state.players, id);
      if found.None? {
        return;
      }
      var player := state.players[found.value];
      if player.isDead {
        return;
      }
      var bullet := Bullet(bulletId, player.x, player.y, angle.v, id, player.team, vx, vy);
      state := state.(bullets := state.bullets + [bullet]);
    }

    /** `update` at time `now`. */
    method Update(now: int)
      requires Valid()
      modifies this
      ensures Valid()
      ensures state == Tick.Tick(old(state), old(inputs), now)
      ensures inputs == old(inputs)
    {
      if state.gameOver {
        return;
      }
      var elapsed := (now - state.startTime) / 1000;
      var timeLeft := MATCH_TIME - elapsed;
      if timeLeft <= 0 {
        EndGameKeepsInv(state, None);
        EndGame(None);
        return;
      }
      var i := 0;
      while i < |state.players|
        invariant 0 <= i <= |state.players| == |old(state).players|
        invariant state == Tick.PlayersPass(old(state), inputs, i)
        invariant inputs == old(inputs)
        invariant Inv(state) && (ticking <==> !state.gameOver)
      {
        Tick.PlayerStepKeepsInv(state, inputs, i);
        UpdatePlayer(i);
        i := i + 1;
      }
      ghost var passed := state;
      Bullets.UpdateBulletsKeepsInv(passed, now);
      Bullets.UpdateBulletsPlayers(passed, now);
      UpdateBullets(now);
      UpdateFlagPositionsKeepsInv(state);
      UpdateFlagPositions();
    }

    /** The body of the player loop of `update`, for the player at index i: a dead
        player is skipped; a living one moves by the keys pressed, clamped to the
        arena, unless an obstacle is in the way, turns to the input's angle, and
        then may pick up and may capture. */
    method UpdatePlayer(i: nat)
      requires i < |state.players|
      modifies this
      ensures state == Tick.PlayerStep(old(state), inputs, i)
      ensures inputs == old(inputs)
      ensures old(ticking <==> !state.gameOver) ==> (ticking <==> !state.gameOver)
    {
      var player := state.players[i];
      if player.isDead {
        return;
      }
      Tick.PlayerStepAlive(state, inputs, i);
      Move(i);
      CheckFlagPickup(i);
      CheckFlagCapture(i);
    }

    /** The movement part of the player loop of `update`, for the living player at
        index i. */
    method Move(i: nat)
      requires i < |state.players|
      modifies this
      ensures state == Tick.MoveStep(old(state), inputs, i)
      ensures inputs == old(inputs) && ticking == old(ticking)
    {
      var player := state.players[i];
      var input := Tick.InputFor(inputs, player.id);
      var newX := player.x;
      var newY := player.y;
      if input.up { newY := newY - PLAYER_SPEED; }
      if input.down { newY := newY + PLAYER_SPEED; }
      if input.left { newX := newX - PLAYER_SPEED; }
      if input.right { newX := newX + PLAYER_SPEED; }
      newX := Max(PLAYER_SIZE / 2.0, Min(MAP_WIDTH - PLAYER_SIZE / 2.0, newX));
      newY := Max(PLAYER_SIZE / 2.0, Min(MAP_HEIGHT - PLAYER_SIZE / 2.0, newY));
      var blocked := CollidesWithObstacle(newX, newY, PLAYER_SIZE, state.obstacles);
      if !blocked {
        player := player.(x := newX, y := newY);
      }
      if input.angle.Some? {
        player := player.(angle := input.angle.value);
      }
      state := state.(players := state.players[i := player]);
    }

    /** `updateBullets`: the first loop moves every bullet and records the ones to
        remove, hitting at most one player per bullet; the second loop splices the
        recorded indices out from the last to the first. */
    method UpdateBullets(now: int)
      modifies this
      ensures state == Bullets.UpdateBullets(old(state), now)
      ensures inputs == old(inputs) && ticking == old(ticking)
    {
      var toRemove := MoveBullets(now);
      RemoveBullets(toRemove);
      Bullets.UpdateBulletsAfterScan(old(state), now);
    }

    /** The first loop of `updateBullets`, over every bullet in order. */
    method MoveBullets(now: int) returns (toRemove: seq<nat>)
      modifies this
      ensures Bullets.Scan(state, toRemove) == Bullets.ScanBullets(old(state), |old(state).bullets|, now)
      ensures inputs == old(inputs) && ticking == old(ticking)
    {
      toRemove := [];
      var i := 0;
      while i < |state.bullets|
        invariant |state.bullets| == |old(state).bullets| && i <= |state.bullets|
        invariant Bullets.Scan(state, toRemove) == Bullets.ScanBullets(old(state), i, now)
        invariant inputs == old(inputs) && ticking == old(ticking)
      {
        Bullets.ScanStep(old(state), i, now);
        toRemove := UpdateBullet(i, toRemove, now);
        i := i + 1;
      }
    }

    /** The body of the first loop of `updateBullets`, for bullet i: move it, then
        record i when the bullet has left the map, touches an obstacle, or hits the
        first player, in roster order, who is not its owner, is alive, is on the
        other team and is closer than 19; that player takes the hit. */
    method UpdateBullet(i: nat, toRemove: seq<nat>, now: int) returns (recorded: seq<nat>)
      requires i < |state.bullets|
      modifies this
      ensures Bullets.Scan(state, recorded) == Bullets.ScanOne(Bullets.Scan(old(state), toRemove), i, now)
      ensures inputs == old(inputs) && ticking == old(ticking)
    {
      recorded := toRemove;
      var bullet := state.bullets[i];
      bullet := bullet.(x := bullet.x + bullet.velocityX, y := bullet.y + bullet.velocityY);
      state := state.(bullets := state.bullets[i := bullet]);
      if bullet.x < 0.0 || bullet.x > MAP_WIDTH || bullet.y < 0.0 || bullet.y > MAP_HEIGHT {
        recorded := recorded + [i];
        return;
      }
      var blocked := CollidesWithObstacle(bullet.x, bullet.y, BULLET_SIZE, state.obstacles);
      if blocked {
        recorded := recorded + [i];
        return;
      }
      var target := TargetOf(bullet);
      if target.Some? {
        recorded := recorded + [i];
        HitPlayer(state.players[target.value].id, now);
      }
    }

    /** The inner `forEach` of `updateBullets`: the first player, in roster order,
        who is not the owner, alive, on the other team and within the hit radius. */
    method TargetOf(bullet: Bullet) returns (target: Option<nat>)
      ensures target == Bullets.FirstTarget(state.players, bullet, 0)
    {
      for j := 0 to |state.players|
        invariant Bullets.FirstTarget(state.players, bullet, 0) == Bullets.FirstTarget(state.players, bullet, j)
      {
        var player := state.players[j];
        if player.id == bullet.ownerId || player.isDead {
          continue;
        }
        if player.team == bullet.team {
          continue;
        }
        if WithinDistance(bullet.x, bullet.y, player.x, player.y, Bullets.HIT_RADIUS) {
          return Some(j);
        }
      }
      return None;
    }

    /** The second loop of `updateBullets`: `splice(index, 1)` for the recorded
        indices from the last to the first. */
    method RemoveBullets(toRemove: seq<nat>)
      modifies this
      ensures state == old(state).(bullets := Bullets.SpliceFrom(old(state).bullets, toRemove, 0))
      ensures inputs == old(inputs) && ticking == old(ticking)
    {
      var k := |toRemove|;
      while k > 0
        invariant 0 <= k <= |toRemove|
        invariant state == old(state).(bullets := Bullets.SpliceFrom(old(state).bullets, toRemove, k))
        invariant inputs == old(inputs) && ticking == old(ticking)
      {
        k := k - 1;
        var at := toRemove[k];
        if at < |state.bullets| {
          state := state.(bullets := state.bullets[..at] + state.bullets[at + 1..]);
        }
      }
    }

    /** `hitPlayer(playerId)`, with the hit time `now`. The source reads the
        player's record without a check, so the player must be in the room. */
    method HitPlayer(id: PlayerId, now: int)
      requires IndexOf(state.players, id).Some?
      modifies this
      ensures state == Rules.HitPlayer(old(state), id, now)
      ensures inputs == old(inputs) && ticking == old(ticking)
    {
      var j := IndexOf(state.players, id).value;
      var player := state.players[j];
      if now - player.lastHit < HIT_STUN_TIME {
        return;
      }
      player := player.(health := player.health - DAMAGE, lastHit := now);
      if player.health <= 0 {
        player := player.(isDead := true, health := 0);
        if player.hasFlag {
          var enemy := Enemy(player.team);
          var flag := state.flags.Get(enemy).(x := player.x, y := player.y, isHome := false, carrier := None);
          state := state.(flags := state.flags.Set(enemy, flag));
          player := player.(hasFlag := false);
        }
      }
      state := state.(players := state.players[j := player]);
    }

    /** `respawnPlayer(playerId)`, the step the respawn timer runs. */
    method RespawnPlayer(id: PlayerId)
      requires Valid()
      modifies this
      ensures Valid()
      ensures state == Rules.RespawnPlayer(old(state), id)
      ensures inputs == old(inputs) && ticking == old(ticking)
    {
      RespawnPlayerKeepsInv(state, id);
      var found := IndexOf(state.players, id);
      if found.None? {
        return;
      }
      var player := state.players[found.value].(isDead := false, health := MAX_HEALTH);
      if player.team == Red {
        player := player.(x := 100.0, y := MAP_HEIGHT / 2.0);
      } else {
        player := player.(x := MAP_WIDTH - 100.0, y := MAP_HEIGHT / 2.0);
      }
      state := state.(players := state.players[found.value := player]);
    }

    /** `checkFlagPickup(player)` for the player at index i. */
    method CheckFlagPickup(i: nat)
      requires i < |state.players|
      modifies this
      ensures state == Rules.CheckFlagPickup(old(state), i)
      ensures inputs == old(inputs) && ticking == old(ticking)
    {
      var player := state.players[i];
      var enemy := Enemy(player.team);
      var flag := state.flags.Get(enemy);
      if flag.carrier.Some? {
        return;
      }
      if player.hasFlag {
        return;
      }
      if WithinDistance(player.x, player.y, flag.x, flag.y, PICKUP_RADIUS) {
        state := state.(flags := state.flags.Set(enemy, flag.(carrier := Some(player.id))));
        state := state.(players := state.players[i := player.(hasFlag := true)]);
      }
    }

    /** `checkFlagCapture(player)` for the player at index i; a winning capture
        ends the game, which stops the loop. */
    method CheckFlagCapture(i: nat)
      requires i < |state.players|
      modifies this
      ensures state == Rules.CheckFlagCapture(old(state), i)
      ensures inputs == old(inputs)
      ensures old(ticking <==> !state.gameOver) ==> (ticking <==> !state.gameOver)
    {
      var player := state.players[i];
      if !player.hasFlag {
        return;
      }
      var homeFlag := state.flags.Get(player.team);
      if WithinDistance(player.x, player.y, homeFlag.x, homeFlag.y, CAPTURE_RADIUS) {
        if homeFlag.isHome {
          player := player.(score := player.score + 1, hasFlag := false);
          state := state.(players := state.players[i := player]);
          ResetFlag(Enemy(player.team));
          if player.score >= SCORE_TO_WIN {
            EndGame(Some(player.id));
          }
        }
      }
    }

    /** `resetFlag(team)`. */
    method ResetFlag(t: Team)
      modifies this
      ensures state == old(state).(flags := Rules.ResetFlag(old(state).flags, t))
      ensures inputs == old(inputs) && ticking == old(ticking)
    {
      var flag := state.flags.Get(t).(isHome := true, carrier := None);
      if t == Red {
        flag := flag.(x := 80.0, y := MAP_HEIGHT / 2.0);
      } else {
        flag := flag.(x := MAP_WIDTH - 80.0, y := MAP_HEIGHT / 2.0);
      }
      state := state.(flags := state.flags.Set(t, flag));
    }

    /** `updateFlagPositions`: the red flag, then the blue one. */
    method UpdateFlagPositions()
      modifies this
      ensures state == Rules.UpdateFlagPositions(old(state))
      ensures inputs == old(inputs) && ticking == old(ticking)
    {
      var teams := [Red, Blue];
      for n := 0 to 2
        invariant n == 0 ==> state == old(state)
        invariant n == 1 ==> state == TrackCarrier(old(state), Red)
        invariant n == 2 ==> state == TrackCarrier(TrackCarrier(old(state), Red), Blue)
        invariant inputs == old(inputs) && ticking == old(ticking)
      {
        var t := teams[n];
        var flag := state.flags.Get(t);
        if flag.carrier.Some? {
          var found := IndexOf(state.players, flag.carrier.value);
          if found.Some? && !state.players[found.value].isDead {
            var carrier := state.players[found.value];
            state := state.(flags := state.flags.Set(t, flag.(x := carrier.x, y := carrier.y - PLAYER_SIZE / 2.0 - 10.0)));
          }
        }
      }
    }

    /** `endGame(winnerId)`: the game is over and the loop stops. Deciding by score
        reads the first two players, so a room without two players cannot end that way. */
    method EndGame(winnerId: Option<PlayerId>)
      requires winnerId.None? ==> |state.players| >= 2
      modifies this
      ensures state == Rules.EndGame(old(state), winnerId)
      ensures !ticking && inputs == old(inputs)
    {
      state := state.(gameOver := true);
      if winnerId.Some? {
        state := state.(winner := Won(winnerId.value));
      } else {
        var ps := state.players;
        if ps[0].score > ps[1].score {
          state := state.(winner := Won(ps[0].id));
        } else if ps[1].score > ps[0].score {
          state := state.(winner := Won(ps[1].id));
        } else {
          state := state.(winner := Tie);
        }
      }
      ticking := false;
    }

    /** `handleDisconnect(playerId)`: the player who stays wins a running game, and
        the loop stops in any case. */
    method HandleDisconnect(id: PlayerId)
      modifies this
      ensures old(Valid()) ==> Valid()
      ensures old(Seats()) ==> Seats()
      ensures state == Rules.HandleDisconnect(old(state), id)
      ensures !ticking && inputs == old(inputs)
    {
      if Inv(state) {
        HandleDisconnectKeepsInv(state, id);
      }
      var other := OtherPlayer(state.players, id, 0);
      if other.Some? && !state.gameOver {
        EndGame(other);
      }
      ticking := false;
    }
  }
}
