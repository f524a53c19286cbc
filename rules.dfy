/**
 * The rules of one room, each as a function from the state before to the state
 * after: the GameRoom methods of server/server.js:173-461 without their
 * broadcasts and timers. The class GameRoom (room.dfy) performs the same steps
 * in place and is proved to produce exactly these states.
 */
module Rules {
  import opened Wrappers
  import opened Geometry
  import opened Match

  // ---------------------------------------------------------------------------
  // Looking players up by id

  /** The first index at or after `from` whose player has this id. */
  function IndexFrom(players: seq<Player>, id: PlayerId, from: nat): (r: Option<nat>)
    decreases |players| - from
    ensures r.Some? ==> from <= r.value < |players| && players[r.value].id == id
    ensures r.Some? ==> forall k :: from <= k < r.value ==> players[k].id != id
    ensures r.None? ==> forall k :: from <= k < |players| ==> players[k].id != id
  {
    if from >= |players| then None
    else if players[from].id == id then Some(from)
    else IndexFrom(players, id, from + 1)
  }

  /** `this.state.players[playerId]`: the index of the player with this id. */
  function IndexOf(players: seq<Player>, id: PlayerId): (r: Option<nat>)
    ensures r.Some? ==> r.value < |players| && players[r.value].id == id
    ensures r.None? <==> forall k :: 0 <= k < |players| ==> players[k].id != id
  {
    IndexFrom(players, id, 0)
  }

  /** In a valid state the two players are found at their own positions. */
  lemma IndexOfPlayers(st: GameState)
    requires PlayersInv(st)
    ensures IndexOf(st.players, st.players[0].id) == Some(0)
    ensures IndexOf(st.players, st.players[1].id) == Some(1)
  {
  }

  // ---------------------------------------------------------------------------
  // hitPlayer (server/server.js:299-329)

  /** One hit on the player with this id at time `now`. */
  function HitPlayer(st: GameState, id: PlayerId, now: int): (r: GameState)
    requires IndexOf(st.players, id).Some?
    ensures |r.players| == |st.players|
  {
    var j := IndexOf(st.players, id).value;
    var p := st.players[j];
    if now - p.lastHit < HIT_STUN_TIME then st
    else
      var wounded := p.(health := p.health - DAMAGE, lastHit := now);
      if wounded.health > 0 then st.(players := st.players[j := wounded])
      else
        var dead := wounded.(isDead := true, health := 0);
        if dead.hasFlag then
          var e := Enemy(dead.team);
          var dropped := st.flags.Get(e).(x := dead.x, y := dead.y, isHome := false, carrier := None);
          st.(players := st.players[j := dead.(hasFlag := false)], flags := st.flags.Set(e, dropped))
        else st.(players := st.players[j := dead])
  }

  /** What a hit does: only the hit player and the flags may change; inside the
      hit-stun window nothing changes; otherwise the player loses 34 health and
      records the hit time; at zero or below the player dies with health 0 and a
      carried enemy flag is dropped, not at home, where the player stands. */
  lemma HitPlayerSpec(st: GameState, id: PlayerId, now: int)
    requires IndexOf(st.players, id).Some?
    ensures var r := HitPlayer(st, id, now);
            r == st.(players := r.players, flags := r.flags)
    ensures var r := HitPlayer(st, id, now);
            var j := IndexOf(st.players, id).value;
            forall k :: 0 <= k < |st.players| && k != j ==> r.players[k] == st.players[k]
    ensures var p := st.players[IndexOf(st.players, id).value];
            now - p.lastHit < HIT_STUN_TIME ==> HitPlayer(st, id, now) == st
    ensures var r := HitPlayer(st, id, now);
            var j := IndexOf(st.players, id).value;
            var p := st.players[j];
            var q := r.players[j];
            var killed := p.health - DAMAGE <= 0;
            now - p.lastHit >= HIT_STUN_TIME ==>
              && q == p.(health := q.health, lastHit := now, isDead := q.isDead, hasFlag := q.hasFlag)
              && q.health == (if killed then 0 else p.health - DAMAGE)
              && q.isDead == (p.isDead || killed)
              && q.hasFlag == (p.hasFlag && !killed)
              && r.flags == (if killed && p.hasFlag
                             then st.flags.Set(Enemy(p.team), Flag(p.x, p.y, false, None))
                             else st.flags)
  {
  }

  /** A hit keeps the room invariant: health stays in [0, 100], death happens
      exactly at zero health, and a dead player carries no flag. */
  lemma HitPlayerKeepsInv(st: GameState, id: PlayerId, now: int)
    requires PlayersInv(st) && IndexOf(st.players, id).Some?
    ensures PlayersInv(HitPlayer(st, id, now))
    ensures BulletsOk(st.bullets, st.players, st.obstacles) ==> Inv(HitPlayer(st, id, now))
  {
    var r := HitPlayer(st, id, now);
    HitPlayerSpec(st, id, now);
    if BulletsOk(st.bullets, st.players, st.obstacles) {
      SameRosterKeepsBullets(st.bullets, st.players, r.players, st.obstacles);
    }
  }

  /** Hit-stun: a second hit less than 500 ms after a hit that landed changes nothing. */
  lemma HitStunWindow(st: GameState, id: PlayerId, t1: int, t2: int)
    requires IndexOf(st.players, id).Some?
    requires t1 - st.players[IndexOf(st.players, id).value].lastHit >= HIT_STUN_TIME
    requires t2 - t1 < HIT_STUN_TIME
    ensures IndexOf(HitPlayer(st, id, t1).players, id).Some?
    ensures HitPlayer(HitPlayer(st, id, t1), id, t2) == HitPlayer(st, id, t1)
  {
    var j := IndexOf(st.players, id).value;
    var s1 := HitPlayer(st, id, t1);
    HitPlayerSpec(st, id, t1);
    assert forall k :: 0 <= k < |s1.players| ==> s1.players[k].id == st.players[k].id;
    assert IndexFrom(s1.players, id, 0) == IndexFrom(st.players, id, 0) by {
      IndexFromSameIds(st.players, s1.players, id, 0);
    }
  }

  /** Lookup only depends on the ids. */
  lemma {:induction false} IndexFromSameIds(ps: seq<Player>, qs: seq<Player>, id: PlayerId, from: nat)
    requires |ps| == |qs|
    requires forall k :: 0 <= k < |ps| ==> qs[k].id == ps[k].id
    ensures IndexFrom(qs, id, from) == IndexFrom(ps, id, from)
    decreases |ps| - from
  {
    if from < |ps| && ps[from].id != id {
      IndexFromSameIds(ps, qs, id, from + 1);
    }
  }

  // ---------------------------------------------------------------------------
  // respawnPlayer (server/server.js:331-348)

  /** Respawn: an unknown id changes nothing; otherwise the player is alive again
      with full health at the team's spawn point, and nothing else changes. */
  function RespawnPlayer(st: GameState, id: PlayerId): (r: GameState)
    ensures IndexOf(st.players, id).None? ==> r == st
    ensures IndexOf(st.players, id).Some? ==>
              var j := IndexOf(st.players, id).value;
              var p := st.players[j];
              && r == st.(players := r.players)
              && |r.players| == |st.players|
              && (forall k :: 0 <= k < |st.players| && k != j ==> r.players[k] == st.players[k])
              && !r.players[j].isDead && r.players[j].health == MAX_HEALTH
              && r.players[j].x == (if p.team == Red then 100.0 else 1100.0)
              && r.players[j].y == 350.0
              && r.players[j] == p.(isDead := false, health := MAX_HEALTH, x := r.players[j].x, y := r.players[j].y)
  {
    match IndexOf(st.players, id)
    case None => st
    case Some(j) =>
      var p := st.players[j].(isDead := false, health := MAX_HEALTH);
      var placed := if p.team == Red then p.(x := 100.0, y := MAP_HEIGHT / 2.0)
                    else p.(x := MAP_WIDTH - 100.0, y := MAP_HEIGHT / 2.0);
      st.(players := st.players[j := placed])
  }

  lemma RespawnPlayerKeepsInv(st: GameState, id: PlayerId)
    requires Inv(st)
    ensures Inv(RespawnPlayer(st, id))
  {
    var r := RespawnPlayer(st, id);
    if j :| IndexOf(st.players, id) == Some(j) {
      SpawnPointsClear(st.players[j].team);
      SameRosterKeepsBullets(st.bullets, st.players, r.players, st.obstacles);
    }
  }

  // ---------------------------------------------------------------------------
  // checkFlagPickup (server/server.js:350-363)

  /** Pickup radius: centre distance below half a player plus half a flag (27.5). */
  const PICKUP_RADIUS: real := PLAYER_SIZE / 2.0 + FLAG_SIZE / 2.0

  /** The player may take the enemy flag: it has no carrier, the player holds no
      flag, and the centres are closer than 27.5. */
  predicate CanPickUp(st: GameState, i: nat)
    requires i < |st.players|
  {
    var p := st.players[i];
    var f := st.flags.Get(Enemy(p.team));
    f.carrier.None? && !p.hasFlag && WithinDistance(p.x, p.y, f.x, f.y, PICKUP_RADIUS)
  }

  /** Pickup of the enemy flag: when allowed, the flag's carrier becomes the
      player and the player has a flag; the flag keeps its position and its
      isHome, and nothing else changes. Otherwise nothing changes. */
  function CheckFlagPickup(st: GameState, i: nat): (r: GameState)
    requires i < |st.players|
    ensures !CanPickUp(st, i) ==> r == st
    ensures CanPickUp(st, i) ==>
              var p := st.players[i];
              var e := Enemy(p.team);
              && r == st.(players := r.players, flags := r.flags)
              && r.players == st.players[i := p.(hasFlag := true)]
              && r.flags.Get(e) == st.flags.Get(e).(carrier := Some(p.id))
              && r.flags.Get(p.team) == st.flags.Get(p.team)
  {
    var p := st.players[i];
    var e := Enemy(p.team);
    var f := st.flags.Get(e);
    if f.carrier.Some? then st
    else if p.hasFlag then st
    else if WithinDistance(p.x, p.y, f.x, f.y, PICKUP_RADIUS) then
      st.(players := st.players[i := p.(hasFlag := true)], flags := st.flags.Set(e, f.(carrier := Some(p.id))))
    else st
  }

  lemma CheckFlagPickupKeepsInv(st: GameState, i: nat)
    requires PlayersInv(st) && i < |st.players| && !st.players[i].isDead
    ensures PlayersInv(CheckFlagPickup(st, i))
    ensures BulletsOk(st.bullets, st.players, st.obstacles) ==> Inv(CheckFlagPickup(st, i))
  {
    var r := CheckFlagPickup(st, i);
    if BulletsOk(st.bullets, st.players, st.obstacles) {
      SameRosterKeepsBullets(st.bullets, st.players, r.players, st.obstacles);
    }
  }

  // ---------------------------------------------------------------------------
  // checkFlagCapture, resetFlag, endGame (server/server.js:365-450)

  /** Capture radius: half a player plus a whole flag (40). */
  const CAPTURE_RADIUS: real := PLAYER_SIZE / 2.0 + FLAG_SIZE

  /** `resetFlag(team)`: the team's flag is back home with no carrier. */
  function ResetFlag(flags: Flags, t: Team): (r: Flags)
    ensures r.Get(t) == Flag(FlagHomeX(t), 350.0, true, None)
    ensures r.Get(Enemy(t)) == flags.Get(Enemy(t))
  {
    flags.Set(t, flags.Get(t).(isHome := true, carrier := None, x := FlagHomeX(t), y := MAP_HEIGHT / 2.0))
  }

  /** The winner decided at time-out: the strictly higher capture count, else a tie. */
  function ScoreWinner(players: seq<Player>): (w: Winner)
    requires |players| >= 2
    ensures w.Tie? <==> players[0].score == players[1].score
    ensures w == Won(players[0].id) <== players[0].score > players[1].score
    ensures w == Won(players[1].id) <== players[1].score > players[0].score
  {
    if players[0].score > players[1].score then Won(players[0].id)
    else if players[1].score > players[0].score then Won(players[1].id)
    else Tie
  }

  /** `endGame(winnerId)`: the game is over; the winner is the given player, or
      else decided by the scores; nothing else changes. */
  function EndGame(st: GameState, winnerId: Option<PlayerId>): (r: GameState)
    requires winnerId.None? ==> |st.players| >= 2
    ensures r == st.(gameOver := true, winner := r.winner)
    ensures r.gameOver && !r.winner.Undecided?
    ensures winnerId.Some? ==> r.winner == Won(winnerId.value)
    ensures winnerId.None? ==> r.winner == ScoreWinner(st.players)
  {
    var s := st.(gameOver := true);
    if winnerId.Some? then s.(winner := Won(winnerId.value))
    else s.(winner := ScoreWinner(st.players))
  }

  lemma EndGameKeepsInv(st: GameState, winnerId: Option<PlayerId>)
    requires Inv(st)
    requires winnerId.Some? ==> winnerId.value == st.players[0].id || winnerId.value == st.players[1].id
    ensures Inv(EndGame(st, winnerId))
  {
  }

  /** The player may score: they carry a flag, their own flag is within 40 of
      them where it currently is, and that flag is marked home. */
  predicate CanCapture(st: GameState, i: nat)
    requires i < |st.players|
  {
    var p := st.players[i];
    var home := st.flags.Get(p.team);
    p.hasFlag && WithinDistance(p.x, p.y, home.x, home.y, CAPTURE_RADIUS) && home.isHome
  }

  /** Capture: when allowed, the player's score rises by exactly one, the player
      no longer has a flag, the enemy flag is reset home, and a score of three
      ends the game with this player as winner. Otherwise nothing changes. */
  function CheckFlagCapture(st: GameState, i: nat): (r: GameState)
    requires i < |st.players|
    ensures !CanCapture(st, i) ==> r == st
    ensures CanCapture(st, i) ==>
              var p := st.players[i];
              var scored := p.(score := p.score + 1, hasFlag := false);
              && r.players == st.players[i := scored]
              && r.flags == ResetFlag(st.flags, Enemy(p.team))
              && r.bullets == st.bullets && r.obstacles == st.obstacles
              && r.startTime == st.startTime && r.matchTime == st.matchTime
              && (scored.score >= SCORE_TO_WIN ==> r.gameOver && r.winner == Won(p.id))
              && (scored.score < SCORE_TO_WIN ==> r.gameOver == st.gameOver && r.winner == st.winner)
  {
    var p := st.players[i];
    if !p.hasFlag then st
    else
      var home := st.flags.Get(p.team);
      if WithinDistance(p.x, p.y, home.x, home.y, CAPTURE_RADIUS) then
        if home.isHome then
          var scored := p.(score := p.score + 1, hasFlag := false);
          var s := st.(players := st.players[i := scored]);
          var s' := s.(flags := ResetFlag(s.flags, Enemy(p.team)));
          if scored.score >= SCORE_TO_WIN then EndGame(s', Some(p.id)) else s'
        else st
      else st
  }

  /** The score moves only by a capture, and then by exactly one. */
  lemma CaptureScore(st: GameState, i: nat)
    requires i < |st.players|
    ensures var r := CheckFlagCapture(st, i);
            |r.players| == |st.players| &&
            r.players[i].score == st.players[i].score + (if CanCapture(st, i) then 1 else 0)
  {
  }

  lemma CheckFlagCaptureKeepsInv(st: GameState, i: nat)
    requires PlayersInv(st) && i < |st.players|
    ensures PlayersInv(CheckFlagCapture(st, i))
    ensures BulletsOk(st.bullets, st.players, st.obstacles) ==> Inv(CheckFlagCapture(st, i))
  {
    var r := CheckFlagCapture(st, i);
    if CanCapture(st, i) {
      assert r.players[i].id == st.players[i].id;
    }
    if BulletsOk(st.bullets, st.players, st.obstacles) {
      SameRosterKeepsBullets(st.bullets, st.players, r.players, st.obstacles);
    }
  }

  // ---------------------------------------------------------------------------
  // updateFlagPositions (server/server.js:409-419)

  /** The index of the living player carrying the team's flag, if there is one. */
  function LivingCarrier(st: GameState, t: Team): (r: Option<nat>)
    ensures r.Some? ==> r.value < |st.players| && !st.players[r.value].isDead &&
                        st.flags.Get(t).carrier == Some(st.players[r.value].id)
    ensures r.None? ==> || st.flags.Get(t).carrier.None?
                        || IndexOf(st.players, st.flags.Get(t).carrier.value).None?
                        || st.players[IndexOf(st.players, st.flags.Get(t).carrier.value).value].isDead
  {
    var f := st.flags.Get(t);
    if f.carrier.None? then None
    else match IndexOf(st.players, f.carrier.value)
      case None => None
      case Some(c) => if st.players[c].isDead then None else Some(c)
  }

  /** The flag sits 25 above the centre of its living carrier. */
  function TrackCarrier(st: GameState, t: Team): GameState
  {
    match LivingCarrier(st, t)
    case None => st
    case Some(c) =>
      var p := st.players[c];
      st.(flags := st.flags.Set(t, st.flags.Get(t).(x := p.x, y := p.y - PLAYER_SIZE / 2.0 - 10.0)))
  }

  /** Every flag with a living carrier is moved above that carrier; no flag
      changes its isHome or its carrier, and nothing else changes. */
  function UpdateFlagPositions(st: GameState): (r: GameState)
    ensures r == st.(flags := r.flags)
    ensures forall t: Team ::
              var f := st.flags.Get(t);
              r.flags.Get(t) == match LivingCarrier(st, t)
                                case Some(c) => f.(x := st.players[c].x, y := st.players[c].y - 25.0)
                                case None => f
  {
    var s := TrackCarrier(st, Red);
    assert LivingCarrier(s, Blue) == LivingCarrier(st, Blue);
    TrackCarrier(s, Blue)
  }

  lemma UpdateFlagPositionsKeepsInv(st: GameState)
    requires Inv(st)
    ensures Inv(UpdateFlagPositions(st))
  {
    var r := UpdateFlagPositions(st);
    assert r.flags.Get(Red).carrier == st.flags.Get(Red).carrier;
    assert r.flags.Get(Blue).carrier == st.flags.Get(Blue).carrier;
  }

  // ---------------------------------------------------------------------------
  // handleShoot (server/server.js:177-193)

  /** A shot: an unknown or dead shooter changes nothing; otherwise exactly one
      bullet is appended at the shooter's position, owned by the shooter and of
      the shooter's team, and every earlier bullet stays as it was. */
  function HandleShoot(st: GameState, id: PlayerId, angle: real, bulletId: string, vx: real, vy: real): (r: GameState)
    ensures IndexOf(st.players, id).None? ==> r == st
    ensures IndexOf(st.players, id).Some? && st.players[IndexOf(st.players, id).value].isDead ==> r == st
    ensures IndexOf(st.players, id).Some? && !st.players[IndexOf(st.players, id).value].isDead ==>
              var p := st.players[IndexOf(st.players, id).value];
              && r == st.(bullets := r.bullets)
              && |r.bullets| == |st.bullets| + 1
              && r.bullets[..|st.bullets|] == st.bullets
              && var b := r.bullets[|st.bullets|];
                 b.x == p.x && b.y == p.y && b.ownerId == id && b.team == p.team &&
                 b == Bullet(bulletId, p.x, p.y, angle, id, p.team, vx, vy)
  {
    match IndexOf(st.players, id)
    case None => st
    case Some(j) =>
      var p := st.players[j];
      if p.isDead then st
      else st.(bullets := st.bullets + [Bullet(bulletId, p.x, p.y, angle, id, p.team, vx, vy)])
  }

  lemma HandleShootKeepsInv(st: GameState, id: PlayerId, angle: real, bulletId: string, vx: real, vy: real)
    requires Inv(st)
    ensures Inv(HandleShoot(st, id, angle, bulletId, vx, vy))
  {
    var r := HandleShoot(st, id, angle, bulletId, vx, vy);
    if j :| IndexOf(st.players, id) == Some(j) && !st.players[j].isDead {
      var p := st.players[j];
      SmallerSquareClear(p.x, p.y, BULLET_SIZE, PLAYER_SIZE, st.obstacles);
      var b := r.bullets[|st.bullets|];
      assert OwnedBy(b, st.players) by {
        assert st.players[j].id == b.ownerId && st.players[j].team == b.team;
      }
      forall k | 0 <= k < |r.bullets|
        ensures BulletOk(r.bullets[k], r.players, r.obstacles)
      {
        if k < |st.bullets| {
          assert r.bullets[k] == st.bullets[k];
        }
      }
    }
  }

  /** A shot whose angle is checked first: an angle that is not a number is
      refused, and a numeric one fires as `HandleShoot` does, so every bullet of
      a valid room keeps lying inside the map and clear of the obstacles. `vx`
      and `vy` are the velocity the numeric angle gives. */
  function ShootChecked(st: GameState, id: PlayerId, angle: JsNumber, bulletId: string, vx: real, vy: real): (r: GameState)
    ensures angle.NaN? ==> r == st
    ensures angle.Num? ==> r == HandleShoot(st, id, angle.v, bulletId, vx, vy)
    ensures Inv(st) ==> Inv(r)
  {
    if angle.NaN? then st
    else
      var r := HandleShoot(st, id, angle.v, bulletId, vx, vy);
      assert Inv(st) ==> Inv(r) by {
        if Inv(st) {
          HandleShootKeepsInv(st, id, angle.v, bulletId, vx, vy);
        }
      }
      r
  }

  // ---------------------------------------------------------------------------
  // Movement (server/server.js:212-235)

  function Min(a: real, b: real): real
  {
    if a < b then a else b
  }

  function Max(a: real, b: real): real
  {
    if a > b then a else b
  }

  /** `Math.max(lo, Math.min(hi, v))`. */
  function Clamp(v: real, lo: real, hi: real): (r: real)
    requires lo <= hi
    ensures lo <= r <= hi
    ensures lo <= v <= hi ==> r == v
    ensures v < lo ==> r == lo
    ensures v > hi ==> r == hi
  {
    Max(lo, Min(hi, v))
  }

  /** Where the input asks to go: one step of 5 per pressed key, then clamped to the arena. */
  function MoveTarget(p: Player, input: Input): (real, real)
  {
    var y1 := if input.up then p.y - PLAYER_SPEED else p.y;
    var y2 := if input.down then y1 + PLAYER_SPEED else y1;
    var x1 := if input.left then p.x - PLAYER_SPEED else p.x;
    var x2 := if input.right then x1 + PLAYER_SPEED else x1;
    (Clamp(x2, PLAYER_SIZE / 2.0, MAP_WIDTH - PLAYER_SIZE / 2.0),
     Clamp(y2, PLAYER_SIZE / 2.0, MAP_HEIGHT - PLAYER_SIZE / 2.0))
  }

  /** A living player's move: the clamped target is taken whole unless the player
      would overlap an obstacle there; then the aim angle follows the input. */
  function MovePlayer(p: Player, input: Input, obstacles: seq<Rect>): Player
  {
    var (tx, ty) := MoveTarget(p, input);
    var moved := if !Collides(tx, ty, PLAYER_SIZE, obstacles) then p.(x := tx, y := ty) else p;
    if input.angle.Some? then moved.(angle := input.angle.value) else moved
  }

  /** Only the position and the angle change; the target lies in the arena; a
      target inside an obstacle vetoes the whole step (x and y both stay), any
      other target is taken; so a player in the arena and clear of the walls stays
      so; and the angle is the input's when it has one. */
  lemma MovePlayerSpec(p: Player, input: Input, obstacles: seq<Rect>)
    ensures var q := MovePlayer(p, input, obstacles);
            var (tx, ty) := MoveTarget(p, input);
            && q == p.(x := q.x, y := q.y, angle := q.angle)
            && InArena(tx, ty)
            && (Collides(tx, ty, PLAYER_SIZE, obstacles) ==> q.x == p.x && q.y == p.y)
            && (!Collides(tx, ty, PLAYER_SIZE, obstacles) ==> q.x == tx && q.y == ty)
            && (InArena(p.x, p.y) ==> InArena(q.x, q.y))
            && (!Collides(p.x, p.y, PLAYER_SIZE, obstacles) ==> !Collides(q.x, q.y, PLAYER_SIZE, obstacles))
            && q.angle == if input.angle.Some? then input.angle.value else p.angle
  {
  }

  // ---------------------------------------------------------------------------
  // handleDisconnect (server/server.js:452-461)

  /** `Object.keys(players).find(id => id !== playerId)`. */
  function OtherPlayer(players: seq<Player>, id: PlayerId, from: nat): (r: Option<PlayerId>)
    decreases |players| - from
    ensures r.Some? ==> r.value != id && exists k :: from <= k < |players| && players[k].id == r.value
    ensures r.None? <==> forall k :: from <= k < |players| ==> players[k].id == id
  {
    if from >= |players| then None
    else if players[from].id != id then Some(players[from].id)
    else OtherPlayer(players, id, from + 1)
  }

  /** A disconnect of `id` ends a running game with the other player as winner;
      a game already over, or one with no other player, is left as it is. */
  function HandleDisconnect(st: GameState, id: PlayerId): (r: GameState)
    ensures st.gameOver || OtherPlayer(st.players, id, 0).None? ==> r == st
    ensures !st.gameOver && OtherPlayer(st.players, id, 0).Some? ==>
              r == st.(gameOver := true, winner := Won(OtherPlayer(st.players, id, 0).value))
  {
    var other := OtherPlayer(st.players, id, 0);
    if other.Some? && !st.gameOver then EndGame(st, other) else st
  }

  /** In a valid room the winner by forfeit is the player who stayed. */
  lemma HandleDisconnectWinner(st: GameState, i: nat)
    requires PlayersInv(st) && !st.gameOver && i < 2
    ensures HandleDisconnect(st, st.players[i].id).winner == Won(st.players[1 - i].id)
    ensures HandleDisconnect(st, st.players[i].id).gameOver
  {
    var other := OtherPlayer(st.players, st.players[i].id, 0);
    assert other.Some?;
  }

  lemma HandleDisconnectKeepsInv(st: GameState, id: PlayerId)
    requires Inv(st)
    ensures Inv(HandleDisconnect(st, id))
  {
    var other := OtherPlayer(st.players, id, 0);
    if other.Some? && !st.gameOver {
      EndGameKeepsInv(st, other);
    }
  }
}
