/**
 * The match state of one room: the configuration constants, the entities
 * (players, flags, bullets, obstacles), the initial state and the invariant
 * every room operation keeps (server/server.js:17-104).
 */
module Match {
  import opened Wrappers
  import opened Geometry

  // The server's CONFIG table (server/server.js:18-31).
  const TICK_RATE: int := 60
  const MAP_WIDTH: real := 1200.0
  const MAP_HEIGHT: real := 700.0
  const PLAYER_SPEED: real := 5.0
  const PLAYER_SIZE: real := 30.0
  const BULLET_SPEED: real := 15.0
  const BULLET_SIZE: real := 8.0
  const FLAG_SIZE: real := 25.0
  const SCORE_TO_WIN: nat := 3
  const MATCH_TIME: int := 180
  const RESPAWN_TIME: int := 2000
  const HIT_STUN_TIME: int := 500

  /** Damage of one bullet and the full health of a player (literals in hitPlayer and respawnPlayer). */
  const DAMAGE: int := 34
  const MAX_HEALTH: int := 100

  /** Delay between the end of a match and the removal of its room. */
  const ROOM_DISPOSAL_DELAY: int := 5000

  datatype Team = Red | Blue

  /** The other team: `team === 'red' ? 'blue' : 'red'`. */
  function Enemy(t: Team): (e: Team)
    ensures e != t
  {
    if t == Red then Blue else Red
  }

  /** Connection ids are never empty; this is what makes `if (winnerId)` and
      `if (flag.carrier)` plain presence tests. */
  type PlayerId = s: string | |s| > 0 witness "p"

  datatype Player = Player(
    id: PlayerId,
    x: real,
    y: real,
    team: Team,
    hasFlag: bool,
    score: nat,
    health: int,
    angle: real,
    velocityX: real,
    velocityY: real,
    isDead: bool,
    lastHit: int)

  datatype Flag = Flag(x: real, y: real, isHome: bool, carrier: Option<PlayerId>)

  /** The two flags of `state.flags`, in the order red, blue. */
  datatype Flags = Flags(red: Flag, blue: Flag)
  {
    function Get(t: Team): Flag
    {
      if t == Red then red else blue
    }

    function Set(t: Team, f: Flag): (r: Flags)
      ensures r.Get(t) == f && r.Get(Enemy(t)) == Get(Enemy(t))
    {
      if t == Red then this.(red := f) else this.(blue := f)
    }
  }

  /** A number as a client may send it: a real value, or NaN, which is what a
      missing or non-numeric shot angle becomes in `Math.cos` and `Math.sin`. */
  datatype JsNumber = Num(v: real) | NaN

  datatype Bullet = Bullet(
    id: string,
    x: real,
    y: real,
    angle: real,
    ownerId: PlayerId,
    team: Team,
    velocityX: real,
    velocityY: real)

  /** `state.winner`: null, a player id, or the string 'tie'. */
  datatype Winner = Undecided | Won(id: PlayerId) | Tie

  /** `state.players` is kept as a sequence in the object's insertion order. */
  datatype GameState = GameState(
    players: seq<Player>,
    flags: Flags,
    bullets: seq<Bullet>,
    obstacles: seq<Rect>,
    startTime: int,
    matchTime: int,
    gameOver: bool,
    winner: Winner)

  /** The latest `playerInput` message of a player; `angle` is absent when the
      message carries none. */
  datatype Input = Input(up: bool, down: bool, left: bool, right: bool, angle: Option<real>)

  /** What `this.inputs[playerId] || {}` yields for a player who sent nothing. */
  const NO_INPUT: Input := Input(false, false, false, false, None)

  /** The vertical middle of the map, where both bases and both flags sit. */
  const MID_Y: real := MAP_HEIGHT / 2.0

  /** x coordinate of a team's spawn point (used at creation and on respawn). */
  function SpawnX(t: Team): real
  {
    if t == Red then 100.0 else MAP_WIDTH - 100.0
  }

  /** x coordinate of a team's flag home. */
  function FlagHomeX(t: Team): real
  {
    if t == Red then 80.0 else MAP_WIDTH - 80.0
  }

  /** A flag standing at its home, uncarried. */
  function HomeFlag(t: Team): Flag
  {
    Flag(FlagHomeX(t), MID_Y, true, None)
  }

  /** The fixed map layout: one centre block, four side blocks and two small covers. */
  function GenerateObstacles(): seq<Rect>
  {
    [ Rect(MAP_WIDTH / 2.0 - 50.0, MAP_HEIGHT / 2.0 - 80.0, 100.0, 160.0),
      Rect(250.0, 150.0, 80.0, 80.0),
      Rect(250.0, MAP_HEIGHT - 230.0, 80.0, 80.0),
      Rect(MAP_WIDTH - 330.0, 150.0, 80.0, 80.0),
      Rect(MAP_WIDTH - 330.0, MAP_HEIGHT - 230.0, 80.0, 80.0),
      Rect(450.0, MAP_HEIGHT / 2.0 - 30.0, 60.0, 60.0),
      Rect(MAP_WIDTH - 510.0, MAP_HEIGHT / 2.0 - 30.0, 60.0, 60.0) ]
  }

  /** Both spawn points are clear of every obstacle, so a fresh or respawned player
      never stands inside a wall. */
  lemma SpawnPointsClear(t: Team)
    ensures !Collides(SpawnX(t), MID_Y, PLAYER_SIZE, GenerateObstacles())
  {
    var obs := GenerateObstacles();
    forall i | 0 <= i < |obs|
      ensures !CheckCollision(CenteredSquare(SpawnX(t), MID_Y, PLAYER_SIZE), obs[i])
    {
    }
  }

  /** A player as created at the start of a match. */
  function NewPlayer(id: PlayerId, t: Team): Player
  {
    Player(id, SpawnX(t), MID_Y, t, false, 0, MAX_HEALTH, 0.0, 0.0, 0.0, false, 0)
  }

  // ---------------------------------------------------------------------------
  // The room invariant

  /** The player's centre keeps half a player's size away from every map edge. */
  predicate InArena(x: real, y: real)
  {
    PLAYER_SIZE / 2.0 <= x <= MAP_WIDTH - PLAYER_SIZE / 2.0 &&
    PLAYER_SIZE / 2.0 <= y <= MAP_HEIGHT - PLAYER_SIZE / 2.0
  }

  /** Health in [0, 100], dead exactly at zero health, only the living carry
      flags, inside the arena and outside every obstacle. */
  predicate PlayerOk(p: Player, obstacles: seq<Rect>)
  {
    && 0 <= p.health <= MAX_HEALTH
    && (p.isDead <==> p.health == 0)
    && (p.hasFlag ==> !p.isDead)
    && InArena(p.x, p.y)
    && !Collides(p.x, p.y, PLAYER_SIZE, obstacles)
  }

  /** The flag carrier recorded for a player's `hasFlag`. */
  function CarrierOf(p: Player): Option<PlayerId>
  {
    if p.hasFlag then Some(p.id) else None
  }

  /** No two players share an id (the keys of the players object). */
  predicate DistinctIds(players: seq<Player>)
  {
    forall a, b :: 0 <= a < b < |players| ==> players[a].id != players[b].id
  }

  /** The bullet was fired by a player of this room, and carries that player's team. */
  predicate OwnedBy(b: Bullet, players: seq<Player>)
  {
    exists i :: 0 <= i < |players| && players[i].id == b.ownerId && players[i].team == b.team
  }

  /** A live bullet lies inside the map, outside every obstacle, and has an owner. */
  predicate BulletOk(b: Bullet, players: seq<Player>, obstacles: seq<Rect>)
  {
    && 0.0 <= b.x <= MAP_WIDTH && 0.0 <= b.y <= MAP_HEIGHT
    && !Collides(b.x, b.y, BULLET_SIZE, obstacles)
    && OwnedBy(b, players)
  }

  /** Everything of the invariant except the bullets: a red and a blue player
      with different ids, the fixed obstacles, each flag carried by exactly the
      enemy player who has it, and a winner exactly once the game is over. */
  predicate PlayersInv(st: GameState)
  {
    && |st.players| == 2
    && st.players[0].team == Red && st.players[1].team == Blue
    && st.players[0].id != st.players[1].id
    && st.obstacles == GenerateObstacles()
    && PlayerOk(st.players[0], st.obstacles)
    && PlayerOk(st.players[1], st.obstacles)
    && st.flags.blue.carrier == CarrierOf(st.players[0])
    && st.flags.red.carrier == CarrierOf(st.players[1])
    && (st.gameOver <==> !st.winner.Undecided?)
    && (st.winner.Won? ==> st.winner.id == st.players[0].id || st.winner.id == st.players[1].id)
  }

  predicate BulletsOk(bullets: seq<Bullet>, players: seq<Player>, obstacles: seq<Rect>)
  {
    forall k :: 0 <= k < |bullets| ==> BulletOk(bullets[k], players, obstacles)
  }

  /** The invariant of a room's state between any two operations. */
  predicate Inv(st: GameState)
  {
    PlayersInv(st) && BulletsOk(st.bullets, st.players, st.obstacles)
  }

  /** Replacing players by others with the same ids and teams keeps every bullet owned. */
  lemma SameRosterKeepsBullets(bullets: seq<Bullet>, ps: seq<Player>, qs: seq<Player>, obstacles: seq<Rect>)
    requires |ps| == |qs|
    requires forall i :: 0 <= i < |ps| ==> qs[i].id == ps[i].id && qs[i].team == ps[i].team
    requires BulletsOk(bullets, ps, obstacles)
    ensures BulletsOk(bullets, qs, obstacles)
  {
    forall k | 0 <= k < |bullets|
      ensures BulletOk(bullets[k], qs, obstacles)
    {
      assert BulletOk(bullets[k], ps, obstacles);
      var i :| 0 <= i < |ps| && ps[i].id == bullets[k].ownerId && ps[i].team == bullets[k].team;
      assert qs[i].id == bullets[k].ownerId && qs[i].team == bullets[k].team;
    }
  }

  /** `createGameState`: player 1 red at its base, player 2 blue at its base,
      both flags home, no bullets, the fixed obstacles, no winner yet. */
  function CreateGameState(p1: PlayerId, p2: PlayerId, now: int): (st: GameState)
    requires p1 != p2
    ensures Inv(st)
    ensures st.players == [NewPlayer(p1, Red), NewPlayer(p2, Blue)]
    ensures st.players[0].x == 100.0 && st.players[1].x == 1100.0
    ensures st.players[0].y == 350.0 && st.players[1].y == 350.0
    ensures st.flags.red == Flag(80.0, 350.0, true, None)
    ensures st.flags.blue == Flag(1120.0, 350.0, true, None)
    ensures st.bullets == [] && !st.gameOver && st.winner == Undecided && st.startTime == now
  {
    SpawnPointsClear(Red);
    SpawnPointsClear(Blue);
    GameState(
      [NewPlayer(p1, Red), NewPlayer(p2, Blue)],
      Flags(HomeFlag(Red), HomeFlag(Blue)),
      [],
      GenerateObstacles(),
      now,
      MATCH_TIME,
      false,
      Undecided)
  }
}
