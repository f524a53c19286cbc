# Capture-the-flag game server, modelled in Dafny

This project models the authoritative part of a two-player capture-the-flag
server (`server/server.js`). It covers:

- the geometry helpers;
- the initial match state and the fixed map;
- the `GameRoom` class, which runs one match;
- the matchmaking queue that pairs waiting connections into rooms.

The modules follow the source:

| module | file | models |
|---|---|---|
| `Wrappers` | `wrappers.dfy` | `Option`, for absent ids, carriers and lookups |
| `Geometry` | `geometry.dfy` | `checkCollision`, `collidesWithObstacle`, `distance` |
| `Match` | `match.dfy` | `CONFIG`, the entities, `createGameState`, `generateObstacles`, the room invariant `Inv` |
| `Rules` | `rules.dfy` | one pure function per `GameRoom` rule: hit, respawn, pickup, capture, reset, end, flag tracking, shoot, move, disconnect |
| `Bullets` | `bullets.dfy` | `updateBullets`: the move-and-record loop, then the reverse `splice` loop |
| `Tick` | `tick.dfy` | `update`: the time-out test, the player loop, then bullets, then flags |
| `Room` | `room.dfy` | `class GameRoom`: the methods performed in place, field by field, in the source's order |
| `Matchmaking` | `matchmaking.dfy` | the queue and room map of the `joinMatchmaking`, `leaveMatchmaking` and `disconnect` handlers, as `class Lobby` |

The source's functions become Dafny functions. Its methods, which change
`this.state` and `this.inputs` step by step, become methods of
`Room.GameRoom`. Each such method is proved to leave exactly the state that the
pure rule named in its row computes from the old state. The properties the game
promises are proved about those rules, as lemmas and as invariants kept by the
methods.

Modelling decisions:

- Coordinates are exact reals.
- Every `distance(...) < r` is compared as squares: `dx*dx + dy*dy < r*r`.
- The players object is a sequence in insertion order, red first, which is the
  order `Object.entries` gives for these string keys.
- Connection ids are non-empty strings. This is what makes the source's tests
  `if (winnerId)` and `if (flag.carrier)` presence tests.

The model follows the code as written, including where it is looser than one
might expect:

- An obstacle vetoes the whole movement step; there is no per-axis sliding.
- A pickup sets the carrier but leaves `isHome` as it was, so a carried flag can
  still be marked home (`Tick.PickupKeepsHomeMark`).
- Nothing returns a dropped flag; only a capture resets it.
- A capture compares the capturer with the own flag's current position and home
  mark, not with its carrier (`Tick.CaptureWhileOwnFlagCarried`).
- `hitPlayer` does not test `isDead`; the bullet loop filters dead players
  before it calls it.
- The player loop goes on after a winning capture, so a later player of the same
  tick can end the game again and replace the winner
  (`Tick.LaterCaptureReplacesWinner`).

## Model

| member | source | states |
|---|---|---|
| Geometry.CollidesWithObstacle | server/server.js:115-123 | the scan over the obstacles answers true exactly when the centred square overlaps some obstacle |
| Geometry.SquaredComparisonExact | server/server.js:126-128 | for non-negative d and r, `d < r` holds exactly when `d*d < r*r`, so the square-free comparison decides every `distance(...) < r` test |
| Geometry.TouchingEdgesDoNotCollide | server/server.js:107-112 | rectangles that only share an edge do not collide, in either order |
| Geometry.SmallerSquareClear | server/server.js:115-123 | a square nested in a square clear of every obstacle is clear too (a bullet fired from a player's centre starts clear) |
| Geometry.CheckCollision | server/server.js:107-112 | the strict overlap test of two rectangles on both axes; `TouchingEdgesDoNotCollide` states what strictness means |
| Geometry.WithinDistance | server/server.js:126-128 | `distance(...) < r` as a comparison of squares, which `SquaredComparisonExact` shows to be the same test |
| Match.Enemy | server/server.js:352 | the enemy team is the other of the two teams |
| Match.Set | server/server.js:314-318 | replacing one team's flag leaves the other team's flag as it was |
| Match.SpawnPointsClear | server/server.js:91-104 | both spawn points are clear of the seven obstacles |
| Match.GenerateObstacles | server/server.js:91-104 | the seven obstacles: the centre block, four side blocks and two small covers; `SpawnPointsClear` states that they leave both spawn points free |
| Match.SameRosterKeepsBullets | server/server.js:177-193 | replacing players by players with the same ids and teams keeps every bullet owned by a player of its team |
| Match.CreateGameState | server/server.js:45-88 | red at (100, 350) and blue at (1100, 350) with health 100 and score 0; flags home at (80, 350) and (1120, 350); no bullets; the seven obstacles; no winner; and the room invariant holds |
| Rules.IndexOf | server/server.js:178 | the lookup `state.players[id]` finds the player with this id, and fails exactly when no player has it |
| Rules.IndexOfPlayers | server/server.js:45-88 | in a valid state each of the two players is found at their own position |
| Rules.HitPlayer | server/server.js:299-329 | a hit keeps the number of players |
| Rules.HitPlayerSpec | server/server.js:299-329 | inside the 500 ms hit-stun window nothing changes; otherwise only the hit player and the flags change: health drops by 34 and the hit time is now; at zero or below the player is dead with health 0 and no flag, and a carried enemy flag lies where they fell, not home and without carrier |
| Rules.HitPlayerKeepsInv | server/server.js:299-329 | a hit keeps health in [0, 100], death exactly at zero health, and flags only on the living, so the room stays valid |
| Rules.HitStunWindow | server/server.js:303-306 | a second hit less than 500 ms after a hit that landed changes nothing |
| Rules.RespawnPlayer | server/server.js:331-348 | an unknown id changes nothing; otherwise only that player changes: alive, health 100, at (100, 350) for red or (1100, 350) for blue |
| Rules.RespawnPlayerKeepsInv | server/server.js:331-348 | a respawn keeps the room valid |
| Rules.CheckFlagPickup | server/server.js:350-363 | when the enemy flag has no carrier, the player holds no flag and the centres are closer than 27.5, the flag's carrier becomes the player and the player has a flag, the flag keeping its place and home mark; otherwise nothing changes |
| Rules.CheckFlagPickupKeepsInv | server/server.js:350-363 | a pickup by a living player keeps each flag carried by exactly the player who has it |
| Rules.ResetFlag | server/server.js:395-407 | the team's flag is home at (80, 350) or (1120, 350) without carrier; the other flag is untouched |
| Rules.ScoreWinner | server/server.js:426-435 | the strictly higher score wins; equal scores are a tie |
| Rules.EndGame | server/server.js:421-436 | the game is over, with the given winner or else the score winner, and nothing else changes |
| Rules.EndGameKeepsInv | server/server.js:421-436 | ending with one of the two players, or on time, keeps the room valid |
| Rules.CheckFlagCapture | server/server.js:365-393 | unless the player has a flag and is within 40 of their own flag, which is marked home, nothing changes; otherwise the score rises by one, the player drops the flag, the enemy flag is reset home, and at three the game is over with the player as winner |
| Rules.CaptureScore | server/server.js:365-393 | the capture test raises the score by exactly one when the capture conditions hold, and by nothing otherwise |
| Rules.CheckFlagCaptureKeepsInv | server/server.js:365-393 | a capture keeps the room valid |
| Rules.LivingCarrier | server/server.js:409-419 | the carrier found is a living player recorded as the flag's carrier, and none is found only when the flag has no carrier, the carrier is not in the room, or the carrier is dead |
| Rules.TrackCarrier | server/server.js:410-418 | one iteration of the flag loop: a flag with a living carrier is placed 25 above that carrier, any other flag stays; `UpdateFlagPositions` states the result of both iterations |
| Rules.UpdateFlagPositions | server/server.js:409-419 | each flag with a living carrier moves 25 above that carrier; flags keep carrier and home mark; nothing else changes |
| Rules.UpdateFlagPositionsKeepsInv | server/server.js:409-419 | tracking the carriers keeps the room valid |
| Rules.HandleShoot | server/server.js:177-193 | an unknown or dead shooter changes nothing; otherwise exactly one bullet is appended at the shooter's position with the shooter as owner and the shooter's team, and the earlier bullets stay |
| Rules.HandleShootKeepsInv | server/server.js:177-193 | a shot keeps every bullet inside the map, clear of obstacles and owned |
| Rules.ShootChecked | server/server.js:177-193 | the shot with its angle checked first: an angle that is not a number changes nothing, a numeric one fires as `HandleShoot`, and either way a valid room stays valid, so every bullet lies inside the map |
| Rules.Clamp | server/server.js:223-224 | `Math.max(lo, Math.min(hi, v))` lies in [lo, hi], is v inside it and the nearer bound outside it |
| Rules.MoveTarget | server/server.js:216-224 | the target of a step: five per pressed key, up before down and left before right, clamped to [15, 1185] x [15, 685]; `MovePlayerSpec` states its bounds |
| Rules.MovePlayer | server/server.js:212-235 | the target is taken unless it lies inside an obstacle, then the angle follows the input; `MovePlayerSpec` states the contract |
| Rules.MovePlayerSpec | server/server.js:212-235 | only position and angle change; the target is in [15, 1185] x [15, 685]; a target inside an obstacle keeps x and y both; any other target is taken; so a player in the arena and clear of the walls stays so; the angle follows the input when it has one |
| Rules.OtherPlayer | server/server.js:454 | the id found is a different player's, and none is found exactly when every player has the leaving id |
| Rules.HandleDisconnect | server/server.js:452-461 | a game already over, or one with no other player, is unchanged; in a running game the other player wins and the game is over |
| Rules.HandleDisconnectWinner | server/server.js:452-461 | in a valid running room the player who stays wins the forfeit |
| Rules.HandleDisconnectKeepsInv | server/server.js:452-461 | a forfeit keeps the room valid |
| Bullets.AdvanceAll | server/server.js:264-265 | every bullet, in the same order, has moved by exactly its own velocity on each axis, and nothing else about it changes |
| Bullets.FirstTarget | server/server.js:281-290 | the player found is the first in roster order that the bullet can hit, meaning alive, not the owner, of the other team and within 19; none is found exactly when no player can be hit |
| Bullets.ScanOne | server/server.js:260-290 | one iteration of the first loop: move bullet i, record it when out of the map or in an obstacle, else hit the first player it can hit and record it; `ScanOneMoves`, `ScanOneRecords` and `ScanOneTarget` state its effect |
| Bullets.ScanBullets | server/server.js:258-291 | the first loop over bullets 0 to k-1, keeping the number of bullets and players; `ScanBulletsMoves` states what it leaves |
| Bullets.ScanOneMoves | server/server.js:260-291 | one pass step advances bullet i and no other bullet, records at most i, and changes players only in health, hit time, death and flag |
| Bullets.ScanOneRecords | server/server.js:263-290 | bullet i is recorded exactly when, once moved, it is out of the map, overlaps an obstacle, or can hit a player |
| Bullets.ScanOneTarget | server/server.js:281-290 | the only player a bullet changes is the first it can hit, never its owner, a teammate or a dead player |
| Bullets.ScanOneKeepsPlayersInv | server/server.js:281-290 | one step of the bullet loop keeps the player part of the room invariant |
| Bullets.ScanBulletsMoves | server/server.js:258-291 | after k steps, bullets before k are advanced and the rest untouched; recorded indices increase and are below k; only players, flags and bullets change |
| Bullets.ScanKeepsPlayersInv | server/server.js:258-291 | the whole first loop keeps the player part of the room invariant |
| Bullets.ScanSparesDead | server/server.js:282 | with distinct ids the first loop never changes a dead player and keeps every id |
| Bullets.ScanSurvivorsClear | server/server.js:267-278 | a bullet the loop did not record lies inside the map and clear of every obstacle |
| Bullets.Splice | server/server.js:295 | `splice(i, 1)` on an index in range shortens the array by one, removes one occurrence of element i and no other, keeps the elements before i in place and moves those after it down by one; past the end it changes nothing |
| Bullets.SpliceFromKeeps | server/server.js:293-296 | splicing increasing indices from the last to the first removes exactly those elements and keeps the others in order |
| Bullets.KeepFrom | server/server.js:293-296 | every kept bullet comes from an unrecorded position |
| Bullets.UpdateBullets | server/server.js:257-297 | the first loop, then the recorded bullets spliced out from the last to the first; `UpdateBulletsSurvivors` and `UpdateBulletsPlayers` state the result |
| Bullets.UpdateBulletsSurvivors | server/server.js:257-297 | the bullets left are the moved unrecorded bullets in their original order; each moved by exactly its velocity and lies inside [0, 1200] x [0, 700], clear of every obstacle |
| Bullets.UpdateBulletsPlayers | server/server.js:257-297 | the pass changes only players, flags and bullets, players only in health, hit time, death and flag, and never a dead player |
| Bullets.UpdateBulletsKeepsInv | server/server.js:257-297 | the bullet pass keeps the room valid |
| Bullets.RawFire | server/server.js:183-190 | the bullet `handleShoot` builds as written: at the shooter's position, owned by the shooter, with a velocity that is NaN exactly when the angle is |
| Bullets.RawRecordedAgrees | server/server.js:263-290 | on numbers the removal tests as written (`RawRecorded`) record a bullet exactly when the model's tests do, and a move as written is `Advance` |
| Bullets.NaNShotNeverRemoved | server/server.js:263-290 | a bullet shot with an angle that is not a number has NaN coordinates after every move and is never recorded for removal, whatever the players and obstacles |
| Tick.MoveStepKeepsInv | server/server.js:212-235 | moving keeps the mover inside the arena, clear of the walls and with the same flag, so the room stays valid |
| Tick.PlayerStep | server/server.js:209-242 | a dead player is skipped; a step changes only the stepping player, keeps every id, team and death, raises the score by at most one, and keeps bullets, obstacles, start time and the end of the game |
| Tick.MoveStep | server/server.js:212-235 | the step of `movePlayer` for player i with the input buffered for them; `MoveStepKeepsInv` states what it keeps |
| Tick.PlayerStepKeepsInv | server/server.js:209-242 | a player's step keeps the room valid |
| Tick.PlayersPass | server/server.js:209-242 | the loop over the players keeps ids, teams and deaths, leaves dead players as they were, raises each score by at most one, and keeps the room valid |
| Tick.TimeUpExactly | server/server.js:199-203 | `180 - floor((now - startTime) / 1000) <= 0` holds exactly when 180 000 ms have passed |
| Tick.Tick | server/server.js:195-255 | a tick of a game that is over changes nothing; when time is up the game ends by score and nothing else changes |
| Tick.TickKeepsInv | server/server.js:195-255 | a tick keeps the room valid: every living player stays in [15, 1185] x [15, 685] and clear of the walls |
| Tick.TickLeavesDeadPlayers | server/server.js:209-210 | a dead player is exactly as before after a tick |
| Tick.TickScoreStep | server/server.js:195-255 | a tick raises any score by at most one |
| Tick.TickBullets | server/server.js:244-245 | after a running tick every bullet is some earlier bullet moved by its velocity, inside the map and clear of every obstacle |
| Tick.LooseFlagRoom | server/server.js:350-393 | a valid room where each player carries the other's flag and red's flag is still marked home |
| Tick.PickupKeepsHomeMark | server/server.js:359-360 | picking up a flag that is home leaves it marked home while carried |
| Tick.CaptureWhileOwnFlagCarried | server/server.js:369-371 | red scores although blue carries red's flag, because the test reads only the flag's position and home mark |
| Tick.LaterCaptureReplacesWinner | server/server.js:209-242 | a living player who captures a third time becomes the winner even when the game already ended earlier in the tick |
| Room.GameRoom.constructor | server/server.js:131-166 | the new room is valid, seats the two players, holds the initial match state and no inputs, and ticks |
| Room.GameRoom.HandleInput | server/server.js:173-175 | the player's buffered input is replaced and nothing else changes |
| Room.GameRoom.HandleShoot | server/server.js:177-193 | the state becomes that of `Rules.ShootChecked`: an angle that is not a number changes nothing, a numeric one fires as `Rules.HandleShoot`; the room stays valid |
| Room.GameRoom.Update | server/server.js:195-255 | the state becomes that of `Tick.Tick` from the old state and inputs, and the room stays valid: the loop ticks exactly while the game runs |
| Room.GameRoom.UpdatePlayer | server/server.js:209-242 | one iteration of the player loop performs `Tick.PlayerStep` |
| Room.GameRoom.Move | server/server.js:212-235 | the movement performs `Tick.MoveStep` |
| Room.GameRoom.UpdateBullets | server/server.js:257-297 | the two loops perform `Bullets.UpdateBullets` |
| Room.GameRoom.MoveBullets | server/server.js:258-291 | the first loop leaves the state and the recorded indices of `Bullets.ScanBullets` |
| Room.GameRoom.UpdateBullet | server/server.js:260-290 | one iteration of the first loop performs `Bullets.ScanOne` |
| Room.GameRoom.TargetOf | server/server.js:281-290 | the inner player loop finds `Bullets.FirstTarget` |
| Room.GameRoom.RemoveBullets | server/server.js:293-296 | the reverse loop performs `Bullets.SpliceFrom` on the bullets |
| Room.GameRoom.HitPlayer | server/server.js:299-329 | the state becomes that of `Rules.HitPlayer` |
| Room.GameRoom.RespawnPlayer | server/server.js:331-348 | the state becomes that of `Rules.RespawnPlayer` and the room stays valid |
| Room.GameRoom.CheckFlagPickup | server/server.js:350-363 | the state becomes that of `Rules.CheckFlagPickup` |
| Room.GameRoom.CheckFlagCapture | server/server.js:365-393 | the state becomes that of `Rules.CheckFlagCapture`, and a winning capture stops the loop |
| Room.GameRoom.ResetFlag | server/server.js:395-407 | the flags become those of `Rules.ResetFlag` |
| Room.GameRoom.UpdateFlagPositions | server/server.js:409-419 | the loop over red then blue performs `Rules.UpdateFlagPositions` |
| Room.GameRoom.EndGame | server/server.js:421-450 | the state becomes that of `Rules.EndGame` and the loop stops |
| Room.GameRoom.HandleDisconnect | server/server.js:452-461 | the state becomes that of `Rules.HandleDisconnect`, the loop stops, and validity and seats are kept |
| Matchmaking.WithoutSpec | server/server.js:498 | the filter removes every entry with the id, keeps everyone else, never lengthens the queue, and changes nothing when the id is absent |
| Matchmaking.WithoutAppend | server/server.js:498 | filtering a queue made of two parts is filtering each part and joining them in the same order, so the filter keeps the order of the remaining entries |
| Matchmaking.WithoutIdempotent | server/server.js:498 | leaving twice is leaving once |
| Matchmaking.Without | server/server.js:498 | `queue.filter(s => s.id !== id)`; `WithoutSpec` and `WithoutAppend` state what it keeps |
| Matchmaking.Join | server/server.js:469-494 | the queue decision of `joinMatchmaking`: refuse, queue, or pair the first two; `JoinRefused` and `JoinFirstComeFirstServed` state it |
| Matchmaking.JoinRefused | server/server.js:469-476 | a join is refused exactly when the connection is already queued or seated |
| Matchmaking.JoinFirstComeFirstServed | server/server.js:478-493 | with at most one waiting, an accepted join queues the newcomer alone or pairs the one who waited with the newcomer, in that order, leaving the queue empty |
| Matchmaking.SeatPair | server/server.js:484-490 | seating two unseated players in a room under a fresh or reused id keeps every connection in at most one room |
| Matchmaking.UnseatRoom | server/server.js:460 | deleting a room keeps the seats disjoint and frees that room's players |
| Matchmaking.Lobby.constructor | server/server.js:33-37 | the server starts with an empty queue and no rooms |
| Matchmaking.Lobby.IsSeated | server/server.js:474-476 | the loop over the rooms answers whether the connection is seated in one |
| Matchmaking.Lobby.RoomOf | server/server.js:530-535 | the loop over the rooms finds the room whose match has the player, and none exactly when the player is seated nowhere |
| Matchmaking.Lobby.JoinMatchmaking | server/server.js:469-494 | the queue and the rooms become what `Join` says: unchanged when refused, the new queue when queued, and on a pair a fresh room under the drawn id seating the two with the initial match state; the queue stays at most one long and nobody sits twice |
| Matchmaking.Lobby.LeaveMatchmaking | server/server.js:497-500 | the queue is filtered by the id and the rooms are untouched |
| Matchmaking.Lobby.Disconnect | server/server.js:523-536 | the queue is filtered; the player's room, if any, is ended by forfeit and removed; every other room keeps its state, its inputs and its timer; afterwards the player is seated nowhere |
| Matchmaking.Lobby.CloseRoom | server/server.js:452-461 | the found room is ended by forfeit and deleted from the map |
| Matchmaking.Lobby.RemoveRoom | server/server.js:447-449 | the disposal timer deletes the room, if it still exists |

## Left out

- Emitted events: `broadcast`, `socket.emit`, `socket.join` and every message to the clients. They carry no gameplay state.
- The interval timer of the game loop and `clearInterval`. `GameRoom.Update` is one call of `update`, and the `ticking` field records whether the timer is still set.
- The respawn timeout: `GameRoom.RespawnPlayer` is the step it runs, on its own.
- The room-disposal timeout of `endGame`: `Lobby.RemoveRoom` is the step it runs, on its own.
- `Date.now()`: the clock reading is the parameter `now`. `hitPlayer` reads the clock again; the model passes the tick's `now` through.
- `Math.random` ids for rooms and bullets: they are parameters.
- The trigonometry of `handleShoot`: the bullet velocity is a parameter.
- The square root of `distance`: replaced by squared comparisons.
- Floating-point rounding: coordinates are exact reals.
- The queue position reported by `matchmakingJoined`: it is a message only.
- The `playerInput` and `playerShoot` routing handlers: they only look up the room and call `handleInput` or `handleShoot`, which are modelled.
- `lastUpdate`, the `gameLoop` handle, the `matchTime` field (kept in the state but never read), the health-check endpoint and `server.listen`.
- The client (`client/game.js`): rendering and input capture only.
- Rules.HitPlayer: its own contract states only that the number of players is kept; what a hit does is stated by `Rules.HitPlayerSpec`.
- Room.GameRoom.HandleDisconnect: it keeps room validity only when the room was valid; the lobby relies only on the seats it keeps.
- Rules.HandleShoot: it takes a numeric angle. The server passes `data.angle` unchecked, so a missing or non-numeric angle gives a bullet with NaN velocity that no removal test ever records (`Bullets.NaNShotNeverRemoved`); the room's `HandleShoot` refuses such an angle (`Rules.ShootChecked`), and every bullet property of the model holds for that checked shot only.
- Matchmaking.Lobby.Valid: it asks of each room only that its match's players are its two connections. Each room's own validity is kept by the room's methods.

## Findings

| source | as written | input that shows it | evidently intended | confidence | as-written member | corrected member |
|---|---|---|---|---|---|---|
| server/server.js:516 | `playerShoot` passes `data.angle` to `handleShoot` unchecked, and `Math.cos(angle)` and `Math.sin(angle)` make a NaN velocity (lines 188-189); every later comparison with NaN is false, so the bounds test, `checkCollision` and the distance test never record the bullet (lines 268-285) | a `playerShoot` message without `angle`, or with `angle: "x"`, from a living player | a shot whose angle is not a number is refused, so every bullet leaves the map or hits something | not executed | Bullets.NaNShotNeverRemoved | Rules.ShootChecked |
