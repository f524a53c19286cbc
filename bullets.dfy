/**
 * The bullet pass of a tick, `updateBullets` (server/server.js:257-297): every
 * bullet is moved in place by its velocity and its index is recorded when it
 * leaves the map, enters an obstacle or hits the first eligible player; then
 * the recorded indices are spliced out from the last to the first.
 */
module Bullets {
  import opened Wrappers
  import opened Geometry
  import opened Match
  import opened Rules

  /** The bullet one tick later. */
  function Advance(b: Bullet): Bullet
  {
    b.(x := b.x + b.velocityX, y := b.y + b.velocityY)
  }

  /** Every bullet one tick later, in the same order: each has moved by exactly
      its velocity, and nothing else about it has changed. */
  function AdvanceAll(bs: seq<Bullet>): (r: seq<Bullet>)
    ensures |r| == |bs|
    ensures forall i :: 0 <= i < |bs| ==>
              && r[i].x - bs[i].x == bs[i].velocityX
              && r[i].y - bs[i].y == bs[i].velocityY
              && r[i] == bs[i].(x := r[i].x, y := r[i].y)
  {
    seq(|bs|, i requires 0 <= i < |bs| => Advance(bs[i]))
  }

  predicate OutOfBounds(b: Bullet)
  {
    b.x < 0.0 || b.x > MAP_WIDTH || b.y < 0.0 || b.y > MAP_HEIGHT
  }

  /** Hit radius: half a player plus half a bullet (19). */
  const HIT_RADIUS: real := PLAYER_SIZE / 2.0 + BULLET_SIZE / 2.0

  /** A bullet can hit a player who is not its owner, is alive, is on the other
      team, and whose centre is closer than 19. */
  predicate CanHit(p: Player, b: Bullet)
  {
    p.id != b.ownerId && !p.isDead && p.team != b.team &&
    WithinDistance(b.x, b.y, p.x, p.y, HIT_RADIUS)
  }

  /** The first player, in iteration order from `from`, that the bullet can hit. */
  function FirstTarget(players: seq<Player>, b: Bullet, from: nat): (r: Option<nat>)
    decreases |players| - from
    ensures r.Some? ==> from <= r.value < |players| && CanHit(players[r.value], b)
    ensures r.Some? ==> forall k :: from <= k < r.value ==> !CanHit(players[k], b)
    ensures r.None? <==> forall k :: from <= k < |players| ==> !CanHit(players[k], b)
  {
    if from >= |players| then None
    else if CanHit(players[from], b) then Some(from)
    else FirstTarget(players, b, from + 1)
  }

  /** The state of the pass after some bullets: the room state (with the bullets
      seen so far already moved) and the indices recorded for removal. */
  datatype Scan = Scan(state: GameState, toRemove: seq<nat>)

  /** q is p after a hit: only health, hit time, death and flag may differ. */
  predicate Wounded(p: Player, q: Player)
  {
    q == p.(health := q.health, lastHit := q.lastHit, isDead := q.isDead, hasFlag := q.hasFlag)
  }

  /** Every player who was dead in ps is exactly the same in qs. */
  predicate SparesDead(ps: seq<Player>, qs: seq<Player>)
    requires |ps| == |qs|
  {
    forall j :: 0 <= j < |ps| && ps[j].isDead ==> qs[j] == ps[j]
  }

  /** One iteration of the first loop, for bullet i: move it, then record it for
      removal when it is out of the map, touches an obstacle, or hits a player;
      the hit goes to the first player the bullet can hit. */
  function ScanOne(sc: Scan, i: nat, now: int): (r: Scan)
    requires i < |sc.state.bullets|
    ensures |r.state.bullets| == |sc.state.bullets| && |r.state.players| == |sc.state.players|
  {
    var st := sc.state;
    var b := Advance(st.bullets[i]);
    var s := st.(bullets := st.bullets[i := b]);
    if OutOfBounds(b) then Scan(s, sc.toRemove + [i])
    else if Collides(b.x, b.y, BULLET_SIZE, s.obstacles) then Scan(s, sc.toRemove + [i])
    else match FirstTarget(s.players, b, 0)
      case None => Scan(s, sc.toRemove)
      case Some(j) => Scan(HitPlayer(s, s.players[j].id, now), sc.toRemove + [i])
  }

  /** One iteration moves bullet i and nothing else among the bullets, records
      at most i, and changes players only in health, hit time, death and flag. */
  lemma ScanOneMoves(sc: Scan, i: nat, now: int)
    requires i < |sc.state.bullets|
    ensures var r := ScanOne(sc, i, now);
            && r.state.bullets == sc.state.bullets[i := Advance(sc.state.bullets[i])]
            && r.state == sc.state.(players := r.state.players, flags := r.state.flags, bullets := r.state.bullets)
            && (r.toRemove == sc.toRemove || r.toRemove == sc.toRemove + [i])
            && (forall k :: 0 <= k < |sc.state.players| ==> Wounded(sc.state.players[k], r.state.players[k]))
  {
    var b := Advance(sc.state.bullets[i]);
    var s := sc.state.(bullets := sc.state.bullets[i := b]);
    if !OutOfBounds(b) && !Collides(b.x, b.y, BULLET_SIZE, s.obstacles) {
      match FirstTarget(s.players, b, 0)
      case None =>
      case Some(j) =>
        var r := HitPlayer(s, s.players[j].id, now);
        HitPlayerSpec(s, s.players[j].id, now);
        assert forall k :: 0 <= k < |s.players| ==> Wounded(s.players[k], r.players[k]);
    }
  }

  /** Bullet i is recorded exactly when, once moved, it is out of the map,
      touches an obstacle, or can hit some player. */
  lemma ScanOneRecords(sc: Scan, i: nat, now: int)
    requires i < |sc.state.bullets|
    ensures var b := Advance(sc.state.bullets[i]);
            ScanOne(sc, i, now).toRemove == sc.toRemove + [i] <==>
              OutOfBounds(b) || Collides(b.x, b.y, BULLET_SIZE, sc.state.obstacles) ||
              exists k :: 0 <= k < |sc.state.players| && CanHit(sc.state.players[k], b)
  {
    var r := ScanOne(sc, i, now);
    assert r.toRemove == sc.toRemove + [i] || r.toRemove == sc.toRemove;
    assert |sc.toRemove + [i]| != |sc.toRemove|;
  }

  /** With distinct ids, the only player a bullet changes is the first one, in
      roster order, that it can hit; so a dead player is never changed. */
  lemma ScanOneTarget(sc: Scan, i: nat, now: int)
    requires i < |sc.state.bullets| && DistinctIds(sc.state.players)
    ensures var r := ScanOne(sc, i, now);
            var ps := sc.state.players;
            var b := Advance(sc.state.bullets[i]);
            && (forall k :: 0 <= k < |ps| && r.state.players[k] != ps[k] ==>
                  FirstTarget(ps, b, 0) == Some(k) && CanHit(ps[k], b))
            && SparesDead(ps, r.state.players)
            && (forall k :: 0 <= k < |ps| ==> r.state.players[k].id == ps[k].id)
  {
    var b := Advance(sc.state.bullets[i]);
    var s := sc.state.(bullets := sc.state.bullets[i := b]);
    if !OutOfBounds(b) && !Collides(b.x, b.y, BULLET_SIZE, s.obstacles) {
      match FirstTarget(s.players, b, 0)
      case None =>
      case Some(j) =>
        assert IndexOf(s.players, s.players[j].id) == Some(j);
        HitPlayerSpec(s, s.players[j].id, now);
    }
  }

  /** One iteration keeps the room invariant on players: a hit does. */
  lemma ScanOneKeepsPlayersInv(sc: Scan, i: nat, now: int)
    requires i < |sc.state.bullets| && PlayersInv(sc.state)
    ensures PlayersInv(ScanOne(sc, i, now).state)
  {
    var b := Advance(sc.state.bullets[i]);
    var s := sc.state.(bullets := sc.state.bullets[i := b]);
    if !OutOfBounds(b) && !Collides(b.x, b.y, BULLET_SIZE, s.obstacles) {
      match FirstTarget(s.players, b, 0)
      case None =>
      case Some(j) =>
        HitPlayerKeepsInv(s, s.players[j].id, now);
    }
  }

  /** The indices strictly increase. */
  predicate Increasing(s: seq<nat>)
  {
    forall a, b :: 0 <= a < b < |s| ==> s[a] < s[b]
  }

  /** The first loop over bullets 0 .. k-1. */
  function ScanBullets(st: GameState, k: nat, now: int): (r: Scan)
    requires k <= |st.bullets|
    decreases k
    ensures |r.state.bullets| == |st.bullets| && |r.state.players| == |st.players|
  {
    if k == 0 then Scan(st, []) else ScanOne(ScanBullets(st, k - 1, now), k - 1, now)
  }

  /** The scan of k + 1 bullets is the scan of k followed by bullet k. */
  lemma ScanStep(st: GameState, k: nat, now: int)
    requires k < |st.bullets|
    ensures ScanBullets(st, k + 1, now) == ScanOne(ScanBullets(st, k, now), k, now)
  {
  }

  /** What the first k iterations leave in `r`: bullets 0 .. k-1 are moved and
      the rest untouched; the recorded indices increase and are below k; only
      players, flags and bullets differ from `st`, and players only in health,
      hit time, death and flag. */
  predicate Scanned(st: GameState, k: nat, r: Scan)
  {
    && k <= |st.bullets| && |r.state.bullets| == |st.bullets| && |r.state.players| == |st.players|
    && (forall i :: 0 <= i < k ==> r.state.bullets[i] == Advance(st.bullets[i]))
    && (forall i :: k <= i < |st.bullets| ==> r.state.bullets[i] == st.bullets[i])
    && Increasing(r.toRemove) && (forall j :: 0 <= j < |r.toRemove| ==> r.toRemove[j] < k)
    && r.state == st.(players := r.state.players, flags := r.state.flags, bullets := r.state.bullets)
    && (forall j :: 0 <= j < |st.players| ==> Wounded(st.players[j], r.state.players[j]))
  }

  /** Iteration k takes the state left by the first k iterations to the state
      the first k + 1 leave. */
  lemma ScannedStep(st: GameState, k: nat, sc: Scan, now: int)
    requires 0 < k <= |st.bullets| && Scanned(st, k - 1, sc)
    ensures Scanned(st, k, ScanOne(sc, k - 1, now))
  {
    ScanOneMoves(sc, k - 1, now);
  }

  /** A scan equal to one left by k iterations is one left by k iterations. */
  lemma ScannedOfEqual(st: GameState, k: nat, a: Scan, b: Scan)
    requires a == b && Scanned(st, k, a)
    ensures Scanned(st, k, b)
  {
  }

  /** The first loop over bullets 0 .. k-1 leaves what `Scanned` describes. */
  lemma {:induction false} ScanBulletsMoves(st: GameState, k: nat, now: int)
    requires k <= |st.bullets|
    ensures Scanned(st, k, ScanBullets(st, k, now))
  {
    if k > 0 {
      var sc := ScanBullets(st, k - 1, now);
      ScanBulletsMoves(st, k - 1, now);
      ScannedStep(st, k, sc, now);
      ScanStep(st, k - 1, now);
      assert ScanBullets(st, k, now) == ScanOne(sc, k - 1, now);
      ScannedOfEqual(st, k, ScanOne(sc, k - 1, now), ScanBullets(st, k, now));
    }
  }

  /** The scan keeps the room invariant on players. */
  lemma {:induction false} ScanKeepsPlayersInv(st: GameState, k: nat, now: int)
    requires k <= |st.bullets| && PlayersInv(st)
    ensures PlayersInv(ScanBullets(st, k, now).state)
  {
    if k > 0 {
      var sc := ScanBullets(st, k - 1, now);
      ScanKeepsPlayersInv(st, k - 1, now);
      ScanOneKeepsPlayersInv(sc, k - 1, now);
      ScanStep(st, k - 1, now);
      PlayersInvOfEqual(ScanOne(sc, k - 1, now).state, ScanBullets(st, k, now).state);
    }
  }

  /** The invariant carries over to an equal state. */
  lemma PlayersInvOfEqual(a: GameState, b: GameState)
    requires a == b && PlayersInv(a)
    ensures PlayersInv(b)
  {
  }

  /** Compared with `ps`, the players `qs` have the same ids in the same order,
      and every dead one is unchanged. */
  predicate Spared(ps: seq<Player>, qs: seq<Player>)
  {
    && |qs| == |ps|
    && SparesDead(ps, qs)
    && (forall j :: 0 <= j < |ps| ==> qs[j].id == ps[j].id)
  }

  /** With distinct ids, one more iteration keeps the dead players spared. */
  lemma SparedStep(ps: seq<Player>, sc: Scan, i: nat, now: int)
    requires i < |sc.state.bullets| && DistinctIds(ps) && Spared(ps, sc.state.players)
    ensures Spared(ps, ScanOne(sc, i, now).state.players)
  {
    SameIdsDistinct(ps, sc.state.players);
    ScanOneTarget(sc, i, now);
  }

  /** Players equal to spared ones are spared. */
  lemma SparedOfEqual(ps: seq<Player>, qs: seq<Player>, rs: seq<Player>)
    requires qs == rs && Spared(ps, qs)
    ensures Spared(ps, rs)
  {
  }

  /** With distinct ids, the scan never changes a dead player. */
  lemma {:induction false} ScanSparesDead(st: GameState, k: nat, now: int)
    requires k <= |st.bullets| && DistinctIds(st.players)
    ensures Spared(st.players, ScanBullets(st, k, now).state.players)
  {
    if k > 0 {
      var sc := ScanBullets(st, k - 1, now);
      ScanSparesDead(st, k - 1, now);
      SparedStep(st.players, sc, k - 1, now);
      ScanStep(st, k - 1, now);
      SparedOfEqual(st.players, ScanOne(sc, k - 1, now).state.players, ScanBullets(st, k, now).state.players);
    }
  }

  /** Players with the same ids in the same order have distinct ids alike. */
  lemma SameIdsDistinct(ps: seq<Player>, qs: seq<Player>)
    requires |ps| == |qs| && DistinctIds(ps)
    requires forall j :: 0 <= j < |ps| ==> qs[j].id == ps[j].id
    ensures DistinctIds(qs)
  {
  }

  /** A bullet the scan did not record lies inside the map and outside every
      obstacle. */
  lemma {:induction false} ScanSurvivorsClear(st: GameState, k: nat, now: int, i: nat)
    requires k <= |st.bullets|
    requires i < k && i !in ScanBullets(st, k, now).toRemove
    ensures var b := ScanBullets(st, k, now).state.bullets[i];
            !OutOfBounds(b) && !Collides(b.x, b.y, BULLET_SIZE, st.obstacles)
  {
    var sc := ScanBullets(st, k - 1, now);
    ScanBulletsMoves(st, k - 1, now);
    ScanOneMoves(sc, k - 1, now);
    ScanOneRecords(sc, k - 1, now);
    if i < k - 1 {
      assert i !in sc.toRemove;
      ScanSurvivorsClear(st, k - 1, now, i);
    }
  }

  // ---------------------------------------------------------------------------
  // The second loop: splicing out the recorded indices from last to first

  /** `array.splice(i, 1)`: removes element i, or nothing when i is past the end.
      The elements before i keep their positions, those after move down by one,
      and exactly one occurrence of s[i] is gone. */
  function Splice<T>(s: seq<T>, i: nat): (r: seq<T>)
    ensures i < |s| ==>
              && |r| == |s| - 1
              && multiset(r) + multiset{s[i]} == multiset(s)
              && (forall k :: 0 <= k < i ==> r[k] == s[k])
              && (forall k :: i <= k < |r| ==> r[k] == s[k + 1])
    ensures i >= |s| ==> r == s
  {
    if i < |s| then
      assert s == s[..i] + [s[i]] + s[i + 1..];
      s[..i] + s[i + 1..]
    else s
  }

  /** Splicing idx[|idx|-1], then idx[|idx|-2], ..., down to idx[k]. */
  function SpliceFrom<T>(s: seq<T>, idx: seq<nat>, k: nat): seq<T>
    decreases |idx| - k
  {
    if k >= |idx| then s else Splice(SpliceFrom(s, idx, k + 1), idx[k])
  }

  /** The elements of s from position lo on whose positions are not in idx, in order. */
  function Keep<T>(s: seq<T>, idx: seq<nat>, lo: nat): seq<T>
    decreases |s| - lo
  {
    if lo >= |s| then [] else (if lo in idx then [] else [s[lo]]) + Keep(s, idx, lo + 1)
  }

  lemma {:induction false} KeepUntouched<T>(s: seq<T>, idx: seq<nat>, lo: nat, hi: nat)
    requires lo <= hi <= |s|
    requires forall j :: lo <= j < hi ==> j !in idx
    ensures Keep(s, idx, lo) == s[lo..hi] + Keep(s, idx, hi)
    decreases hi - lo
  {
    if lo < hi {
      assert lo !in idx;
      assert Keep(s, idx, lo) == [s[lo]] + Keep(s, idx, lo + 1);
      KeepUntouched(s, idx, lo + 1, hi);
      assert s[lo..hi] == [s[lo]] + s[lo + 1..hi];
    } else {
      assert s[lo..hi] == [];
    }
  }

  lemma {:induction false} KeepAgree<T>(s: seq<T>, i1: seq<nat>, i2: seq<nat>, lo: nat)
    requires forall j :: lo <= j < |s| ==> (j in i1 <==> j in i2)
    ensures Keep(s, i1, lo) == Keep(s, i2, lo)
    decreases |s| - lo
  {
    if lo < |s| {
      KeepAgree(s, i1, i2, lo + 1);
    }
  }

  /** Keeping all but `rest`, all of whose positions lie after m, and then
      splicing out position m, keeps the elements before m and the kept ones after. */
  lemma SpliceKeepLeft<T>(s: seq<T>, rest: seq<nat>, m: nat)
    requires m < |s| && forall j :: 0 <= j < |rest| ==> rest[j] > m
    ensures Splice(Keep(s, rest, 0), m) == s[..m] + Keep(s, rest, m + 1)
  {
    assert m !in rest;
    KeepUntouched(s, rest, 0, m);
    assert Keep(s, rest, m) == [s[m]] + Keep(s, rest, m + 1);
    var kept := Keep(s, rest, 0);
    assert kept == s[..m] + [s[m]] + Keep(s, rest, m + 1) by {
      assert s[0..m] == s[..m];
    }
    assert kept[..m] == s[..m];
    assert kept[m + 1..] == Keep(s, rest, m + 1);
  }

  /** Keeping all but m and `rest` keeps the elements before m and the kept ones after. */
  lemma SpliceKeepRight<T>(s: seq<T>, rest: seq<nat>, m: nat)
    requires m < |s| && forall j :: 0 <= j < |rest| ==> rest[j] > m
    ensures Keep(s, [m] + rest, 0) == s[..m] + Keep(s, rest, m + 1)
  {
    var all := [m] + rest;
    assert forall j :: 0 <= j < m ==> j !in all;
    KeepUntouched(s, all, 0, m);
    assert s[0..m] == s[..m];
    assert m in all;
    assert Keep(s, all, m) == Keep(s, all, m + 1);
    assert forall j :: m + 1 <= j < |s| ==> (j in all <==> j in rest);
    KeepAgree(s, all, rest, m + 1);
  }

  /** Splicing out increasing indices from the last to the first removes exactly
      the elements at those indices and keeps the others in their order. */
  lemma {:induction false} SpliceFromKeeps<T>(s: seq<T>, idx: seq<nat>, k: nat)
    requires Increasing(idx) && forall j :: 0 <= j < |idx| ==> idx[j] < |s|
    requires k <= |idx|
    ensures SpliceFrom(s, idx, k) == Keep(s, idx[k..], 0)
    decreases |idx| - k
  {
    if k == |idx| {
      KeepUntouched(s, idx[k..], 0, |s|);
      assert s[0..|s|] == s;
    } else {
      SpliceFromKeeps(s, idx, k + 1);
      var m, rest := idx[k], idx[k + 1..];
      assert forall j :: 0 <= j < |rest| ==> rest[j] == idx[k + 1 + j];
      SpliceKeepLeft(s, rest, m);
      SpliceKeepRight(s, rest, m);
      assert idx[k..] == [m] + rest;
    }
  }

  /** Every kept element comes from a position not in idx. */
  lemma {:induction false} KeepFrom<T>(s: seq<T>, idx: seq<nat>, lo: nat, x: T)
    requires x in Keep(s, idx, lo)
    ensures exists j :: lo <= j < |s| && j !in idx && s[j] == x
    decreases |s| - lo
  {
    if lo < |s| {
      if !(lo !in idx && s[lo] == x) {
        KeepFrom(s, idx, lo + 1, x);
      }
    }
  }

  // ---------------------------------------------------------------------------
  // The whole pass

  /** `updateBullets`: the first loop over all bullets, then the reverse splice. */
  function UpdateBullets(st: GameState, now: int): GameState
  {
    var sc := ScanBullets(st, |st.bullets|, now);
    sc.state.(bullets := SpliceFrom(sc.state.bullets, sc.toRemove, 0))
  }

  /** The pass is the scan of every bullet followed by the splice of what it recorded. */
  lemma UpdateBulletsAfterScan(st: GameState, now: int)
    ensures var sc := ScanBullets(st, |st.bullets|, now);
            UpdateBullets(st, now) == sc.state.(bullets := SpliceFrom(sc.state.bullets, sc.toRemove, 0))
  {
  }

  /** The surviving bullets are the moved bullets whose indices were not recorded,
      in their original order; each has moved by exactly its velocity and lies
      inside the map and outside every obstacle. */
  lemma UpdateBulletsSurvivors(st: GameState, now: int)
    ensures var sc := ScanBullets(st, |st.bullets|, now);
            UpdateBullets(st, now).bullets == Keep(AdvanceAll(st.bullets), sc.toRemove, 0)
    ensures forall b :: b in UpdateBullets(st, now).bullets ==>
              (exists i :: 0 <= i < |st.bullets| && b == Advance(st.bullets[i])) &&
              0.0 <= b.x <= MAP_WIDTH && 0.0 <= b.y <= MAP_HEIGHT &&
              !Collides(b.x, b.y, BULLET_SIZE, st.obstacles)
  {
    var sc := ScanBullets(st, |st.bullets|, now);
    ScanBulletsMoves(st, |st.bullets|, now);
    assert sc.state.bullets == AdvanceAll(st.bullets);
    SpliceFromKeeps(sc.state.bullets, sc.toRemove, 0);
    assert sc.toRemove[0..] == sc.toRemove;
    forall b | b in UpdateBullets(st, now).bullets
      ensures (exists i :: 0 <= i < |st.bullets| && b == Advance(st.bullets[i])) &&
              0.0 <= b.x <= MAP_WIDTH && 0.0 <= b.y <= MAP_HEIGHT &&
              !Collides(b.x, b.y, BULLET_SIZE, st.obstacles)
    {
      KeepFrom(sc.state.bullets, sc.toRemove, 0, b);
      var j :| 0 <= j < |sc.state.bullets| && j !in sc.toRemove && sc.state.bullets[j] == b;
      ScanSurvivorsClear(st, |st.bullets|, now, j);
    }
  }

  /** The pass changes only players, flags and bullets, and players only in
      health, hit time, death and flag; with distinct ids it spares the dead. */
  lemma UpdateBulletsPlayers(st: GameState, now: int)
    ensures var r := UpdateBullets(st, now);
            && r == st.(players := r.players, flags := r.flags, bullets := r.bullets)
            && |r.players| == |st.players|
            && (forall j :: 0 <= j < |st.players| ==> Wounded(st.players[j], r.players[j]))
            && (DistinctIds(st.players) ==> SparesDead(st.players, r.players))
  {
    ScanBulletsMoves(st, |st.bullets|, now);
    if DistinctIds(st.players) {
      ScanSparesDead(st, |st.bullets|, now);
    }
  }

  /** The bullet pass keeps the room invariant. */
  lemma UpdateBulletsKeepsInv(st: GameState, now: int)
    requires Inv(st)
    ensures Inv(UpdateBullets(st, now))
  {
    var r := UpdateBullets(st, now);
    ScanBulletsMoves(st, |st.bullets|, now);
    ScanKeepsPlayersInv(st, |st.bullets|, now);
    UpdateBulletsSurvivors(st, now);
    forall k | 0 <= k < |r.bullets|
      ensures BulletOk(r.bullets[k], r.players, r.obstacles)
    {
      var b := r.bullets[k];
      assert b in r.bullets;
      var i :| 0 <= i < |st.bullets| && b == Advance(st.bullets[i]);
      assert BulletOk(st.bullets[i], st.players, st.obstacles);
      var o :| 0 <= o < |st.players| && st.players[o].id == b.ownerId && st.players[o].team == b.team;
      assert r.players[o].id == b.ownerId && r.players[o].team == b.team;
    }
  }

  // ---------------------------------------------------------------------------
  // The bullet pass as written, on numbers that may be NaN

  /** JavaScript `+`: NaN as soon as one side is NaN. */
  function Plus(a: JsNumber, b: JsNumber): (r: JsNumber)
    ensures r.Num? <==> a.Num? && b.Num?
    ensures r.Num? ==> r.v - a.v == b.v
  {
    if a.Num? && b.Num? then Num(a.v + b.v) else NaN
  }

  /** JavaScript `<`: false as soon as one side is NaN. */
  predicate Below(a: JsNumber, b: JsNumber)
  {
    a.Num? && b.Num? && a.v < b.v
  }

  /** A bullet as the server stores it: position and velocity are numbers
      that may be NaN. */
  datatype RawBullet = RawBullet(x: JsNumber, y: JsNumber, vx: JsNumber, vy: JsNumber, ownerId: PlayerId, team: Team)

  /** The bullet `handleShoot` builds for a shooter and an angle, as written:
      the angle goes through `Math.cos` and `Math.sin` unchecked, so a NaN
      angle gives a NaN velocity; `cosA` and `sinA` are the two values for a
      numeric angle. */
  function RawFire(p: Player, angle: JsNumber, cosA: real, sinA: real): (b: RawBullet)
    ensures b.x == Num(p.x) && b.y == Num(p.y) && b.ownerId == p.id && b.team == p.team
    ensures b.vx.NaN? <==> angle.NaN?
    ensures b.vy.NaN? <==> angle.NaN?
  {
    if angle.NaN? then RawBullet(Num(p.x), Num(p.y), NaN, NaN, p.id, p.team)
    else RawBullet(Num(p.x), Num(p.y), Num(cosA * BULLET_SPEED), Num(sinA * BULLET_SPEED), p.id, p.team)
  }

  /** The bullet after n moves of `bullet.x += bullet.velocityX` and the same on y. */
  function Moved(b: RawBullet, n: nat): RawBullet
  {
    if n == 0 then b
    else var m := Moved(b, n - 1); m.(x := Plus(m.x, m.vx), y := Plus(m.y, m.vy))
  }

  /** The three removal tests of the first loop as written: out of the map, the
      bullet's square overlapping an obstacle, or an eligible player closer
      than 19. Every comparison is JavaScript's. */
  predicate RawRecorded(b: RawBullet, players: seq<Player>, obstacles: seq<Rect>)
  {
    || Below(b.x, Num(0.0)) || Below(Num(MAP_WIDTH), b.x)
    || Below(b.y, Num(0.0)) || Below(Num(MAP_HEIGHT), b.y)
    || (exists i :: 0 <= i < |obstacles| && RawOverlap(b, obstacles[i]))
    || (exists k :: 0 <= k < |players| && RawCanHit(players[k], b))
  }

  /** `checkCollision` between the bullet's square and an obstacle. */
  predicate RawOverlap(b: RawBullet, o: Rect)
  {
    var left := Plus(b.x, Num(-BULLET_SIZE / 2.0));
    var top := Plus(b.y, Num(-BULLET_SIZE / 2.0));
    && Below(left, Num(o.x + o.width)) && Below(Num(o.x), Plus(left, Num(BULLET_SIZE)))
    && Below(top, Num(o.y + o.height)) && Below(Num(o.y), Plus(top, Num(BULLET_SIZE)))
  }

  /** The player test of the first loop; the distance is compared squared. */
  predicate RawCanHit(p: Player, b: RawBullet)
  {
    && p.id != b.ownerId && !p.isDead && p.team != b.team
    && b.x.Num? && b.y.Num?
    && Below(Num((p.x - b.x.v) * (p.x - b.x.v) + (p.y - b.y.v) * (p.y - b.y.v)), Num(HIT_RADIUS * HIT_RADIUS))
  }

  /** The bullet whose coordinates are the given real numbers. */
  function Raw(b: Bullet): RawBullet
  {
    RawBullet(Num(b.x), Num(b.y), Num(b.velocityX), Num(b.velocityY), b.ownerId, b.team)
  }

  /** On numbers, the tests as written record a bullet exactly when the model's
      tests do, and a move as written is the model's `Advance`. */
  lemma RawRecordedAgrees(b: Bullet, players: seq<Player>, obstacles: seq<Rect>)
    ensures RawRecorded(Raw(b), players, obstacles) <==>
              OutOfBounds(b) || Collides(b.x, b.y, BULLET_SIZE, obstacles) ||
              exists k :: 0 <= k < |players| && CanHit(players[k], b)
    ensures Moved(Raw(b), 1) == Raw(Advance(b))
  {
    var r := Raw(b);
    forall i | 0 <= i < |obstacles|
      ensures RawOverlap(r, obstacles[i]) <==> CheckCollision(CenteredSquare(b.x, b.y, BULLET_SIZE), obstacles[i])
    {
    }
    forall k | 0 <= k < |players|
      ensures RawCanHit(players[k], r) <==> CanHit(players[k], b)
    {
      assert r.x.v == b.x && r.y.v == b.y;
    }
  }

  /** Moving keeps the velocity. */
  lemma {:induction false} MovedKeepsVelocity(b: RawBullet, n: nat)
    ensures Moved(b, n).vx == b.vx && Moved(b, n).vy == b.vy
    ensures Moved(b, n).ownerId == b.ownerId && Moved(b, n).team == b.team
  {
    if n > 0 {
      MovedKeepsVelocity(b, n - 1);
    }
  }

  /** A shot whose angle is not a number gives a bullet that the pass as written
      never removes: from its first move on, both its coordinates are NaN, so
      it is neither out of the map, nor in an obstacle, nor near a player, at
      every later tick, whoever the players and whatever the obstacles. */
  lemma NaNShotNeverRemoved(p: Player, cosA: real, sinA: real, n: nat,
                            players: seq<Player>, obstacles: seq<Rect>)
    ensures var b := Moved(RawFire(p, NaN, cosA, sinA), n + 1);
            b.x.NaN? && b.y.NaN? && !RawRecorded(b, players, obstacles)
  {
    var b0 := RawFire(p, NaN, cosA, sinA);
    MovedKeepsVelocity(b0, n);
  }
}
