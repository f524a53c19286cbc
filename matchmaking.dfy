/**
 * The matchmaking of the socket handlers (server/server.js:469-536): one queue of
 * waiting players and the map of running rooms. Joining queues a player who is
 * neither queued nor seated in a room, and as soon as two wait, the two who
 * waited longest are paired in a new room. Leaving and disconnecting take the
 * player out of the queue; disconnecting also ends and removes the player's room.
 *
 * Sockets are represented by their ids. The room id that `generateRoomId` draws
 * at random is a parameter, and so is the clock reading the new room starts at.
 */
module Matchmaking {
  import opened Wrappers
  import opened Match
  import Rules
  import Room

  /** `queue.filter(s => s.id !== id)`. */
  function Without(q: seq<PlayerId>, id: PlayerId): seq<PlayerId>
  {
    if |q| == 0 then []
    else (if q[0] == id then [] else [q[0]]) + Without(q[1..], id)
  }

  /** The filter removes every occurrence of the id and keeps everyone else, in
      order; without the id in the queue it changes nothing. */
  lemma {:induction false} WithoutSpec(q: seq<PlayerId>, id: PlayerId)
    ensures var r := Without(q, id);
            && (forall x :: x in r <==> x in q && x != id)
            && |r| <= |q|
            && (id !in q ==> r == q)
  {
    if |q| > 0 {
      WithoutSpec(q[1..], id);
      assert q == [q[0]] + q[1..];
    }
  }

  /** The filter works entry by entry: filtering a queue made of two parts is
      filtering each part and putting them back together in the same order. */
  lemma {:induction false} WithoutAppend(q1: seq<PlayerId>, q2: seq<PlayerId>, id: PlayerId)
    ensures Without(q1 + q2, id) == Without(q1, id) + Without(q2, id)
  {
    if |q1| > 0 {
      WithoutAppend(q1[1..], q2, id);
      assert (q1 + q2)[1..] == q1[1..] + q2;
    } else {
      assert q1 + q2 == q2;
    }
  }

  /** Filtering twice is filtering once. */
  lemma WithoutIdempotent(q: seq<PlayerId>, id: PlayerId)
    ensures Without(Without(q, id), id) == Without(q, id)
  {
    WithoutSpec(q, id);
    WithoutSpec(Without(q, id), id);
  }

  /** What `joinMatchmaking` does to the queue. */
  datatype JoinOutcome =
    | Refused
    | Queued(queue: seq<PlayerId>)
    | Paired(first: PlayerId, second: PlayerId, queue: seq<PlayerId>)

  /** A player already queued or already seated is refused; otherwise they join
      the back of the queue, and when two or more wait, the first two are taken
      off the front and paired. */
  function Join(queue: seq<PlayerId>, seated: bool, id: PlayerId): JoinOutcome
  {
    if id in queue || seated then Refused
    else
      var q := queue + [id];
      if |q| >= 2 then Paired(q[0], q[1], q[2..]) else Queued(q)
  }

  /** Refused exactly when the player is already queued or seated. */
  lemma JoinRefused(queue: seq<PlayerId>, seated: bool, id: PlayerId)
    ensures Join(queue, seated, id).Refused? <==> id in queue || seated
  {
  }

  /** With at most one waiting player (the lobby's invariant), a join that is
      accepted queues the newcomer alone when nobody waits, and otherwise pairs
      the one who waited with the newcomer, in that order, leaving the queue
      empty: the queue stays at most one long, and the pair is two players. */
  lemma JoinFirstComeFirstServed(queue: seq<PlayerId>, seated: bool, id: PlayerId)
    requires |queue| <= 1 && !(id in queue || seated)
    ensures |queue| == 0 ==> Join(queue, seated, id) == Queued([id])
    ensures |queue| == 1 ==> Join(queue, seated, id) == Paired(queue[0], id, [])
    ensures Join(queue, seated, id).Paired? ==>
              Join(queue, seated, id).first != Join(queue, seated, id).second
  {
  }

  /** The player is one of the two connections of some room. */
  predicate SeatedIn(rooms: map<string, Room.GameRoom>, id: PlayerId)
  {
    exists k :: k in rooms && id in rooms[k].players
  }

  /** Nobody sits in two rooms. */
  predicate Disjoint(rooms: map<string, Room.GameRoom>)
  {
    forall k1, k2, id ::
      k1 in rooms && k2 in rooms && id in rooms[k1].players && id in rooms[k2].players ==> k1 == k2
  }

  /** Seating two players who sit nowhere in a room under `roomId`, in place of
      whatever room had that id, keeps the seats disjoint, and seats exactly the
      ones seated before (minus the replaced room's) and the two. */
  lemma SeatPair(rooms: map<string, Room.GameRoom>, roomId: string, room: Room.GameRoom)
    requires Disjoint(rooms)
    requires forall id :: id in room.players ==> !SeatedIn(rooms, id)
    ensures Disjoint(rooms[roomId := room])
    ensures forall id :: SeatedIn(rooms[roomId := room], id) ==> SeatedIn(rooms, id) || id in room.players
  {
    var r := rooms[roomId := room];
    forall k1, k2, id | k1 in r && k2 in r && id in r[k1].players && id in r[k2].players
      ensures k1 == k2
    {
      if k1 != roomId && k2 != roomId {
        assert r[k1] == rooms[k1] && r[k2] == rooms[k2];
      }
    }
    forall id | SeatedIn(r, id)
      ensures SeatedIn(rooms, id) || id in room.players
    {
      var k :| k in r && id in r[k].players;
      if k != roomId {
        assert r[k] == rooms[k];
      }
    }
  }

  /** Removing a room keeps the seats disjoint and unseats nobody else. */
  lemma UnseatRoom(rooms: map<string, Room.GameRoom>, k: string)
    requires Disjoint(rooms)
    ensures Disjoint(rooms - {k})
    ensures forall id :: SeatedIn(rooms - {k}, id) ==> SeatedIn(rooms, id)
    ensures k in rooms ==> forall id :: id in rooms[k].players ==> !SeatedIn(rooms - {k}, id)
  {
    var r := rooms - {k};
    forall id | SeatedIn(r, id)
      ensures SeatedIn(rooms, id)
    {
      var j :| j in r && id in r[j].players;
      assert j in rooms && r[j] == rooms[j];
    }
    if k in rooms {
      forall id | id in rooms[k].players
        ensures !SeatedIn(r, id)
      {
      }
    }
  }

  /** The lobby: the matchmaking queue and the rooms by id. */
  class Lobby {
    var queue: seq<PlayerId>
    var rooms: map<string, Room.GameRoom>

    /** At most one player waits; nobody waits who is seated; every room is under
        its own id; nobody sits in two rooms; the players of every room's match
        are the room's two seated connections. */
    predicate Valid()
      reads this, rooms.Values
    {
      && |queue| <= 1
      && (forall id :: id in queue ==> !SeatedIn(rooms, id))
      && (forall k :: k in rooms ==> rooms[k].roomId == k)
      && Disjoint(rooms)
      && (forall k :: k in rooms ==> rooms[k].Seats())
    }

    /** The server starts with an empty queue and no rooms. */
    constructor()
      ensures Valid() && queue == [] && rooms == map[]
    {
      queue := [];
      rooms := map[];
    }

    /** The loop of `joinMatchmaking` over the rooms: is the player one of the
        two connections of some room? */
    method IsSeated(id: PlayerId) returns (seated: bool)
      ensures seated <==> SeatedIn(rooms, id)
    {
      var unseen := rooms.Keys;
      while unseen != {}
        invariant unseen <= rooms.Keys
        invariant forall k :: k in rooms && k !in unseen ==> id !in rooms[k].players
        decreases unseen
      {
        var k :| k in unseen;
        if id in rooms[k].players {
          return true;
        }
        unseen := unseen - {k};
      }
      return false;
    }

    /** The loop of `disconnect` over the rooms: the room whose match has a
        player with this id, if any. */
    method RoomOf(id: PlayerId) returns (found: Option<string>)
      requires Valid()
      ensures found.Some? ==> found.value in rooms && id in rooms[found.value].players
      ensures found.None? <==> !SeatedIn(rooms, id)
    {
      var unseen := rooms.Keys;
      while unseen != {}
        invariant unseen <= rooms.Keys
        invariant forall k :: k in rooms && k !in unseen ==> id !in rooms[k].players
        decreases unseen
      {
        var k :| k in unseen;
        if Rules.IndexOf(rooms[k].state.players, id).Some? {
          return Some(k);
        }
        unseen := unseen - {k};
      }
      return None;
    }

    /** `joinMatchmaking` for the player `id`; `roomId` is the id drawn for the
        room, used only if a pair is made, and `now` the time it starts. */
    method JoinMatchmaking(id: PlayerId, roomId: string, now: int)
      requires Valid()
      modifies this
      ensures Valid()
      ensures match Join(old(queue), SeatedIn(old(rooms), id), id)
              case Refused => queue == old(queue) && rooms == old(rooms)
              case Queued(q) => queue == q && rooms == old(rooms)
              case Paired(a, b, q) =>
                && queue == q
                && roomId in rooms && fresh(rooms[roomId])
                && rooms == old(rooms)[roomId := rooms[roomId]]
                && rooms[roomId].players == [a, b]
                && rooms[roomId].state == CreateGameState(a, b, now)
    {
      if id in queue {
        return;
      }
      var seated := IsSeated(id);
      if seated {
        return;
      }
      queue := queue + [id];
      if |queue| >= 2 {
        var player1 := queue[0];
        queue := queue[1..];
        var player2 := queue[0];
        queue := queue[1..];
        var room := new Room.GameRoom(roomId, player1, player2, now);
        SeatPair(rooms, roomId, room);
        rooms := rooms[roomId := room];
      }
    }

    /** `leaveMatchmaking`: the player is filtered out of the queue. */
    method LeaveMatchmaking(id: PlayerId)
      requires Valid()
      modifies this
      ensures Valid()
      ensures queue == Without(old(queue), id) && id !in queue && rooms == old(rooms)
    {
      WithoutSpec(queue, id);
      queue := Without(queue, id);
    }

    /** `disconnect`: the player is filtered out of the queue; if they sit in a
        room, that room is told (the other player wins a running game) and is
        removed at once. Every other room is untouched. */
    method Disconnect(id: PlayerId)
      requires Valid()
      modifies this, rooms.Values
      ensures Valid()
      ensures queue == Without(old(queue), id) && id !in queue
      ensures !SeatedIn(old(rooms), id) ==> rooms == old(rooms)
      ensures forall k :: k in old(rooms) && id in old(rooms)[k].players ==>
                && rooms == old(rooms) - {k}
                && old(rooms)[k].state == Rules.HandleDisconnect(old(rooms[k].state), id)
      ensures forall k :: k in rooms ==> rooms[k].state == old(rooms[k].state)
      ensures forall k :: k in rooms ==>
                rooms[k].ticking == old(rooms[k].ticking) && rooms[k].inputs == old(rooms[k].inputs)
      ensures !SeatedIn(rooms, id)
    {
      WithoutSpec(queue, id);
      queue := Without(queue, id);
      var found := RoomOf(id);
      if found.Some? {
        CloseRoom(found.value, id);
      }
    }

    /** The body of the `disconnect` loop once the player's room is found:
        `room.handleDisconnect(id)`, whose last step deletes the room. */
    method CloseRoom(k: string, id: PlayerId)
      requires Valid() && k in rooms
      modifies this, rooms[k]
      ensures Valid()
      ensures rooms == old(rooms) - {k} && queue == old(queue)
      ensures old(rooms)[k].state == Rules.HandleDisconnect(old(rooms[k].state), id)
      ensures !old(rooms)[k].ticking
    {
      var room := rooms[k];
      room.HandleDisconnect(id);
      UnseatRoom(rooms, room.roomId);
      rooms := rooms - {room.roomId};
    }

    /** The timer that `endGame` starts: five seconds after the end, the room is
        removed, if it still exists. */
    method RemoveRoom(roomId: string)
      requires Valid()
      modifies this
      ensures Valid()
      ensures rooms == old(rooms) - {roomId} && queue == old(queue)
    {
      UnseatRoom(rooms, roomId);
      rooms := rooms - {roomId};
    }
  }
}
