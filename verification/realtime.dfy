/**
 * The WebSocket room registry (`RoomConnectionManager`): each room id maps
 * to the set of endpoints connected to it. Endpoints are opaque; whether a
 * send to one of them fails is supplied as the set of dead endpoints.
 */
module Realtime {
  import opened Seqs

  /** Room id -> connected endpoints. */
  type Rooms<E> = map<string, set<E>>

  /** The endpoints of `room`; an absent room has none. */
  function Members<E>(rooms: Rooms<E>, room: string): set<E> {
    if room in rooms then rooms[room] else {}
  }

  /** The registry invariant: no room id maps to an empty set. */
  ghost predicate NoEmptyRoom<E>(rooms: Rooms<E>) {
    forall room :: room in rooms ==> rooms[room] != {}
  }

  /** Every room other than `room` has the same members in both registries, and exists in one iff in the other. */
  ghost predicate OthersUnchanged<E>(before: Rooms<E>, after: Rooms<E>, room: string) {
    forall o :: o != room ==> (o in after <==> o in before) && Members(after, o) == Members(before, o)
  }

  /** `connect`: adds `ws` to `room`, creating the room when absent. */
  function Connect<E>(rooms: Rooms<E>, room: string, ws: E): (r: Rooms<E>)
    ensures room in r && ws in r[room]
    ensures Members(r, room) == Members(rooms, room) + {ws}
    ensures OthersUnchanged(rooms, r, room)
    ensures NoEmptyRoom(rooms) ==> NoEmptyRoom(r)
  {
    rooms[room := Members(rooms, room) + {ws}]
  }

  /** Connecting twice has the effect of connecting once. */
  lemma ConnectIdempotent<E>(rooms: Rooms<E>, room: string, ws: E)
    ensures Connect(Connect(rooms, room, ws), room, ws) == Connect(rooms, room, ws)
  {
  }

  /** `disconnect`: removes `ws` from `room` and drops the room once it has no members left. */
  function Disconnect<E>(rooms: Rooms<E>, room: string, ws: E): (r: Rooms<E>)
    ensures ws !in Members(r, room)
    ensures Members(r, room) == Members(rooms, room) - {ws}
    ensures OthersUnchanged(rooms, r, room)
    ensures ws !in Members(rooms, room) ==> r == rooms
    ensures NoEmptyRoom(rooms) ==> NoEmptyRoom(r) && (room in r <==> Members(r, room) != {})
  {
    if room !in rooms || rooms[room] == {} then rooms
    else
      var rest := rooms[room] - {ws};
      if rest == {} then rooms - {room}
      else
        assert ws !in rooms[room] ==> rest == rooms[room];
        rooms[room := rest]
  }

  /**
   * The registry a broadcast leaves behind: the room holds its members at the
   * time of the call minus those whose send failed, and is gone when none is left.
   */
  function AfterBroadcast<E>(rooms: Rooms<E>, room: string, dead: set<E>): Rooms<E> {
    if room !in rooms then rooms
    else
      var rest := rooms[room] - dead;
      if rest == {} then rooms - {room} else rooms[room := rest]
  }

  /**
   * `broadcast`: takes a snapshot of the room, attempts one send to each of
   * its endpoints in an arbitrary order and disconnects every endpoint whose
   * send fails. `attempts` lists the sends in the order they were made.
   */
  method Broadcast<E>(rooms: Rooms<E>, room: string, dead: set<E>) returns (r: Rooms<E>, attempts: seq<E>)
    ensures Distinct(attempts)
    ensures forall ws :: ws in attempts <==> ws in Members(rooms, room)
    ensures Members(r, room) == Members(rooms, room) - dead
    ensures OthersUnchanged(rooms, r, room)
    ensures Members(rooms, room) == {} ==> attempts == [] && r == rooms
    ensures NoEmptyRoom(rooms) ==> NoEmptyRoom(r) && r == AfterBroadcast(rooms, room, dead)
  {
    var snapshot := Members(rooms, room);
    var pending := snapshot;
    r := rooms;
    attempts := [];
    while pending != {}
      invariant pending <= snapshot
      invariant Distinct(attempts)
      invariant forall ws :: ws in attempts <==> ws in snapshot && ws !in pending
      invariant Members(r, room) == snapshot - (dead - pending)
      invariant OthersUnchanged(rooms, r, room)
      invariant snapshot == {} ==> attempts == [] && r == rooms
      invariant NoEmptyRoom(rooms) ==> NoEmptyRoom(r) && (room in r <==> Members(r, room) != {})
      decreases pending
    {
      var ws :| ws in pending;
      pending := pending - {ws};
      attempts := attempts + [ws];
      if ws in dead {
        r := Disconnect(r, room, ws);
      }
    }
    if NoEmptyRoom(rooms) {
      var expected := AfterBroadcast(rooms, room, dead);
      assert r.Keys == expected.Keys;
      forall o | o in r
        ensures r[o] == expected[o]
      {
        assert Members(r, o) == Members(expected, o);
      }
    }
  }
}
