/** One worker's manager: the dictionary of rooms, changed in place. */
module WebSocketManager {
  import opened Basics
  import opened PubSub

  /** The rooms after the dead sockets among `tried` have been dropped. */
  ghost predicate Dropped(before: Rooms, after: Rooms, gone: set<Socket>) {
    && (forall r :: r in after <==> r in before && before[r] - gone != {})
    && (forall r :: r in after ==> after[r] == before[r] - gone)
  }

  class Manager {
    var rooms: Rooms

    ghost predicate Valid() reads this { NoEmptyRooms(rooms) }

    constructor ()
      ensures Valid() && rooms == map[]
    {
      rooms := map[];
    }

    /** `add`, and `connect` once the socket is accepted. */
    method Add(s: Socket, room: string)
      requires Valid()
      modifies this
      ensures Valid() && rooms == Joined(old(rooms), s, room)
      ensures s in Members(rooms, room)
    {
      if room !in rooms { rooms := rooms[room := {}]; }
      rooms := rooms[room := rooms[room] + {s}];
      assert rooms == Joined(old(rooms), s, room);
    }

    /** `disconnect`: a loop over one name, or over all of them. */
    method Disconnect(s: Socket, room: Option<string>)
      requires Valid()
      modifies this
      ensures Valid() && rooms == Left(old(rooms), s, room)
      ensures forall r :: room.None? || room.value == r ==> s !in Members(rooms, r)
    {
      var names := if room.Some? then {room.value} else rooms.Keys;
      while names != {}
        invariant forall r :: r in names ==> (room.None? || room.value == r) && (r in rooms <==> r in old(rooms))
        invariant forall r :: r in names && r in rooms ==> rooms[r] == old(rooms)[r]
        invariant forall r :: r !in names ==> (r in rooms <==> r in Left(old(rooms), s, room))
        invariant forall r :: r !in names && r in rooms ==> rooms[r] == Left(old(rooms), s, room)[r]
      {
        var name :| name in names;
        names := names - {name};
        if name in rooms {
          rooms := rooms[name := rooms[name] - {s}];
          if rooms[name] == {} { rooms := rooms - {name}; }
        }
      }
      assert rooms == Left(old(rooms), s, room);
    }

    /** `_broadcast_local` without interruption: over a copy of the members, in any order. */
    method BroadcastLocal(room: string, exclude: Option<Socket>, dead: set<Socket>) returns (sent: seq<Socket>)
      requires Valid()
      modifies this
      ensures Valid() && Distinct(sent)
      ensures forall s :: s in sent <==> s in Members(old(rooms), room) && s !in dead && exclude != Some(s)
      ensures Dropped(old(rooms), rooms, set s | s in Members(old(rooms), room) && s in dead && exclude != Some(s))
    {
      var waiting := Members(rooms, room);
      ghost var gone: set<Socket> := {};
      sent := [];
      while waiting != {}
        invariant waiting <= Members(old(rooms), room) && Distinct(sent) && Valid()
        invariant forall s :: s in sent <==>
          s in Members(old(rooms), room) && s !in waiting && s !in dead && exclude != Some(s)
        invariant forall s :: s in gone <==>
          s in Members(old(rooms), room) && s !in waiting && s in dead && exclude != Some(s)
        invariant Dropped(old(rooms), rooms, gone)
      {
        var s :| s in waiting;
        waiting := waiting - {s};
        if exclude != Some(s) {
          if s in dead {
            gone := gone + {s};
            Disconnect(s, None);
          } else {
            sent := sent + [s];
          }
        }
      }
      assert gone == set s | s in Members(old(rooms), room) && s in dead && exclude != Some(s);
    }
  }
}
