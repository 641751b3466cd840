/**
 * The servers' `rooms` registry as a mutable object, with the in-place
 * operations their message and close handlers perform. Outgoing
 * `ws.send` calls are recorded, in order, in the ghost log `sent`.
 */
module ServerState {
  import opened Json
  import opened EventTypes
  import opened RoomStore
  import opened Protocol

  class Registry {
    var rooms: seq<Room>
    ghost var sent: seq<Delivery>

    ghost predicate Valid()
      reads this
    {
      RoomStore.Valid(rooms)
    }

    /** `const rooms = new Map()` at process start. */
    constructor ()
      ensures Valid() && rooms == [] && sent == []
    {
      rooms := [];
      sent := [];
    }

    /** `to.send(JSON.stringify(msg))`. */
    method Send(to: Conn, msg: Object)
      modifies this
      ensures rooms == old(rooms)
      ensures sent == old(sent) + [Delivery(to, msg)]
    {
      sent := sent + [Delivery(to, msg)];
    }

    /** `for (const [client, id] of users) if (<audience>) client.send(msg)`. */
    method SendAll(ms: seq<Member>, a: Audience, open: set<Conn>, msg: Object)
      modifies this
      ensures rooms == old(rooms)
      ensures sent == old(sent) + Broadcast(ms, a, open, msg)
    {
      var k := 0;
      while k < |ms|
        invariant 0 <= k <= |ms|
        invariant rooms == old(rooms)
        invariant sent == old(sent) + Broadcast(ms[..k], a, open, msg)
      {
        var m := ms[k];
        if Selected(a, m, open) {
          Send(m.conn, msg);
        }
        assert ms[..k + 1][..k] == ms[..k];
        k := k + 1;
      }
      assert ms[..k] == ms;
    }

    /** The join-room handler: find or create the room, register the sender,
        welcome it and announce it to the other open members. */
    method Join(ws: Conn, roomId: Value, userId: Value, open: set<Conn>, d: Dialect)
      requires Valid()
      modifies this
      ensures Valid()
      ensures rooms == JoinRooms(old(rooms), ws, roomId, userId)
      ensures sent == old(sent) + JoinSends(old(rooms), ws, roomId, userId, open, d)
    {
      var i := Register(ws, roomId, userId);
      Send(ws, WelcomeMsg(d, userId, roomId));
      SendAll(rooms[i].members, AllExcept(ws), open, NewUserMsg(d, userId));
    }

    /** `rooms.get(roomId) || rooms.set(roomId, new Map()).get(roomId)`, then
        `room.set(ws, userId)`; returns the room's position. */
    method Register(ws: Conn, roomId: Value, userId: Value) returns (i: nat)
      requires Valid()
      modifies this
      ensures Valid()
      ensures rooms == JoinRooms(old(rooms), ws, roomId, userId)
      ensures i < |rooms| && rooms[i] == JoinedRoom(old(rooms), ws, roomId, userId)
      ensures sent == old(sent)
    {
      ghost var rs0 := rooms;
      JoinInPlace(rs0, ws, roomId, userId);
      match FindRoom(rooms, roomId) {
        case Some(j) =>
          i := j;
        case None =>
          rooms := rooms + [Room(roomId, Undefined, [])];
          i := |rooms| - 1;
      }
      rooms := UpdateMembers(rooms, i, Put(rooms[i].members, ws, userId));
      JoinedMembersDistinct(rs0, ws, roomId, userId);
    }

    /** The create-room handler, with the random id as a parameter. */
    method Create(ws: Conn, password: Value, newId: string)
      requires Valid()
      modifies this
      ensures Valid()
      ensures rooms == CreateRooms(old(rooms), newId, password)
      ensures sent == old(sent) + [Delivery(ws, RoomCreatedMsg(newId))]
    {
      var room := Room(Str(newId), OrNull(password), []);
      rooms := SetRoom(rooms, room);
      Send(ws, RoomCreatedMsg(newId));
    }

    /** The validate-room handler. */
    method ValidateRoom(ws: Conn, roomId: Value, password: Value)
      modifies this
      ensures rooms == old(rooms)
      ensures sent == old(sent) + [Delivery(ws, RoomValidationReply(old(rooms), roomId, password))]
    {
      var room := Lookup(rooms, roomId);
      var reply := RoomValidationMsg(
        room.Some?,
        if room.Some? then room.value.password != Null else false,
        if room.Some? then password == room.value.password else false);
      Send(ws, reply);
    }

    /** The validate-password handler of back/SignalingServer/server.js,
        which answers "Room not found" for a missing room. */
    method ValidatePassword(ws: Conn, roomId: Value, password: Value)
      modifies this
      ensures rooms == old(rooms)
      ensures sent == old(sent) + [Delivery(ws, PasswordReply(old(rooms), roomId, password))]
    {
      var room := Lookup(rooms, roomId);
      if room.None? {
        Send(ws, RoomNotFoundMsg());
        return;
      }
      Send(ws, PasswordValidationMsg(room.value.password == password));
    }

    /** The validate-password handler of back/server.js, which reads
        `rooms.get(roomId).password` without a check. */
    method ValidatePasswordUnchecked(ws: Conn, roomId: Value, password: Value)
      requires Lookup(rooms, roomId).Some?
      modifies this
      ensures rooms == old(rooms)
      ensures sent == old(sent) + [Delivery(ws, PasswordValidationMsg(Lookup(old(rooms), roomId).value.password == password))]
    {
      Send(ws, PasswordValidationMsg(Lookup(rooms, roomId).value.password == password));
    }

    /** The default branch: scan the rooms in order, and in the first one
        holding the sender send `{...data, from}` to every open member
        whose id is `data.target`; then stop. */
    method Relay(ws: Conn, data: Object, open: set<Conn>)
      modifies this
      ensures rooms == old(rooms)
      ensures sent == old(sent) + RelaySends(old(rooms), ws, data, open)
    {
      var i := 0;
      while i < |rooms|
        invariant 0 <= i <= |rooms|
        invariant rooms == old(rooms) && sent == old(sent)
        invariant forall j :: 0 <= j < i ==> !HasConn(rooms[j].members, ws)
      {
        var users := rooms[i].members;
        if HasConn(users, ws) {
          var senderId := UserOf(users, ws);
          FirstRoomWithAt(rooms, ws, i);
          SendAll(users, WithUserId(Get(data, "target")), open, RelayMsg(data, senderId));
          break;
        }
        i := i + 1;
      }
    }

    /** `sendToUser` of server.js. */
    method SendToUser(roomId: Value, userId: Value, msg: Object, open: set<Conn>)
      modifies this
      ensures rooms == old(rooms)
      ensures sent == old(sent) + SendToUserSends(old(rooms), roomId, userId, msg, open)
    {
      var room := Lookup(rooms, roomId);
      if room.None? {
        return;
      }
      SendAll(room.value.members, WithUserId(userId), open, msg);
    }

    /** The relay branch of server.js: find the sender's first room, then
        `sendToUser(room[0], data.target, {...data, from: senderId})`. */
    method RelayThroughSendToUser(ws: Conn, data: Object, open: set<Conn>)
      modifies this
      ensures rooms == old(rooms)
      ensures sent == old(sent) + LegacyRelaySends(old(rooms), ws, data, open)
    {
      var first := FirstRoomWith(rooms, ws);
      if first.None? {
        return;
      }
      var entry := rooms[first.value];
      var senderId := UserOf(entry.members, ws);
      SendToUser(entry.id, Get(data, "target"), RelayMsg(data, senderId), open);
    }

    /** The close handler: scan the rooms in order; in the first one holding
        the connection, delete it, tell the open members that remain when
        `notify` is set (only back/SignalingServer/server.js does), delete
        the room if it is empty, and stop. */
    method Leave(ws: Conn, open: set<Conn>, notify: bool)
      requires Valid()
      modifies this
      ensures Valid()
      ensures rooms == LeaveRooms(old(rooms), ws)
      ensures sent == old(sent) + (if notify then LeaveSends(old(rooms), ws, open) else [])
    {
      ghost var rs0 := rooms;
      LeaveRemoves(rs0, ws);
      var i := 0;
      while i < |rooms|
        invariant 0 <= i <= |rooms|
        invariant rooms == rs0 && sent == old(sent)
        invariant forall j :: 0 <= j < i ==> !HasConn(rooms[j].members, ws)
      {
        if HasConn(rooms[i].members, ws) {
          FirstRoomWithAt(rs0, ws, i);
          var userId := UserOf(rooms[i].members, ws);
          var users := Remove(rooms[i].members, ws);
          rooms := UpdateMembers(rooms, i, users);
          if notify && |users| > 0 {
            SendAll(users, Everyone, open, UserLeftMsg(userId));
          }
          if |users| == 0 {
            rooms := DeleteAt(rooms, i);
            assert rooms == DeleteAt(rs0, i);
          }
          break;
        }
        i := i + 1;
      }
    }
  }
}
