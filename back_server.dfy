/**
 * back/server.js: the same switch as back/SignalingServer/server.js over
 * its own copy of the vocabulary, except that validate-password reads the
 * room's password without checking that the room exists, and close
 * notifies nobody.
 */
module BackServer {
  import opened Json
  import opened EventTypes
  import opened RoomStore
  import opened Protocol
  import opened ServerState
  import SignalingServer

  /** A handler either runs to completion or throws: `rooms.get(id)` is
      `undefined` for a missing room and reading `.password` of it is a
      TypeError, raised before anything is sent. */
  datatype Outcome = Handled(effect: Effect) | Threw

  function Handle(rs: seq<Room>, ws: Conn, data: Object, open: set<Conn>, newId: string): Outcome
  {
    match ServerRoute(Get(data, "type"))
    case JoinRoute =>
      var roomId, userId := Get(data, "roomId"), Get(data, "userId");
      Handled(Effect(JoinRooms(rs, ws, roomId, userId), JoinSends(rs, ws, roomId, userId, open, Namespaced)))
    case CreateRoute =>
      Handled(Effect(CreateRooms(rs, newId, Get(data, "password")), [Delivery(ws, RoomCreatedMsg(newId))]))
    case ValidateRoomRoute =>
      Handled(Effect(rs, [Delivery(ws, RoomValidationReply(rs, Get(data, "roomId"), Get(data, "password")))]))
    case ValidatePasswordRoute =>
      (match Lookup(rs, Get(data, "roomId"))
       case None => Threw
       case Some(room) =>
         Handled(Effect(rs, [Delivery(ws, PasswordValidationMsg(room.password == Get(data, "password")))])))
    case RelayRoute =>
      Handled(Effect(rs, RelaySends(rs, ws, data, open)))
  }

  /** `ws.on('message')`; `threw` reports the TypeError, after which the
      registry and the send log are as they were. */
  method OnMessage(reg: Registry, ws: Conn, data: Object, open: set<Conn>, newId: string) returns (threw: bool)
    requires reg.Valid()
    modifies reg
    ensures reg.Valid()
    ensures threw <==> Handle(old(reg.rooms), ws, data, open, newId).Threw?
    ensures threw ==> reg.rooms == old(reg.rooms) && reg.sent == old(reg.sent)
    ensures !threw ==>
      && reg.rooms == Handle(old(reg.rooms), ws, data, open, newId).effect.rooms
      && reg.sent == old(reg.sent) + Handle(old(reg.rooms), ws, data, open, newId).effect.sends
  {
    threw := false;
    match ServerRoute(Get(data, "type")) {
      case JoinRoute =>
        reg.Join(ws, Get(data, "roomId"), Get(data, "userId"), open, Namespaced);
      case CreateRoute =>
        reg.Create(ws, Get(data, "password"), newId);
      case ValidateRoomRoute =>
        reg.ValidateRoom(ws, Get(data, "roomId"), Get(data, "password"));
      case ValidatePasswordRoute =>
        if Lookup(reg.rooms, Get(data, "roomId")).None? {
          threw := true;
          return;
        }
        reg.ValidatePasswordUnchecked(ws, Get(data, "roomId"), Get(data, "password"));
      case RelayRoute =>
        reg.Relay(ws, data, open);
    }
  }

  /** `ws.on('close')`: leave the first room, deleting it when empty; no
      notice is sent. */
  method OnClose(reg: Registry, ws: Conn)
    requires reg.Valid()
    modifies reg
    ensures reg.Valid()
    ensures reg.rooms == LeaveRooms(old(reg.rooms), ws)
    ensures reg.sent == old(reg.sent)
  {
    reg.Leave(ws, {}, false);
  }

  /** back/server.js behaves as back/SignalingServer/server.js on every
      message except validate-password for a missing room, where it throws
      instead of answering "Room not found". */
  lemma AgreesWithSignalingServer(rs: seq<Room>, ws: Conn, data: Object, open: set<Conn>, newId: string)
    ensures var missing := ServerRoute(Get(data, "type")) == ValidatePasswordRoute && Lookup(rs, Get(data, "roomId")).None?;
      && (missing ==> Handle(rs, ws, data, open, newId) == Threw)
      && (!missing ==> Handle(rs, ws, data, open, newId) == Handled(SignalingServer.Handle(rs, ws, data, open, newId)))
  {
    match ServerRoute(Get(data, "type"))
    case ValidatePasswordRoute =>
      match Lookup(rs, Get(data, "roomId")) {
        case None =>
        case Some(room) =>
          assert PasswordReply(rs, Get(data, "roomId"), Get(data, "password"))
              == PasswordValidationMsg(room.password == Get(data, "password"));
      }
    case _ =>
  }

  /** Inside its precondition, the unguarded validate-password answers
      `success` exactly when the stored password equals the supplied one. */
  lemma PasswordCheck(rs: seq<Room>, ws: Conn, data: Object, open: set<Conn>, newId: string)
    requires ServerRoute(Get(data, "type")) == ValidatePasswordRoute
    requires Lookup(rs, Get(data, "roomId")).Some?
    ensures var o := Handle(rs, ws, data, open, newId);
      && o.Handled?
      && o.effect.rooms == rs
      && o.effect.sends == [Delivery(ws, PasswordValidationMsg(Lookup(rs, Get(data, "roomId")).value.password == Get(data, "password")))]
      && Get(o.effect.sends[0].msg, "success") == Bool(Lookup(rs, Get(data, "roomId")).value.password == Get(data, "password"))
  {
  }
}
