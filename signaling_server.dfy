/**
 * back/SignalingServer/server.js: the message switch over the namespaced
 * vocabulary, with the "Room not found" guard on validate-password and the
 * user-left broadcast on close.
 */
module SignalingServer {
  import opened Json
  import opened EventTypes
  import opened RoomStore
  import opened Protocol
  import opened ServerState

  /** One parsed message `data` from `ws`: the registry afterwards and the
      sends, in order. `newId` is the id create-room draws at random. */
  function Handle(rs: seq<Room>, ws: Conn, data: Object, open: set<Conn>, newId: string): Effect
  {
    match ServerRoute(Get(data, "type"))
    case JoinRoute =>
      var roomId, userId := Get(data, "roomId"), Get(data, "userId");
      Effect(JoinRooms(rs, ws, roomId, userId), JoinSends(rs, ws, roomId, userId, open, Namespaced))
    case CreateRoute =>
      Effect(CreateRooms(rs, newId, Get(data, "password")), [Delivery(ws, RoomCreatedMsg(newId))])
    case ValidateRoomRoute =>
      Effect(rs, [Delivery(ws, RoomValidationReply(rs, Get(data, "roomId"), Get(data, "password")))])
    case ValidatePasswordRoute =>
      Effect(rs, [Delivery(ws, PasswordReply(rs, Get(data, "roomId"), Get(data, "password")))])
    case RelayRoute =>
      Effect(rs, RelaySends(rs, ws, data, open))
  }

  /** `ws.on('message')`. */
  method OnMessage(reg: Registry, ws: Conn, data: Object, open: set<Conn>, newId: string)
    requires reg.Valid()
    modifies reg
    ensures reg.Valid()
    ensures reg.rooms == Handle(old(reg.rooms), ws, data, open, newId).rooms
    ensures reg.sent == old(reg.sent) + Handle(old(reg.rooms), ws, data, open, newId).sends
  {
    match ServerRoute(Get(data, "type")) {
      case JoinRoute =>
        reg.Join(ws, Get(data, "roomId"), Get(data, "userId"), open, Namespaced);
      case CreateRoute =>
        reg.Create(ws, Get(data, "password"), newId);
      case ValidateRoomRoute =>
        reg.ValidateRoom(ws, Get(data, "roomId"), Get(data, "password"));
      case ValidatePasswordRoute =>
        reg.ValidatePassword(ws, Get(data, "roomId"), Get(data, "password"));
      case RelayRoute =>
        reg.Relay(ws, data, open);
    }
  }

  /** `ws.on('close')`: leave the first room and tell the members left. */
  method OnClose(reg: Registry, ws: Conn, open: set<Conn>)
    requires reg.Valid()
    modifies reg
    ensures reg.Valid()
    ensures reg.rooms == LeaveRooms(old(reg.rooms), ws)
    ensures reg.sent == old(reg.sent) + LeaveSends(old(reg.rooms), ws, open)
  {
    reg.Leave(ws, open, true);
  }

  /** Every message keeps the registry well formed; only join-room and
      create-room change it; the three queries answer the sender alone,
      with exactly one message. */
  lemma HandleInvariants(rs: seq<Room>, ws: Conn, data: Object, open: set<Conn>, newId: string)
    requires Valid(rs)
    ensures var e := Handle(rs, ws, data, open, newId);
      && Valid(e.rooms)
      && (ServerRoute(Get(data, "type")) !in {JoinRoute, CreateRoute} ==> e.rooms == rs)
      && (ServerRoute(Get(data, "type")) in {CreateRoute, ValidateRoomRoute, ValidatePasswordRoute} ==>
            |e.sends| == 1 && e.sends[0].to == ws)
  {
    match ServerRoute(Get(data, "type"))
    case JoinRoute => JoinRegisters(rs, ws, Get(data, "roomId"), Get(data, "userId"));
    case CreateRoute => CreateStores(rs, newId, Get(data, "password"));
    case _ =>
  }

  /** client:disconnect has no case of its own: it is relayed like the
      peer messages, and changes no room. */
  lemma DisconnectIsRelayed(rs: seq<Room>, ws: Conn, data: Object, open: set<Conn>, newId: string)
    requires Get(data, "type") == Str(Name(ClientDisconnect))
    ensures Handle(rs, ws, data, open, newId) == Effect(rs, RelaySends(rs, ws, data, open))
  {
    ServerRouteOfNames(ClientDisconnect);
  }

  const A := Member(1, Str("A"))
  const B := Member(2, Str("B"))
  const C := Member(3, Str("C"))

  /** Room R holds A, B and C. A's connection closes: B and C each get one
      user-left naming A and R keeps two members; after B and C close too,
      R is gone. */
  lemma ThreeLeaveScenario()
    ensures LeaveSends([Room(Str("R"), Null, [A, B, C])], 1, {2, 3})
         == [Delivery(2, UserLeftMsg(Str("A"))), Delivery(3, UserLeftMsg(Str("A")))]
    ensures LeaveRooms([Room(Str("R"), Null, [A, B, C])], 1) == [Room(Str("R"), Null, [B, C])]
    ensures LeaveRooms(LeaveRooms([Room(Str("R"), Null, [B, C])], 2), 3) == []
  {
    FirstLeaves();
    FirstLeaveNotices();
    OthersLeave();
  }

  lemma FirstLeaves()
    ensures FirstRoomWith([Room(Str("R"), Null, [A, B, C])], 1) == Some(0)
    ensures LeaveRooms([Room(Str("R"), Null, [A, B, C])], 1) == [Room(Str("R"), Null, [B, C])]
  {
    assert HasConn([A, B, C], 1) by { assert FindConn([A, B, C], 1) == Some(0); }
    assert Remove([A, B, C], 1) == [B, C];
  }

  lemma FirstLeaveNotices()
    ensures LeaveSends([Room(Str("R"), Null, [A, B, C])], 1, {2, 3})
         == [Delivery(2, UserLeftMsg(Str("A"))), Delivery(3, UserLeftMsg(Str("A")))]
  {
    FirstLeaves();
    assert UserOf([A, B, C], 1) == Str("A");
    assert Remove([A, B, C], 1) == [B, C];
    var msg := UserLeftMsg(Str("A"));
    assert [B][..0] == [];
    assert Broadcast([B], Everyone, {2, 3}, msg) == [Delivery(2, msg)];
    assert [B, C][..1] == [B];
    assert Broadcast([B, C], Everyone, {2, 3}, msg) == [Delivery(2, msg), Delivery(3, msg)];
  }

  lemma OthersLeave()
    ensures LeaveRooms(LeaveRooms([Room(Str("R"), Null, [B, C])], 2), 3) == []
  {
    assert FirstRoomWith([Room(Str("R"), Null, [B, C])], 2) == Some(0) by {
      assert FindConn([B, C], 2) == Some(0);
    }
    assert Remove([B, C], 2) == [C];
    assert LeaveRooms([Room(Str("R"), Null, [B, C])], 2) == [Room(Str("R"), Null, [C])];
    assert FirstRoomWith([Room(Str("R"), Null, [C])], 3) == Some(0) by {
      assert FindConn([C], 3) == Some(0);
    }
    assert Remove([C], 3) == [];
  }
}
