/**
 * server.js: the oldest server. It knows only join-room, in the plain
 * vocabulary, draws the user id itself, and relays every other message
 * through `sendToUser`; close notifies nobody.
 */
module LegacyServer {
  import opened Json
  import opened EventTypes
  import opened RoomStore
  import opened Protocol
  import opened ServerState

  /** `String(Math.floor(Math.random() * 100))`, with the floored draw as a
      parameter: one or two decimal digits that read back as the draw. */
  function DrawnUserId(draw: nat): (u: Value)
    requires draw < 100
    ensures u.Str? && 1 <= |u.s| <= 2
    ensures forall i :: 0 <= i < |u.s| ==> IsDigit(u.s[i])
    ensures ParseDecimal(u.s) == draw
  {
    DecimalLength(draw);
    ParseDecimalOfDecimal(draw);
    Str(Decimal(draw))
  }

  function Handle(rs: seq<Room>, ws: Conn, data: Object, open: set<Conn>, draw: nat): Effect
    requires draw < 100
  {
    if Get(data, "type") == Str(Wire(Plain, ClientJoinRoom)) then
      var roomId, userId := Get(data, "roomId"), DrawnUserId(draw);
      Effect(JoinRooms(rs, ws, roomId, userId), JoinSends(rs, ws, roomId, userId, open, Plain))
    else
      Effect(rs, LegacyRelaySends(rs, ws, data, open))
  }

  /** `ws.on('message')`. */
  method OnMessage(reg: Registry, ws: Conn, data: Object, open: set<Conn>, draw: nat)
    requires reg.Valid() && draw < 100
    modifies reg
    ensures reg.Valid()
    ensures reg.rooms == Handle(old(reg.rooms), ws, data, open, draw).rooms
    ensures reg.sent == old(reg.sent) + Handle(old(reg.rooms), ws, data, open, draw).sends
  {
    if Get(data, "type") == Str(Wire(Plain, ClientJoinRoom)) {
      var userId := DrawnUserId(draw);
      reg.Join(ws, Get(data, "roomId"), userId, open, Plain);
    } else {
      reg.RelayThroughSendToUser(ws, data, open);
    }
  }

  /** `ws.on('close')`: leave the first room, deleting it when empty; no
      notice is sent. */
  method OnClose(reg: Registry, ws: Conn)
    requires reg.Valid()
    modifies reg
    ensures reg.Valid()
    ensures reg.rooms == LeaveRooms(old(reg.rooms), ws)
    ensures reg.sent == old(reg.sent)
  {
    reg.Leave(ws, {}, false);
  }

  /** join-room registers the sender under the drawn id whatever user id the
      client sent, and welcomes it with that id. */
  lemma JoinIgnoresClientUserId(rs: seq<Room>, ws: Conn, data: Object, open: set<Conn>, draw: nat, claimed: Value)
    requires Valid(rs) && draw < 100
    requires Get(data, "type") == Str("join-room")
    ensures var e := Handle(rs, ws, data, open, draw);
      var roomId := Get(data, "roomId");
      && e == Handle(rs, ws, With(data, "userId", claimed), open, draw)
      && Lookup(e.rooms, roomId).Some?
      && UserOf(Lookup(e.rooms, roomId).value.members, ws) == DrawnUserId(draw)
      && e.sends[0] == Delivery(ws, WelcomeMsg(Plain, DrawnUserId(draw), roomId))
  {
    var data' := With(data, "userId", claimed);
    assert Wire(Plain, ClientJoinRoom) == "join-room";
    assert "userId" != "type" && "userId" != "roomId";
    assert Get(data', "type") == Get(data, "type") && Get(data', "roomId") == Get(data, "roomId");
    JoinRegisters(rs, ws, Get(data, "roomId"), DrawnUserId(draw));
  }

  /** Every other message, create-room and validate-room included, is a
      relay: it changes no room, sends nothing for a sender in no room, and
      otherwise sends what the relay loop of the later servers sends. */
  lemma OthersAreRelayed(rs: seq<Room>, ws: Conn, data: Object, open: set<Conn>, draw: nat)
    requires Valid(rs) && draw < 100
    requires Get(data, "type") != Str("join-room")
    ensures Handle(rs, ws, data, open, draw) == Effect(rs, RelaySends(rs, ws, data, open))
    ensures FirstRoomWith(rs, ws).None? ==> Handle(rs, ws, data, open, draw).sends == []
  {
    LegacyRelayAgrees(rs, ws, data, open);
  }

  /** create-room, in either spelling, is relayed rather than answered. */
  lemma CreateRoomIsRelayed(rs: seq<Room>, ws: Conn, data: Object, open: set<Conn>, draw: nat)
    requires Valid(rs) && draw < 100
    requires Get(data, "type") in {Str(Wire(Plain, ClientCreateRoom)), Str(Name(ClientCreateRoom))}
    ensures Handle(rs, ws, data, open, draw) == Effect(rs, RelaySends(rs, ws, data, open))
  {
    assert Wire(Plain, ClientCreateRoom) != "join-room" by {
      assert Wire(Plain, ClientCreateRoom)[0] == 'c';
    }
    assert Name(ClientCreateRoom) != "join-room" by {
      assert Name(ClientCreateRoom)[0] == 'c';
    }
    OthersAreRelayed(rs, ws, data, open, draw);
  }

  /** Every message keeps the registry well formed. */
  lemma HandleKeepsValid(rs: seq<Room>, ws: Conn, data: Object, open: set<Conn>, draw: nat)
    requires Valid(rs) && draw < 100
    ensures Valid(Handle(rs, ws, data, open, draw).rooms)
  {
    if Get(data, "type") == Str(Wire(Plain, ClientJoinRoom)) {
      JoinRegisters(rs, ws, Get(data, "roomId"), DrawnUserId(draw));
    }
  }
}
