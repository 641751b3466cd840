/**
 * What each server message handler does to the registry and what it sends,
 * as functions of the registry before the message. The three server
 * variants share these; where a variant differs it says so in its own module.
 */
module Protocol {
  import opened Json
  import opened EventTypes
  import opened RoomStore

  // ---------------------------------------------------------------------
  // Outgoing messages.
  // ---------------------------------------------------------------------

  function Typed(d: Dialect, t: EventType): Object
  {
    map["type" := Str(Wire(d, t))]
  }

  /** `{ type: welcome, userId, roomId }` */
  function WelcomeMsg(d: Dialect, userId: Value, roomId: Value): Object
  {
    With(With(Typed(d, ServerWelcome), "userId", userId), "roomId", roomId)
  }

  /** `{ type: new-user, userId }` */
  function NewUserMsg(d: Dialect, userId: Value): Object
  {
    With(Typed(d, ServerNewUser), "userId", userId)
  }

  /** `{ type: server:room-created, roomId }` */
  function RoomCreatedMsg(roomId: string): Object
  {
    Typed(Namespaced, ServerRoomCreated)["roomId" := Str(roomId)]
  }

  /** `{ type: server:room-validation, exists: found, passwordRequired, passwordCorrect }` */
  function RoomValidationMsg(found: bool, required: bool, correct: bool): Object
  {
    Typed(Namespaced, ServerRoomValidation)
      ["exists" := Bool(found)]["passwordRequired" := Bool(required)]["passwordCorrect" := Bool(correct)]
  }

  /** `{ type: server:password-validation, success }` */
  function PasswordValidationMsg(success: bool): Object
  {
    Typed(Namespaced, ServerPasswordValidation)["success" := Bool(success)]
  }

  /** `{ type: server:password-validation, success: false, error: "Room not found" }` */
  function RoomNotFoundMsg(): Object
  {
    PasswordValidationMsg(false)["error" := Str("Room not found")]
  }

  /** `{ type: peer:user-left, userId }` */
  function UserLeftMsg(userId: Value): Object
  {
    With(Typed(Namespaced, PeerUserLeft), "userId", userId)
  }

  /** `{ ...data, from: senderId }`: the relayed message is the incoming one
      with `from` replaced by the sender's registered user id. */
  function RelayMsg(data: Object, senderId: Value): (r: Object)
    ensures Get(r, "from") == senderId
    ensures forall k :: k != "from" ==> Get(r, k) == Get(data, k)
  {
    With(data, "from", senderId)
  }

  // ---------------------------------------------------------------------
  // join-room
  // ---------------------------------------------------------------------

  /** The room after `room.set(ws, userId)`, where `room` is the existing
      room or, when there is none, a fresh `Map` (no password property). */
  function JoinedRoom(rs: seq<Room>, ws: Conn, roomId: Value, userId: Value): Room
  {
    var base := match Lookup(rs, roomId)
      case Some(r) => r
      case None => Room(roomId, Undefined, []);
    base.(members := Put(base.members, ws, userId))
  }

  function JoinRooms(rs: seq<Room>, ws: Conn, roomId: Value, userId: Value): seq<Room>
  {
    SetRoom(rs, JoinedRoom(rs, ws, roomId, userId))
  }

  /** The handler's two steps, creating the inner map when it is missing and
      then setting the sender in it, amount to JoinRooms. */
  lemma JoinInPlace(rs: seq<Room>, ws: Conn, roomId: Value, userId: Value)
    ensures FindRoom(rs, roomId).Some? ==>
      var j := FindRoom(rs, roomId).value;
      UpdateMembers(rs, j, Put(rs[j].members, ws, userId)) == JoinRooms(rs, ws, roomId, userId)
    ensures FindRoom(rs, roomId).None? ==>
      var rs1 := rs + [Room(roomId, Undefined, [])];
      UpdateMembers(rs1, |rs|, Put(rs1[|rs|].members, ws, userId)) == JoinRooms(rs, ws, roomId, userId)
  {
    var joined := JoinedRoom(rs, ws, roomId, userId);
    match FindRoom(rs, roomId)
    case Some(j) =>
      assert UpdateMembers(rs, j, Put(rs[j].members, ws, userId)) == rs[j := joined];
    case None =>
      var rs1 := rs + [Room(roomId, Undefined, [])];
      assert UpdateMembers(rs1, |rs|, Put(rs1[|rs|].members, ws, userId)) == rs + [joined];
  }

  /** A welcome to the sender, then a new-user to every other open member. */
  function JoinSends(rs: seq<Room>, ws: Conn, roomId: Value, userId: Value, open: set<Conn>, d: Dialect): seq<Delivery>
  {
    [Delivery(ws, WelcomeMsg(d, userId, roomId))]
      + Broadcast(JoinedRoom(rs, ws, roomId, userId).members, AllExcept(ws), open, NewUserMsg(d, userId))
  }

  /** join-room creates the room when it is missing, registers the sender
      under the given user id (overwriting an earlier id in the same room,
      without moving it) and changes no other room. */
  lemma JoinRegisters(rs: seq<Room>, ws: Conn, roomId: Value, userId: Value)
    requires Valid(rs)
    ensures var rs' := JoinRooms(rs, ws, roomId, userId);
      && Valid(rs')
      && Lookup(rs', roomId).Some?
      && HasConn(Lookup(rs', roomId).value.members, ws)
      && UserOf(Lookup(rs', roomId).value.members, ws) == userId
      && (forall id :: id != roomId ==> Lookup(rs', id) == Lookup(rs, id))
      && (forall i :: 0 <= i < |rs| ==> rs'[i].id == rs[i].id)
    ensures var rs' := JoinRooms(rs, ws, roomId, userId);
      Lookup(rs, roomId).None? ==>
        Lookup(rs', roomId) == Some(Room(roomId, Undefined, [Member(ws, userId)])) && |rs'| == |rs| + 1
    ensures var rs' := JoinRooms(rs, ws, roomId, userId);
      Lookup(rs, roomId).Some? ==>
        var before := Lookup(rs, roomId).value.members;
        var after := Lookup(rs', roomId).value.members;
        && |rs'| == |rs|
        && Lookup(rs', roomId).value.password == Lookup(rs, roomId).value.password
        && |after| == (if HasConn(before, ws) then |before| else |before| + 1)
        && (forall k :: 0 <= k < |before| && before[k].conn != ws ==> after[k] == before[k])
  {
    var room := JoinedRoom(rs, ws, roomId, userId);
    match FindRoom(rs, roomId)
    case Some(i) => assert DistinctConns(rs[i].members);
    case None =>
      assert Put([], ws, userId) == [Member(ws, userId)];
  }

  /** join-room sends exactly one message to the sender, the welcome, and
      exactly one new-user to each other open member of the room; nobody
      else receives anything. */
  lemma {:induction false} JoinNotifies(rs: seq<Room>, ws: Conn, roomId: Value, userId: Value, open: set<Conn>, d: Dialect, c: Conn)
    requires Valid(rs)
    ensures var ds := JoinSends(rs, ws, roomId, userId, open, d);
      && ds[0] == Delivery(ws, WelcomeMsg(d, userId, roomId))
      && CountTo(ds, ws) == 1
      && (forall k :: 1 <= k < |ds| ==> ds[k].to != ws && ds[k].msg == NewUserMsg(d, userId))
    ensures var ds := JoinSends(rs, ws, roomId, userId, open, d);
      var ms := JoinedRoom(rs, ws, roomId, userId).members;
      c != ws ==> CountTo(ds, c) == if c in open && HasConn(ms, c) then 1 else 0
  {
    JoinedMembersDistinct(rs, ws, roomId, userId);
    var ms := JoinedRoom(rs, ws, roomId, userId).members;
    var w := Delivery(ws, WelcomeMsg(d, userId, roomId));
    AnnounceReachesSender(w, ms, open, NewUserMsg(d, userId));
    AnnounceReachesOthers(w, ms, open, NewUserMsg(d, userId), c);
  }

  lemma JoinedMembersDistinct(rs: seq<Room>, ws: Conn, roomId: Value, userId: Value)
    requires Valid(rs)
    ensures DistinctConns(JoinedRoom(rs, ws, roomId, userId).members)
  {
    match FindRoom(rs, roomId)
    case Some(i) => assert DistinctConns(rs[i].members);
    case None =>
  }

  // ---------------------------------------------------------------------
  // create-room
  // ---------------------------------------------------------------------

  /** A room with no members whose password is `data.password || null`. */
  function CreatedRoom(roomId: string, password: Value): Room
  {
    Room(Str(roomId), OrNull(password), [])
  }

  function CreateRooms(rs: seq<Room>, roomId: string, password: Value): seq<Room>
  {
    SetRoom(rs, CreatedRoom(roomId, password))
  }

  /** create-room stores the room under the new id, with a missing or falsy
      password turned into `null`, and without looking at what was there:
      a room already under that id is replaced, members and all, in its
      place. No other room changes. */
  lemma CreateStores(rs: seq<Room>, roomId: string, password: Value)
    requires Valid(rs)
    ensures var rs' := CreateRooms(rs, roomId, password);
      && Valid(rs')
      && Lookup(rs', Str(roomId)).Some?
      && Lookup(rs', Str(roomId)).value.members == []
      && Lookup(rs', Str(roomId)).value.password == (if Truthy(password) then password else Null)
      && (forall id :: id != Str(roomId) ==> Lookup(rs', id) == Lookup(rs, id))
      && |rs'| == (if Lookup(rs, Str(roomId)).Some? then |rs| else |rs| + 1)
  {
  }

  // ---------------------------------------------------------------------
  // validate-room and validate-password
  // ---------------------------------------------------------------------

  /** The reply to validate-room for `data.roomId` and `data.password`. */
  function RoomValidationReply(rs: seq<Room>, roomId: Value, password: Value): Object
  {
    match Lookup(rs, roomId)
    case None => RoomValidationMsg(false, false, false)
    case Some(r) => RoomValidationMsg(true, r.password != Null, password == r.password)
  }

  /** The reply to validate-password when the handler checks that the room
      exists (back/SignalingServer/server.js). */
  function PasswordReply(rs: seq<Room>, roomId: Value, password: Value): Object
  {
    match Lookup(rs, roomId)
    case None => RoomNotFoundMsg()
    case Some(r) => PasswordValidationMsg(r.password == password)
  }

  /** Password round trip: after create-room, validate-room on the new id
      finds the room; a password is required exactly when a truthy one was
      given; the supplied password is correct exactly when it is the stored
      one. validate-password agrees. */
  lemma CreateThenValidate(rs: seq<Room>, roomId: string, created: Value, supplied: Value)
    requires Valid(rs)
    ensures var rs' := CreateRooms(rs, roomId, created);
      && RoomValidationReply(rs', Str(roomId), supplied)
         == RoomValidationMsg(true, Truthy(created), supplied == OrNull(created))
      && PasswordReply(rs', Str(roomId), supplied) == PasswordValidationMsg(supplied == OrNull(created))
  {
  }

  /** The scenario of a room created with password "secret": a password is
      required, "secret" is accepted and "wrong" is refused; a room created
      without a password requires none. */
  lemma SecretScenario(rs: seq<Room>, roomId: string)
    requires Valid(rs)
    ensures Get(RoomValidationReply(CreateRooms(rs, roomId, Str("secret")), Str(roomId), Undefined), "passwordRequired") == Bool(true)
    ensures PasswordReply(CreateRooms(rs, roomId, Str("secret")), Str(roomId), Str("secret")) == PasswordValidationMsg(true)
    ensures PasswordReply(CreateRooms(rs, roomId, Str("secret")), Str(roomId), Str("wrong")) == PasswordValidationMsg(false)
    ensures Get(RoomValidationReply(CreateRooms(rs, roomId, Null), Str(roomId), Undefined), "passwordRequired") == Bool(false)
  {
    CreateThenValidate(rs, roomId, Str("secret"), Undefined);
    CreateThenValidate(rs, roomId, Str("secret"), Str("secret"));
    CreateThenValidate(rs, roomId, Str("secret"), Str("wrong"));
    CreateThenValidate(rs, roomId, Null, Undefined);
  }

  /** A room that join-room created has no password property at all, so
      validate-room reports that it requires one (`undefined !== null`) and
      that the password is correct exactly when none is supplied. */
  lemma JoinCreatedRoomValidation(rs: seq<Room>, ws: Conn, roomId: Value, userId: Value, supplied: Value)
    requires Valid(rs) && Lookup(rs, roomId).None?
    ensures RoomValidationReply(JoinRooms(rs, ws, roomId, userId), roomId, supplied)
            == RoomValidationMsg(true, true, supplied == Undefined)
    ensures PasswordReply(JoinRooms(rs, ws, roomId, userId), roomId, supplied)
            == PasswordValidationMsg(supplied == Undefined)
  {
    JoinRegisters(rs, ws, roomId, userId);
  }

  /** An unknown room id validates as absent with every flag false, and
      validate-password answers "Room not found". */
  lemma UnknownRoom(rs: seq<Room>, roomId: Value, supplied: Value)
    requires forall i :: 0 <= i < |rs| ==> rs[i].id != roomId
    ensures RoomValidationReply(rs, roomId, supplied) == RoomValidationMsg(false, false, false)
    ensures Get(PasswordReply(rs, roomId, supplied), "success") == Bool(false)
    ensures Get(PasswordReply(rs, roomId, supplied), "error") == Str("Room not found")
  {
    assert FindRoom(rs, roomId).None?;
  }

  // ---------------------------------------------------------------------
  // relay (every other message type)
  // ---------------------------------------------------------------------

  /** The sends of a relay: to the open members of the sender's first room
      whose user id is `data.target`, the message with `from` set. */
  function RelaySends(rs: seq<Room>, ws: Conn, data: Object, open: set<Conn>): seq<Delivery>
  {
    match FirstRoomWith(rs, ws)
    case None => []
    case Some(i) =>
      Broadcast(rs[i].members, WithUserId(Get(data, "target")), open, RelayMsg(data, UserOf(rs[i].members, ws)))
  }

  /** A relay reaches exactly the open members of the FIRST room holding the
      sender whose id equals the target, once each, the sender included when
      its own id matches; a sender in no room sends nothing. */
  lemma {:induction false} RelayTargets(rs: seq<Room>, ws: Conn, data: Object, open: set<Conn>, c: Conn)
    requires Valid(rs)
    ensures FirstRoomWith(rs, ws).None? ==> RelaySends(rs, ws, data, open) == []
    ensures FirstRoomWith(rs, ws).Some? ==>
      var ms := rs[FirstRoomWith(rs, ws).value].members;
      var ds := RelaySends(rs, ws, data, open);
      && CountTo(ds, c) == (if c in open && HasConn(ms, c) && UserOf(ms, c) == Get(data, "target") then 1 else 0)
      && (forall d :: d in ds ==> d.msg == RelayMsg(data, UserOf(ms, ws)))
  {
    match FirstRoomWith(rs, ws)
    case None =>
    case Some(i) =>
      var ms := rs[i].members;
      var a := WithUserId(Get(data, "target"));
      var msg := RelayMsg(data, UserOf(ms, ws));
      assert DistinctConns(ms);
      BroadcastExactlyOnce(ms, a, open, msg, c);
      BroadcastCarries(ms, a, open, msg);
      if Reaches(ms, a, open, c) {
        var j :| 0 <= j < |ms| && ms[j].conn == c && Selected(a, ms[j], open);
        UserOfUnique(ms, c, ms[j].userId);
      }
      if c in open && HasConn(ms, c) && UserOf(ms, c) == Get(data, "target") {
        assert Selected(a, ms[FindConn(ms, c).value], open);
      }
  }

  // ---------------------------------------------------------------------
  // close
  // ---------------------------------------------------------------------

  /** The registry after the close handler: the connection leaves the first
      room holding it, and that room is deleted if it is now empty. */
  function LeaveRooms(rs: seq<Room>, ws: Conn): seq<Room>
  {
    match FirstRoomWith(rs, ws)
    case None => rs
    case Some(i) =>
      var rest := Remove(rs[i].members, ws);
      if |rest| == 0 then DeleteAt(rs, i) else UpdateMembers(rs, i, rest)
  }

  /** The user-left notices of back/SignalingServer/server.js: one to each
      open member that remains, naming the user who left. */
  function LeaveSends(rs: seq<Room>, ws: Conn, open: set<Conn>): seq<Delivery>
  {
    match FirstRoomWith(rs, ws)
    case None => []
    case Some(i) =>
      Broadcast(Remove(rs[i].members, ws), Everyone, open, UserLeftMsg(UserOf(rs[i].members, ws)))
  }

  /** Close removes the connection from its first room only, deletes that
      room exactly when it became empty, and leaves every other room as it
      was (including later rooms that also hold the connection). */
  lemma LeaveRemoves(rs: seq<Room>, ws: Conn)
    requires Valid(rs)
    ensures Valid(LeaveRooms(rs, ws))
    ensures FirstRoomWith(rs, ws).None? ==> LeaveRooms(rs, ws) == rs
    ensures FirstRoomWith(rs, ws).Some? ==>
      var i := FirstRoomWith(rs, ws).value;
      var rs' := LeaveRooms(rs, ws);
      var rest := Remove(rs[i].members, ws);
      && |rest| == |rs[i].members| - 1
      && !HasConn(rest, ws)
      && (|rest| == 0 ==> Lookup(rs', rs[i].id).None? && |rs'| == |rs| - 1)
      && (|rest| > 0 ==> Lookup(rs', rs[i].id) == Some(rs[i].(members := rest)) && |rs'| == |rs|)
      && (forall id :: id != rs[i].id ==> Lookup(rs', id) == Lookup(rs, id))
  {
    match FirstRoomWith(rs, ws)
    case None =>
    case Some(i) =>
      var rest := Remove(rs[i].members, ws);
      assert DistinctConns(rs[i].members);
      if |rest| > 0 {
        var rs' := UpdateMembers(rs, i, rest);
        LookupAt(rs', i);
        forall id | id != rs[i].id ensures Lookup(rs', id) == Lookup(rs, id) {
          forall x | x in rs && x.id == id ensures x in rs' {
            var k :| 0 <= k < |rs| && rs[k] == x;
            assert k != i && rs'[k] == x;
          }
          forall x | x in rs' && x.id == id ensures x in rs {
            var k :| 0 <= k < |rs'| && rs'[k] == x;
            assert k != i && rs[k] == x;
          }
          LookupByContents(rs, rs', id);
        }
      }
  }

  /** Close notifies each open remaining member of that room exactly once,
      with the departed user's id; the closing connection and everyone
      outside the room receive nothing. */
  lemma {:induction false} LeaveNotifies(rs: seq<Room>, ws: Conn, open: set<Conn>, c: Conn)
    requires Valid(rs)
    ensures FirstRoomWith(rs, ws).None? ==> LeaveSends(rs, ws, open) == []
    ensures FirstRoomWith(rs, ws).Some? ==>
      var ms := rs[FirstRoomWith(rs, ws).value].members;
      var ds := LeaveSends(rs, ws, open);
      && CountTo(ds, c) == (if c in open && c != ws && HasConn(ms, c) then 1 else 0)
      && (forall d :: d in ds ==> d.msg == UserLeftMsg(UserOf(ms, ws)))
  {
    match FirstRoomWith(rs, ws)
    case None =>
    case Some(i) =>
      assert DistinctConns(rs[i].members);
      FarewellReaches(rs[i].members, ws, open, UserLeftMsg(UserOf(rs[i].members, ws)), c);
  }

  /** The connections among a room's members. */
  ghost function Conns(ms: seq<Member>): set<Conn>
  {
    set m | m in ms :: m.conn
  }

  /** The registry after the connections in `order` close, one by one. */
  function LeaveEach(rs: seq<Room>, order: seq<Conn>): seq<Room>
    decreases |order|
  {
    if order == [] then rs else LeaveEach(LeaveRooms(rs, order[0]), order[1..])
  }

  /** A room that is gone stays gone: closes only remove members and rooms. */
  lemma {:induction false} LeaveEachKeepsGone(rs: seq<Room>, order: seq<Conn>, id: Value)
    requires Valid(rs) && Lookup(rs, id).None?
    ensures Lookup(LeaveEach(rs, order), id).None?
    decreases |order|
  {
    if order != [] {
      var c := order[0];
      LeaveRemoves(rs, c);
      match FirstRoomWith(rs, c) {
        case None =>
        case Some(i) => LookupAt(rs, i);
      }
      LeaveEachKeepsGone(LeaveRooms(rs, c), order[1..], id);
    }
  }

  /** A room whose members all close, in any order, is deleted, provided
      none of them also sits in an earlier room: each close leaves only the
      first room holding the connection. */
  lemma {:induction false} AllLeave(rs: seq<Room>, i: nat, order: seq<Conn>)
    requires Valid(rs) && i < |rs| && rs[i].members != []
    requires forall j, m :: 0 <= j < i && m in rs[i].members ==> !HasConn(rs[j].members, m.conn)
    requires forall k, l :: 0 <= k < l < |order| ==> order[k] != order[l]
    requires forall x :: x in order <==> x in Conns(rs[i].members)
    ensures Lookup(LeaveEach(rs, order), rs[i].id).None?
    decreases |order|
  {
    var ms := rs[i].members;
    assert order != [] by {
      assert ms[0].conn in Conns(ms);
    }
    var c := order[0];
    assert c in Conns(ms);
    assert HasConn(ms, c) by {
      var m :| m in ms && m.conn == c;
      var k :| 0 <= k < |ms| && ms[k] == m;
    }
    assert forall j :: 0 <= j < i ==> !HasConn(rs[j].members, c) by {
      var m :| m in ms && m.conn == c;
    }
    FirstRoomWithAt(rs, c, i);
    assert DistinctConns(ms);
    var rest := Remove(ms, c);
    var order' := order[1..];
    var rs' := LeaveRooms(rs, c);
    LeaveRemoves(rs, c);
    if |rest| == 0 {
      LeaveEachKeepsGone(rs', order', rs[i].id);
    } else {
      assert rs' == UpdateMembers(rs, i, rest);
      OrderAfterFirst(ms, order);
      AllLeave(rs', i, order');
    }
  }

  /** Once the first connection of `order` leaves, the rest of `order`
      lists exactly the connections that remain. */
  lemma OrderAfterFirst(ms: seq<Member>, order: seq<Conn>)
    requires DistinctConns(ms) && order != []
    requires forall k, l :: 0 <= k < l < |order| ==> order[k] != order[l]
    requires forall x :: x in order <==> x in Conns(ms)
    ensures forall x :: x in order[1..] <==> x in Conns(Remove(ms, order[0]))
  {
    var c, rest, order' := order[0], Remove(ms, order[0]), order[1..];
    assert Conns(rest) == Conns(ms) - {c} by {
      forall x | x in Conns(ms) - {c} ensures x in Conns(rest) {
        var m :| m in ms && m.conn == x;
        assert m in rest;
      }
    }
    forall x | x in Conns(rest) ensures x in order' {
      var k :| 0 <= k < |order| && order[k] == x;
      assert k > 0 && order'[k - 1] == x;
    }
    forall k | 0 <= k < |order'| ensures order'[k] in Conns(rest) {
      assert order'[k] == order[k + 1];
    }
  }

  /** The first-room rule as written: a connection that joined two rooms
      leaves only the first when it closes, so the second room keeps it
      after every one of its members has closed. */
  lemma StaleMemberAfterClose()
    ensures LeaveRooms(TwoRooms, 1) == [Room(Str("r"), Null, [Member(1, Str("a")), Member(2, Str("b"))])]
    ensures LeaveEach(TwoRooms, [1, 2]) == [Room(Str("r"), Null, [Member(1, Str("a"))])]
  {
    var q := Room(Str("q"), Null, [Member(1, Str("a"))]);
    var r := Room(Str("r"), Null, [Member(1, Str("a")), Member(2, Str("b"))]);
    assert TwoRooms == [q, r];
    assert HasConn(q.members, 1);
    assert FirstRoomWith(TwoRooms, 1) == Some(0);
    assert Remove(q.members, 1) == [];
    assert LeaveRooms(TwoRooms, 1) == [r];
    var rest := [Member(1, Str("a"))];
    assert FindConn(r.members, 2) == Some(1);
    assert Remove(r.members, 2) == rest;
    assert FirstRoomWith([r], 2) == Some(0);
    assert LeaveRooms([r], 2) == [r.(members := rest)];
    assert LeaveEach([r.(members := rest)], []) == [r.(members := rest)];
  }

  /** Rooms "q" (connection 1) and "r" (connections 1 and 2). */
  const TwoRooms: seq<Room> := [
    Room(Str("q"), Null, [Member(1, Str("a"))]),
    Room(Str("r"), Null, [Member(1, Str("a")), Member(2, Str("b"))])
  ]

  /** What the close handler evidently intends: the connection leaves every
      room it is in, and each room it empties is deleted. */
  function LeaveAll(rs: seq<Room>, ws: Conn): (r: seq<Room>)
    ensures |r| <= |rs|
    ensures forall x :: x in r ==> exists y :: y in rs && x == y.(members := Remove(y.members, ws))
    ensures forall x :: x in r ==> x.members != [] || exists y :: y in rs && y == x && !HasConn(y.members, ws)
  {
    if rs == [] then []
    else
      var last := rs[|rs| - 1];
      var left := last.(members := Remove(last.members, ws));
      var init := LeaveAll(rs[..|rs| - 1], ws);
      assert forall y :: y in rs[..|rs| - 1] ==> y in rs;
      if HasConn(last.members, ws) && left.members == [] then init else init + [left]
  }

  /** With the corrected close, the connection is in no room afterwards. */
  lemma {:induction false} LeaveAllClears(rs: seq<Room>, ws: Conn)
    requires Valid(rs)
    ensures forall x :: x in LeaveAll(rs, ws) ==> !HasConn(x.members, ws)
  {
    forall x | x in LeaveAll(rs, ws) ensures !HasConn(x.members, ws) {
      var y :| y in rs && x == y.(members := Remove(y.members, ws));
      var k :| 0 <= k < |rs| && rs[k] == y;
      assert DistinctConns(rs[k].members);
    }
  }

  /** On the two-room registry, the corrected close leaves nothing behind. */
  lemma LeaveAllTwoRooms()
    ensures LeaveAll(LeaveAll(TwoRooms, 1), 2) == []
  {
    var q := Room(Str("q"), Null, [Member(1, Str("a"))]);
    var r := Room(Str("r"), Null, [Member(1, Str("a")), Member(2, Str("b"))]);
    assert TwoRooms == [q, r];
    assert TwoRooms[..1] == [q];
    assert Remove(q.members, 1) == [];
    assert HasConn(q.members, 1) && HasConn(r.members, 1);
    var rest := [Member(1, Str("a"))];
    assert Remove(r.members, 1) == [Member(2, Str("b"))];
    assert [q][..0] == [];
    assert LeaveAll([q], 1) == [];
    var r1 := r.(members := [Member(2, Str("b"))]);
    assert LeaveAll(TwoRooms, 1) == [r1];
    assert Remove(r1.members, 2) == [];
    assert [r1][..0] == [];
  }

  // ---------------------------------------------------------------------
  // sendToUser and the relay of server.js
  // ---------------------------------------------------------------------

  /** `sendToUser(roomId, userId, data)`: `data` to every open member of the
      room registered under `userId`; nothing when the room is missing. */
  function SendToUserSends(rs: seq<Room>, roomId: Value, userId: Value, msg: Object, open: set<Conn>): seq<Delivery>
  {
    match Lookup(rs, roomId)
    case None => []
    case Some(r) => Broadcast(r.members, WithUserId(userId), open, msg)
  }

  /** server.js finds the sender's first room with `Array.prototype.find`
      and hands its id to sendToUser, which looks the room up again. */
  function LegacyRelaySends(rs: seq<Room>, ws: Conn, data: Object, open: set<Conn>): seq<Delivery>
  {
    match FirstRoomWith(rs, ws)
    case None => []
    case Some(i) =>
      SendToUserSends(rs, rs[i].id, Get(data, "target"), RelayMsg(data, UserOf(rs[i].members, ws)), open)
  }

  lemma SendToUserMissingRoom(rs: seq<Room>, roomId: Value, userId: Value, msg: Object, open: set<Conn>)
    requires forall i :: 0 <= i < |rs| ==> rs[i].id != roomId
    ensures SendToUserSends(rs, roomId, userId, msg, open) == []
  {
    assert FindRoom(rs, roomId).None?;
  }

  /** Because room ids are unique, looking the room up again by its id finds
      the same room: the relay of server.js sends exactly what the relay
      loop of the later servers sends. */
  lemma LegacyRelayAgrees(rs: seq<Room>, ws: Conn, data: Object, open: set<Conn>)
    requires Valid(rs)
    ensures LegacyRelaySends(rs, ws, data, open) == RelaySends(rs, ws, data, open)
  {
    match FirstRoomWith(rs, ws)
    case None =>
    case Some(i) => LookupAt(rs, i);
  }

  // ---------------------------------------------------------------------
  // Dispatch
  // ---------------------------------------------------------------------

  /** The registry after one message and what the handler sent. */
  datatype Effect = Effect(rooms: seq<Room>, sends: seq<Delivery>)

  /** The branch of the message switch a type selects. */
  datatype Route = JoinRoute | CreateRoute | ValidateRoomRoute | ValidatePasswordRoute | RelayRoute

  /** `switch (data.type)` over the four client-to-server control types of
      the namespaced vocabulary; every other value takes the default branch. */
  function ServerRoute(t: Value): Route
  {
    if t == Str(Name(ClientJoinRoom)) then JoinRoute
    else if t == Str(Name(ClientCreateRoom)) then CreateRoute
    else if t == Str(Name(ClientValidateRoom)) then ValidateRoomRoute
    else if t == Str(Name(ClientValidatePassword)) then ValidatePasswordRoute
    else RelayRoute
  }

  /** Each control type reaches its own branch; every other entry of the
      vocabulary, client:disconnect included, is relayed. */
  lemma ServerRouteOfNames(t: EventType)
    ensures ServerRoute(Str(Name(t))) == match t
      case ClientJoinRoom => JoinRoute
      case ClientCreateRoom => CreateRoute
      case ClientValidateRoom => ValidateRoomRoute
      case ClientValidatePassword => ValidatePasswordRoute
      case _ => RelayRoute
  {
    NamesDistinct(t, ClientJoinRoom);
    NamesDistinct(t, ClientCreateRoom);
    NamesDistinct(t, ClientValidateRoom);
    NamesDistinct(t, ClientValidatePassword);
  }
}
