/**
 * What the two copies of `SignalingClient` share: the request each method
 * sends, the reply type it waits for, and the rule `onmessage` follows to
 * hand an incoming message either to the request waiting for it or to a
 * registered handler. Promises are not modelled: a pending request is a key
 * in a set, and its resolution an entry in the client's event log.
 */
module Correlator {
  import opened Json
  import opened EventTypes
  import opened Protocol

  /** `this.ws`: null, or the socket `connect()` created, which either opened
      or reported an error. */
  datatype Socket = NoSocket | Open | Broken

  /** `if (this.ws === null) await this.connect()`: `connects` is whether the
      new socket fires `onopen` (rather than `onerror`). */
  function AfterConnect(ws: Socket, connects: bool): (r: Socket)
    ensures r != NoSocket
    ensures ws != NoSocket ==> r == ws
    ensures ws == NoSocket ==> (r == Open <==> connects)
  {
    if ws != NoSocket then ws else if connects then Open else Broken
  }

  /** The connect step rejects only when it ran and failed. */
  predicate ConnectFails(ws: Socket, connects: bool)
  {
    ws == NoSocket && !connects
  }

  datatype Error = Failure(message: string) | TypeError

  /** Why a request method's promise was rejected, or that it is waiting
      for its reply. */
  datatype Outcome = Awaiting | Rejected(error: Error)

  const ConnectFailed := "Failed to connect to WebSocket server"
  const CreateBusy := "Another room creation is in progress"
  const ValidateBusy := "Another validation is in progress"
  const PasswordBusy := "Another password validation is in progress"
  const JoinBusy := "Already joining a room"

  /** A registered handler, by identity: handlers are functions whose effects
      are not modelled. */
  type HandlerId = nat

  /** What the client observably does: messages it sends, pending requests it
      resolves, handlers it calls, and closing its socket. */
  datatype Event =
    | Sent(msg: Object)
    | Resolved(key: string, reply: Object)
    | HandlerCalled(handler: HandlerId, msg: Object)
    | SocketClosed

  /** The reply types a request can wait for. */
  function ReplyKeys(d: Dialect): set<string>
  {
    {Wire(d, ServerRoomCreated), Wire(d, ServerRoomValidation), Wire(d, ServerPasswordValidation), Wire(d, ServerWelcome)}
  }

  // ---------------------------------------------------------------------
  // Requests
  // ---------------------------------------------------------------------

  /** `{ type: create-room, password: password || null }` */
  function CreateRoomRequest(d: Dialect, password: Value): (r: Object)
    ensures Get(r, "type") == Str(Wire(d, ClientCreateRoom))
    ensures Get(r, "password") == OrNull(password) && Get(r, "password") != Undefined
  {
    Typed(d, ClientCreateRoom)["password" := OrNull(password)]
  }

  /** `{ type: validate-room, roomId }` */
  function ValidateRoomRequest(d: Dialect, roomId: Value): (r: Object)
    ensures Get(r, "type") == Str(Wire(d, ClientValidateRoom))
    ensures Get(r, "roomId") == roomId
  {
    With(Typed(d, ClientValidateRoom), "roomId", roomId)
  }

  /** `{ type: validate-password, roomId, password }` */
  function ValidatePasswordRequest(d: Dialect, roomId: Value, password: Value): (r: Object)
    ensures Get(r, "type") == Str(Wire(d, ClientValidatePassword))
    ensures Get(r, "roomId") == roomId && Get(r, "password") == password
  {
    With(With(Typed(d, ClientValidatePassword), "roomId", roomId), "password", password)
  }

  /** `{ type: join-room, roomId, userId }` */
  function JoinRequest(d: Dialect, roomId: Value, userId: Value): (r: Object)
    ensures Get(r, "type") == Str(Wire(d, ClientJoinRoom))
    ensures Get(r, "roomId") == roomId && Get(r, "userId") == userId
  {
    With(With(Typed(d, ClientJoinRoom), "roomId", roomId), "userId", userId)
  }

  /** `{ target, type, data, from }`, the envelope of `sendToUser`. */
  function Envelope(target: Value, kind: Value, data: Value, from: Value): (r: Object)
    ensures Get(r, "target") == target && Get(r, "type") == kind
    ensures Get(r, "data") == data && Get(r, "from") == from
    ensures forall k :: k !in {"target", "type", "data", "from"} ==> k !in r
  {
    With(With(With(With(map[], "target", target), "type", kind), "data", data), "from", from)
  }

  // ---------------------------------------------------------------------
  // onmessage
  // ---------------------------------------------------------------------

  /** Who receives an incoming message whose `type` reads as `key`. */
  datatype Receiver = ResolvePending | CallHandler(handler: HandlerId) | Ignore

  /** A waiting request takes the message before any handler does. */
  function ReceiverOf(pending: set<string>, handlers: map<string, HandlerId>, key: string): (r: Receiver)
    ensures r == ResolvePending <==> key in pending
    ensures r.CallHandler? <==> key !in pending && key in handlers
    ensures r.CallHandler? ==> r.handler == handlers[key]
  {
    if key in pending then ResolvePending
    else if key in handlers then CallHandler(handlers[key])
    else Ignore
  }

  /** The events one incoming message causes, and the pending set after it. */
  function OnMessageStep(pending: set<string>, handlers: map<string, HandlerId>, key: string, data: Object): (r: (set<string>, seq<Event>))
    ensures |r.1| <= 1
    ensures r.0 == pending - {key}
  {
    match ReceiverOf(pending, handlers, key)
    case ResolvePending => (pending - {key}, [Resolved(key, data)])
    case CallHandler(h) => (pending, [HandlerCalled(h, data)])
    case Ignore => (pending, [])
  }

  /** A reply is taken once: the first message of a pending type resolves the
      request, and a second message of that type goes to the handler. */
  lemma ReplyTakenOnce(pending: set<string>, handlers: map<string, HandlerId>, key: string, first: Object, second: Object)
    requires key in pending && key in handlers
    ensures OnMessageStep(pending, handlers, key, first) == (pending - {key}, [Resolved(key, first)])
    ensures var after := OnMessageStep(pending, handlers, key, first).0;
      OnMessageStep(after, handlers, key, second) == (after, [HandlerCalled(handlers[key], second)])
  {
    assert key !in pending - {key};
  }

  // ---------------------------------------------------------------------
  // Client and server together
  // ---------------------------------------------------------------------

  /** The namespaced requests reach their own branch of the servers' switch. */
  lemma NamespacedRequestsRoute(password: Value, roomId: Value, userId: Value)
    ensures ServerRoute(Get(CreateRoomRequest(Namespaced, password), "type")) == CreateRoute
    ensures ServerRoute(Get(ValidateRoomRequest(Namespaced, roomId), "type")) == ValidateRoomRoute
    ensures ServerRoute(Get(ValidatePasswordRequest(Namespaced, roomId, password), "type")) == ValidatePasswordRoute
    ensures ServerRoute(Get(JoinRequest(Namespaced, roomId, userId), "type")) == JoinRoute
  {
    ServerRouteOfNames(ClientCreateRoom);
    ServerRouteOfNames(ClientValidateRoom);
    ServerRouteOfNames(ClientValidatePassword);
    ServerRouteOfNames(ClientJoinRoom);
  }

  /** The replies the servers send carry the type the request waits for. */
  lemma NamespacedRepliesKeyed(newId: string, userId: Value, roomId: Value, found: bool, required: bool, correct: bool, success: bool)
    ensures PropertyKey(Get(RoomCreatedMsg(newId), "type")) == Wire(Namespaced, ServerRoomCreated)
    ensures PropertyKey(Get(RoomValidationMsg(found, required, correct), "type")) == Wire(Namespaced, ServerRoomValidation)
    ensures PropertyKey(Get(PasswordValidationMsg(success), "type")) == Wire(Namespaced, ServerPasswordValidation)
    ensures PropertyKey(Get(RoomNotFoundMsg(), "type")) == Wire(Namespaced, ServerPasswordValidation)
    ensures PropertyKey(Get(WelcomeMsg(Namespaced, userId, roomId), "type")) == Wire(Namespaced, ServerWelcome)
  {
    assert "type" != "roomId" && "type" != "userId" && "type" != "success" && "type" != "error";
    assert "type" != "exists" && "type" != "passwordRequired" && "type" != "passwordCorrect";
  }

  /** The plain-vocabulary requests of front/js/SignalingClient.js: only
      join-room has a branch in server.js, and the later servers relay all
      four, so no room-created, room-validation or password-validation
      reply ever answers them. */
  lemma PlainRequestsRoute(password: Value, roomId: Value, userId: Value)
    ensures Get(JoinRequest(Plain, roomId, userId), "type") == Str("join-room")
    ensures Get(CreateRoomRequest(Plain, password), "type") != Str("join-room")
    ensures ServerRoute(Get(CreateRoomRequest(Plain, password), "type")) == RelayRoute
    ensures ServerRoute(Get(ValidateRoomRequest(Plain, roomId), "type")) == RelayRoute
    ensures ServerRoute(Get(ValidatePasswordRequest(Plain, roomId, password), "type")) == RelayRoute
    ensures ServerRoute(Get(JoinRequest(Plain, roomId, userId), "type")) == RelayRoute
    ensures PropertyKey(Get(WelcomeMsg(Plain, userId, roomId), "type")) == Wire(Plain, ServerWelcome)
  {
    assert Suffix(ClientCreateRoom)[0] == 'c';
    PlainNotNamespaced(ClientCreateRoom);
    PlainNotNamespaced(ClientValidateRoom);
    PlainNotNamespaced(ClientValidatePassword);
    PlainNotNamespaced(ClientJoinRoom);
  }

  /** A plain client-to-server name is none of the four namespaced names
      the servers' switch tests: its second letter is not the 'l' of
      "client:". */
  lemma PlainNotNamespaced(t: EventType)
    requires DirectionOf(t) == ClientToServer
    ensures ServerRoute(Str(Suffix(t))) == RelayRoute
  {
    assert Suffix(t)[1] != 'l';
    assert Name(ClientJoinRoom)[1] == 'l';
    assert Name(ClientCreateRoom)[1] == 'l';
    assert Name(ClientValidateRoom)[1] == 'l';
    assert Name(ClientValidatePassword)[1] == 'l';
  }

  /** A client that joined under its own user id and sends with
      `sendToUser` is relayed unchanged: the server's `from` is the one the
      client already wrote; any other registered id replaces it. */
  lemma EnvelopeRelayed(target: Value, kind: Value, data: Value, userId: Value, senderId: Value)
    ensures RelayMsg(Envelope(target, kind, data, userId), userId) == Envelope(target, kind, data, userId)
    ensures var r := RelayMsg(Envelope(target, kind, data, userId), senderId);
      Get(r, "from") == senderId && Get(r, "target") == target && Get(r, "type") == kind && Get(r, "data") == data
  {
    var e := Envelope(target, kind, data, userId);
    var r := RelayMsg(e, userId);
    assert forall k :: Get(r, k) == Get(e, k);
    GetExtensional(r, e);
  }

  /** Two objects that read the same at every key are equal. */
  lemma GetExtensional(a: Object, b: Object)
    requires forall k :: Get(a, k) == Get(b, k)
    requires forall k :: k in a ==> a[k] != Undefined
    requires forall k :: k in b ==> b[k] != Undefined
    ensures a == b
  {
    forall k ensures (k in a) == (k in b) && (k in a ==> a[k] == b[k]) {
      assert Get(a, k) == Get(b, k);
    }
  }
}
