/**
 * The closed message vocabulary of the signaling protocol
 * (front/src/utils/EventTypes.js). The JavaScript object is frozen, so its
 * entries cannot change at run time; here the vocabulary is a datatype and
 * its strings a function, which cannot change either.
 */
module EventTypes {
  import opened Json

  datatype EventType =
    // client to server
    | ClientJoinRoom
    | ClientCreateRoom
    | ClientValidateRoom
    | ClientValidatePassword
    | ClientDisconnect
    // server to client
    | ServerWelcome
    | ServerRoomCreated
    | ServerRoomValidation
    | ServerPasswordValidation
    | ServerNewUser
    // client to client (WebRTC)
    | PeerOffer
    | PeerAnswer
    | PeerIceCandidate
    | PeerUserLeft

  /** Every entry of the table, in its declaration order. */
  const AllTypes: seq<EventType> := [
    ClientJoinRoom, ClientCreateRoom, ClientValidateRoom, ClientValidatePassword, ClientDisconnect,
    ServerWelcome, ServerRoomCreated, ServerRoomValidation, ServerPasswordValidation, ServerNewUser,
    PeerOffer, PeerAnswer, PeerIceCandidate, PeerUserLeft
  ]

  /** The string each entry of the table stands for. */
  function Name(t: EventType): string
  {
    match t
    case ClientJoinRoom => "client:join-room"
    case ClientCreateRoom => "client:create-room"
    case ClientValidateRoom => "client:validate-room"
    case ClientValidatePassword => "client:validate-password"
    case ClientDisconnect => "client:disconnect"
    case ServerWelcome => "server:welcome"
    case ServerRoomCreated => "server:room-created"
    case ServerRoomValidation => "server:room-validation"
    case ServerPasswordValidation => "server:password-validation"
    case ServerNewUser => "server:new-user"
    case PeerOffer => "peer:offer"
    case PeerAnswer => "peer:answer"
    case PeerIceCandidate => "peer:ice-candidate"
    case PeerUserLeft => "peer:user-left"
  }

  datatype Direction = ClientToServer | ServerToClient | PeerToPeer

  function DirectionOf(t: EventType): Direction
  {
    match t
    case ClientJoinRoom | ClientCreateRoom | ClientValidateRoom | ClientValidatePassword | ClientDisconnect =>
      ClientToServer
    case ServerWelcome | ServerRoomCreated | ServerRoomValidation | ServerPasswordValidation | ServerNewUser =>
      ServerToClient
    case PeerOffer | PeerAnswer | PeerIceCandidate | PeerUserLeft =>
      PeerToPeer
  }

  function Prefix(d: Direction): string
  {
    match d
    case ClientToServer => "client:"
    case ServerToClient => "server:"
    case PeerToPeer => "peer:"
  }

  /** The name without its namespace: the plain spelling the oldest server
      (server.js) and the older client (front/js/SignalingClient.js) use. */
  function Suffix(t: EventType): string
  {
    match t
    case ClientJoinRoom => "join-room"
    case ClientCreateRoom => "create-room"
    case ClientValidateRoom => "validate-room"
    case ClientValidatePassword => "validate-password"
    case ClientDisconnect => "disconnect"
    case ServerWelcome => "welcome"
    case ServerRoomCreated => "room-created"
    case ServerRoomValidation => "room-validation"
    case ServerPasswordValidation => "password-validation"
    case ServerNewUser => "new-user"
    case PeerOffer => "offer"
    case PeerAnswer => "answer"
    case PeerIceCandidate => "ice-candidate"
    case PeerUserLeft => "user-left"
  }

  /** Which spelling of the vocabulary a component uses. */
  datatype Dialect = Namespaced | Plain

  function Wire(d: Dialect, t: EventType): string
  {
    match d
    case Namespaced => Name(t)
    case Plain => Suffix(t)
  }

  /** Every name carries the namespace of its direction. */
  lemma NameIsNamespaced(t: EventType)
    ensures Name(t) == Prefix(DirectionOf(t)) + Suffix(t)
  {
    match DirectionOf(t)
    case ClientToServer => ClientNamesNamespaced(t);
    case ServerToClient => ServerNamesNamespaced(t);
    case PeerToPeer => PeerNamesNamespaced(t);
  }

  lemma ClientNamesNamespaced(t: EventType)
    requires DirectionOf(t) == ClientToServer
    ensures Name(t) == "client:" + Suffix(t)
  {
    match t
    case ClientJoinRoom => assert "client:join-room" == "client:" + "join-room";
    case ClientCreateRoom => assert "client:create-room" == "client:" + "create-room";
    case ClientValidateRoom => assert "client:validate-room" == "client:" + "validate-room";
    case ClientValidatePassword => assert "client:validate-password" == "client:" + "validate-password";
    case ClientDisconnect => assert "client:disconnect" == "client:" + "disconnect";
  }

  lemma ServerNamesNamespaced(t: EventType)
    requires DirectionOf(t) == ServerToClient
    ensures Name(t) == "server:" + Suffix(t)
  {
    match t
    case ServerWelcome => assert "server:welcome" == "server:" + "welcome";
    case ServerRoomCreated => assert "server:room-created" == "server:" + "room-created";
    case ServerRoomValidation => assert "server:room-validation" == "server:" + "room-validation";
    case ServerPasswordValidation => assert "server:password-validation" == "server:" + "password-validation";
    case ServerNewUser => assert "server:new-user" == "server:" + "new-user";
  }

  lemma PeerNamesNamespaced(t: EventType)
    requires DirectionOf(t) == PeerToPeer
    ensures Name(t) == "peer:" + Suffix(t)
  {
    match t
    case PeerOffer => assert "peer:offer" == "peer:" + "offer";
    case PeerAnswer => assert "peer:answer" == "peer:" + "answer";
    case PeerIceCandidate => assert "peer:ice-candidate" == "peer:" + "ice-candidate";
    case PeerUserLeft => assert "peer:user-left" == "peer:" + "user-left";
  }

  /** Reads a type string back as an entry of the table. */
  function Parse(s: string): (r: Option<EventType>)
    ensures r.Some? ==> Name(r.value) == s
  {
    if s == "client:join-room" then Some(ClientJoinRoom)
    else if s == "client:create-room" then Some(ClientCreateRoom)
    else if s == "client:validate-room" then Some(ClientValidateRoom)
    else if s == "client:validate-password" then Some(ClientValidatePassword)
    else if s == "client:disconnect" then Some(ClientDisconnect)
    else if s == "server:welcome" then Some(ServerWelcome)
    else if s == "server:room-created" then Some(ServerRoomCreated)
    else if s == "server:room-validation" then Some(ServerRoomValidation)
    else if s == "server:password-validation" then Some(ServerPasswordValidation)
    else if s == "server:new-user" then Some(ServerNewUser)
    else if s == "peer:offer" then Some(PeerOffer)
    else if s == "peer:answer" then Some(PeerAnswer)
    else if s == "peer:ice-candidate" then Some(PeerIceCandidate)
    else if s == "peer:user-left" then Some(PeerUserLeft)
    else None
  }

  /** Parse inverts Name, so no two entries share a string. */
  lemma ParseName(t: EventType)
    ensures Parse(Name(t)) == Some(t)
  {
    match DirectionOf(t)
    case ClientToServer => ParseClientName(t);
    case ServerToClient => ParseServerName(t);
    case PeerToPeer => ParsePeerName(t);
  }

  lemma ParseClientName(t: EventType)
    requires DirectionOf(t) == ClientToServer
    ensures Parse(Name(t)) == Some(t)
  {
  }

  lemma ParseServerName(t: EventType)
    requires DirectionOf(t) == ServerToClient
    ensures Parse(Name(t)) == Some(t)
  {
    assert Name(t)[0] == 's';
  }

  lemma ParsePeerName(t: EventType)
    requires DirectionOf(t) == PeerToPeer
    ensures Parse(Name(t)) == Some(t)
  {
    assert Name(t)[0] == 'p';
  }

  lemma NamesDistinct(a: EventType, b: EventType)
    ensures Name(a) == Name(b) <==> a == b
  {
    ParseName(a);
    ParseName(b);
  }

  lemma AllTypesComplete(t: EventType)
    ensures t in AllTypes && |AllTypes| == 14
  {
  }

  /** The table back/server.js declares for itself: the same entries with
      the same strings, except that it has no CLIENT_DISCONNECT. */
  function BackServerTable(t: EventType): (r: Option<string>)
  {
    match t
    case ClientJoinRoom => Some("client:join-room")
    case ClientCreateRoom => Some("client:create-room")
    case ClientValidateRoom => Some("client:validate-room")
    case ClientValidatePassword => Some("client:validate-password")
    case ClientDisconnect => None
    case ServerWelcome => Some("server:welcome")
    case ServerRoomCreated => Some("server:room-created")
    case ServerRoomValidation => Some("server:room-validation")
    case ServerPasswordValidation => Some("server:password-validation")
    case ServerNewUser => Some("server:new-user")
    case PeerOffer => Some("peer:offer")
    case PeerAnswer => Some("peer:answer")
    case PeerIceCandidate => Some("peer:ice-candidate")
    case PeerUserLeft => Some("peer:user-left")
  }

  lemma BackServerTableAgrees(t: EventType)
    ensures BackServerTable(t) == if t == ClientDisconnect then None else Some(Name(t))
  {
  }
}
