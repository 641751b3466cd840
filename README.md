# Signaling core of a WebRTC conference with speech-to-text

This project models, in Dafny, the core of a small WebRTC conferencing system:

- **The signaling server's room registry and message dispatcher**, in the repository's three variants:
  - `back/SignalingServer/server.js`, the most complete;
  - `back/server.js`, an earlier copy;
  - `server.js`, the oldest.

  All three keep one process-wide `rooms: Map<roomId, Map<ws, userId>>`, where each inner map can also carry a `password` property. Handlers mutate that map in place. They answer the sender, broadcast to a room, or relay a peer message to the members whose user id is the message's `target`.
- **The client-side request/response correlator** `SignalingClient`, in both copies:
  - `front/src/utils/SignalingClient.js`, over the namespaced vocabulary;
  - `front/js/SignalingClient.js`, over the plain vocabulary.
- **The frozen message vocabulary** `front/src/utils/EventTypes.js`.
- **The phoneme post-processing** of `decode_sequence` in `stt/processor.py`.

## Layout

| file | module | what it holds |
|---|---|---|
| `json.dfy` | `Json` | Parsed JSON values and objects; JavaScript `===`, truthiness, `v \|\| null`, `String(n)`, property keys |
| `event_types.dfy` | `EventTypes` | The vocabulary as a datatype; namespaced and plain spellings; back/server.js's inlined table |
| `room_store.dfy` | `RoomStore` | Rooms and members as ordered sequences (JavaScript `Map` insertion order); `set`/`delete`; the first room holding a connection; broadcasting |
| `protocol.dfy` | `Protocol` | What each handler does and sends, as functions of the registry; the lemmas about them |
| `server_state.dfy` | `ServerState` | The `Registry` class: `rooms` as a field, a ghost log of sends, and the handlers' in-place loops |
| `signaling_server.dfy` | `SignalingServer` | The switch and close handler of back/SignalingServer/server.js |
| `back_server.dfy` | `BackServer` | The same for back/server.js, with its unguarded validate-password |
| `legacy_server.dfy` | `LegacyServer` | server.js: join-room with a drawn user id; everything else relayed through `sendToUser` |
| `correlator.dfy` | `Correlator` | What both clients share: requests, reply keys, the `onmessage` precedence rule, client and server lemmas |
| `react_client.dfy` | `ReactSignaling` | `SignalingClient` of front/src/utils as a class |
| `plain_client.dfy` | `PlainSignaling` | `SignalingClient` of front/js as a class |
| `phoneme_decoder.dfy` | `PhonemeDecoder` | `decode_sequence`: guards, collapse, silence removal, join |

## How the system is modelled

### Messages

A parsed message is a `map<string, Value>`.

- `Value` covers `undefined`, `null`, booleans, integers, strings and object references. Equality on `Value` is `===`, which is also the key equality of a JavaScript `Map`.
- A missing field reads as `Undefined`.
- `JSON.stringify` drops a field whose value is `undefined`, so `With` removes such a key.

### Server

- **Connections** are numbers. `readyState === OPEN` is the `open` set passed to each handler.
- **State.** `Registry.rooms` is a sequence of rooms in insertion order. Each room holds its members in insertion order.
- **Sends.** Every `send` is appended to the ghost log `Registry.sent`.
- **Handler methods.** Each handler is a method of `Registry`. The loops over rooms and members stay loops, including the break at the first room that holds the connection.
- **Specification functions.** Each method is proved equal to a function of the registry before the call, such as `JoinRooms`/`JoinSends` or `LeaveRooms`/`LeaveSends`. The protocol's properties are lemmas about those functions.
- **Random values.** The random room id of create-room is a parameter. So is server.js's draw `Math.floor(Math.random() * 100)`, which must be below 100.
- **Several rooms per connection.** Join never takes a connection out of an earlier room, so a connection may sit in several rooms. The model allows this. Relay and close act on the first such room only.

### Clients

- **Fields.** Each copy of `SignalingClient` is a class:
  - `pending` is the set of reply types with a truthy `pendingRequests` entry;
  - `handlers` maps a type key to a handler identity;
  - `ws` is `NoSocket`, `Open` or `Broken`;
  - the ghost `events` log records sends, resolutions, handler calls and socket closes.
- **Methods run as one step.** The `await this.connect()` is folded into each method, and whether the new socket opens is a parameter. A failed connect leaves `this.ws` set to the broken socket, so the client does not connect again.
- **validatePassword never connects.** With no socket, it registers its pending entry and then throws a TypeError inside the promise executor. The promise is rejected and the entry stays, so every later `validatePassword` is refused as "in progress".

### Speech to text

- The Viterbi decoder is a parameter: the state path it returns, or `None` for an exception.
- A state missing from `index_map` raises a KeyError, which the same handler catches, so it gives `"[Decoding Error]"`.
- `PHONEMES` and `INDEX_MAP` of stt/phonemes.py are constants.

### Behaviour a reader might not expect

- **Password of an implicitly created room.** join-room creates a missing room with an undefined password: the new inner `Map` has no `password` property. validate-room then reports `passwordRequired: true` (`undefined !== null`), and `passwordCorrect` holds exactly when no password is supplied.
  - Members: `Protocol.JoinCreatedRoomValidation`, `Protocol.JoinRegisters`.
- **Room-id collisions.** create-room overwrites an existing room with the drawn id. It does not draw again.
  - Member: `Protocol.CreateStores`.
- **Several rooms per connection.** Nothing restricts a connection to one room. A close leaves only the first room that holds the connection, so a later room keeps the closed connection as a member, possibly forever (see Findings).
  - Members: `Protocol.AllLeave`, `Protocol.StaleMemberAfterClose`.
- **validate-password on a missing room.** back/server.js throws instead of answering (see Findings).

## Model

| member | source | states |
|---|---|---|
| Json.With | back/SignalingServer/server.js:80 | `{...o, k: v}` after `JSON.stringify`: key `k` reads `v` and every other key reads as before; an undefined value leaves the key out |
| Json.OrNull | back/SignalingServer/server.js:34 | `v \|\| null` keeps a truthy value and turns every falsy one (missing, empty string, false, 0, null) into `null`; the result is never undefined or "" |
| Json.Truthy | back/SignalingServer/server.js:34 | JavaScript truthiness, as `\|\|` tests it: `undefined`, `null`, `false`, `0` and `""` are falsy |
| Json.PropertyKey | front/src/utils/SignalingClient.js:29-35 | The key `obj[data.type]` looks up: `String` of the value, so a string is its own key |
| Json.Decimal | server.js:13 | `String(n)` of a non-negative integer: at least one character, all decimal digits, no leading zero |
| Json.ParseDecimalOfDecimal | server.js:13 | The decimal text of `n` reads back as `n` |
| Json.DecimalLength | server.js:13 | A number below 10 has one digit and a number from 10 to 99 has two |
| EventTypes.NameIsNamespaced | front/src/utils/EventTypes.js:3-20 | Every type string is its direction's prefix (`client:`, `server:`, `peer:`) followed by its plain name |
| EventTypes.ClientNamesNamespaced | front/src/utils/EventTypes.js:3-7 | The client-to-server strings all start with `client:` |
| EventTypes.ServerNamesNamespaced | front/src/utils/EventTypes.js:10-14 | The server-to-client strings all start with `server:` |
| EventTypes.PeerNamesNamespaced | front/src/utils/EventTypes.js:17-20 | The peer strings all start with `peer:` |
| EventTypes.Parse | front/src/utils/EventTypes.js:1-21 | Reading a type string back gives an entry only if that entry's string is the input |
| EventTypes.ParseName | front/src/utils/EventTypes.js:1-21 | Parsing any entry's string gives that entry back |
| EventTypes.NamesDistinct | front/src/utils/EventTypes.js:1-21 | Two entries have the same string exactly when they are the same entry, so the servers' switch is deterministic |
| EventTypes.AllTypesComplete | front/src/utils/EventTypes.js:1-21 | The table lists all 14 entries |
| EventTypes.BackServerTableAgrees | back/server.js:2-20 | back/server.js's inlined table has the same strings for every entry except CLIENT_DISCONNECT, which it lacks |
| RoomStore.Lookup | back/SignalingServer/server.js:44 | `rooms.get(id)`: the room with that id or nothing; LookupAt and LookupByContents state it |
| RoomStore.Broadcast | back/SignalingServer/server.js:24-26 | The sends of a loop over a room's members that sends to each selected open one; its properties are BroadcastExactlyOnce and BroadcastCarries |
| RoomStore.FindConn | back/SignalingServer/server.js:75 | `users.has(ws)` and where: the first position holding the connection, or none when no member holds it |
| RoomStore.UserOf | back/SignalingServer/server.js:76 | `users.get(ws)` is the user id of a member entry for that connection |
| RoomStore.UserOfUnique | back/SignalingServer/server.js:76 | With unique map keys, the entry for a connection determines `users.get` |
| RoomStore.Put | back/SignalingServer/server.js:20 | `room.set(ws, userId)`: an existing key keeps its position and takes the new id; a new key goes last; other entries are untouched; keys stay unique |
| RoomStore.Remove | back/SignalingServer/server.js:93 | `users.delete(ws)`: one entry fewer when present, every other entry kept, the connection gone |
| RoomStore.FindRoom | back/SignalingServer/server.js:18 | `rooms.get(roomId)` finds the first room with that id, or reports that none has it |
| RoomStore.SetRoom | back/SignalingServer/server.js:35 | `rooms.set(id, room)`: lookups of that id give the new room, every other id reads as before, an existing id keeps its position |
| RoomStore.UpdateMembers | back/SignalingServer/server.js:20 | Changing one room's members in place leaves every other room and the room order as they were |
| RoomStore.DeleteAt | back/SignalingServer/server.js:109 | `rooms.delete(roomId)`: the room is gone, the others keep their order and lookups |
| RoomStore.FirstRoomWith | back/SignalingServer/server.js:74-75 | The scan of `for (const [roomId, users] of rooms) if (users.has(ws))`: the first room holding the connection, or none |
| RoomStore.BroadcastExactlyOnce | back/SignalingServer/server.js:24-26 | A loop over a room's members sends exactly one message to each selected, open member and none to anybody else |
| RoomStore.BroadcastCarries | back/SignalingServer/server.js:24-26 | Every message such a loop sends is the one message it was given |
| Protocol.JoinRooms | back/SignalingServer/server.js:17-20 | The registry after join-room: the room, found or created with an undefined password, with the sender set in it; its properties are JoinRegisters |
| Protocol.JoinSends | back/SignalingServer/server.js:21-26 | The welcome to the sender followed by the new-user broadcast to the room's other open members; its properties are JoinNotifies |
| Protocol.CreateRooms | back/SignalingServer/server.js:31-35 | The registry after create-room: an empty room with `password \|\| null` under the drawn id; its properties are CreateStores |
| Protocol.RoomValidationReply | back/SignalingServer/server.js:44-51 | The room-validation reply: all false for a missing room, else `password !== null` and `supplied === password`; its properties are CreateThenValidate and UnknownRoom |
| Protocol.PasswordReply | back/SignalingServer/server.js:55-69 | The guarded password-validation reply: "Room not found" for a missing room, else `success` on `===` equality |
| Protocol.RelaySends | back/SignalingServer/server.js:73-85 | The relay from the sender's first room to its open members whose id is the target; its properties are RelayTargets |
| Protocol.LeaveRooms | back/SignalingServer/server.js:90-113 | The registry after a close: the first room holding the connection loses it and is deleted when empty; its properties are LeaveRemoves |
| Protocol.LeaveSends | back/SignalingServer/server.js:97-106 | The user-left broadcast to the open members that remain; its properties are LeaveNotifies |
| Protocol.SendToUserSends | server.js:43-51 | `sendToUser`: nothing for a missing room, else the open members whose id is the user id; its properties are SendToUserMissingRoom and LegacyRelayAgrees |
| Protocol.LegacyRelaySends | server.js:24-29 | server.js's relay: the first room holding the sender, then `sendToUser` with `from` added; LegacyRelayAgrees equates it with RelaySends |
| Protocol.ServerRoute | back/SignalingServer/server.js:14-73 | Which case of the switch a type reaches, by `===` on the four control strings; its properties are ServerRouteOfNames |
| Protocol.RelayMsg | back/SignalingServer/server.js:80 | The relayed message has `from` set to the sender's registered id; every other field is passed through unchanged |
| Protocol.JoinRegisters | back/SignalingServer/server.js:17-20 | join-room creates a missing room with no password, maps the sender to the given user id (overwriting an earlier id in place), and changes no other room |
| Protocol.JoinNotifies | back/SignalingServer/server.js:21-26 | join-room sends the sender exactly one message, the welcome with its user id and room id; every other open member gets exactly one new-user; nobody else gets anything |
| Protocol.CreateStores | back/SignalingServer/server.js:31-40 | create-room stores `password \|\| null` in an empty room under the drawn id, replacing any room with that id, and leaves every other room alone |
| Protocol.CreateThenValidate | back/SignalingServer/server.js:43-69 | After create-room, validate-room reports that the room exists, that a password is required exactly when a truthy one was given, and whether the supplied one matches; validate-password succeeds exactly on a match |
| Protocol.SecretScenario | back/SignalingServer/server.js:43-69 | After create-room with "secret": a password is required, "secret" is accepted and "wrong" refused; after create-room with none, no password is required |
| Protocol.JoinCreatedRoomValidation | back/SignalingServer/server.js:18 | A room that join-room created reports that a password is required, and accepts exactly an absent password |
| Protocol.UnknownRoom | back/SignalingServer/server.js:43-64 | For an id no room has, validate-room answers `exists: false, passwordRequired: false, passwordCorrect: false` and validate-password answers `success: false, error: "Room not found"` |
| Protocol.RelayTargets | back/SignalingServer/server.js:73-85 | A relay reaches each open member of the sender's first room whose id is the target once, the sender included when its id matches; nobody else; every send carries `from`; a sender in no room sends nothing |
| Protocol.LeaveRemoves | back/SignalingServer/server.js:89-115 | close removes the connection from its first room only, and deletes that room exactly when it became empty; every other room, later ones holding the connection included, is unchanged |
| Protocol.LeaveNotifies | back/SignalingServer/server.js:97-106 | close sends exactly one user-left naming the departed user to each open remaining member, and nothing to anybody else |
| Protocol.LeaveEachKeepsGone | back/SignalingServer/server.js:89-115 | A helper of AllLeave: closes never bring back a room that is gone |
| Protocol.AllLeave | back/SignalingServer/server.js:89-115 | When every member of a room closes, in any order, the room is deleted, provided none of them is also in an earlier room |
| Protocol.StaleMemberAfterClose | back/SignalingServer/server.js:90-113 | With room "q" holding connection 1 and room "r" holding 1 and 2: closing 1 leaves "r" untouched, and after 1 and 2 close, "r" still holds 1 |
| Protocol.LeaveAll | back/SignalingServer/server.js:90-113 | The close without the `break`: every result room is an input room without the connection, and a room the connection emptied is gone |
| Protocol.LeaveAllClears | back/SignalingServer/server.js:90-113 | After the corrected close, no room holds the connection |
| Protocol.LeaveAllTwoRooms | back/SignalingServer/server.js:90-113 | On the registry of StaleMemberAfterClose, closing 1 and then 2 with the corrected close leaves no room |
| Protocol.SendToUserMissingRoom | server.js:43-45 | `sendToUser` on a room id that is not present sends nothing |
| Protocol.LegacyRelayAgrees | server.js:24-29 | server.js's relay, a find followed by a second lookup in `sendToUser`, sends exactly what the relay loop of the later servers sends |
| Protocol.ServerRouteOfNames | back/SignalingServer/server.js:14-73 | Each of the four control types reaches its own case of the switch; every other type, `client:disconnect` included, takes the relay default |
| ServerState.Registry.constructor | back/SignalingServer/server.js:6 | The registry starts empty, with nothing sent |
| ServerState.Registry.SendAll | back/SignalingServer/server.js:78-81 | The member loop appends exactly the broadcast of the room's members to the send log and changes no room |
| ServerState.Registry.Join | back/SignalingServer/server.js:16-28 | The join-room handler changes the registry to the join's specification and sends its welcome and new-user messages, keeping the registry well formed |
| ServerState.Registry.Register | back/SignalingServer/server.js:17-20 | Getting or creating the room and setting the sender in it is exactly the join's registry update, and returns the place of the joined room |
| ServerState.Registry.Create | back/SignalingServer/server.js:30-41 | The create-room handler stores the room and sends `room-created` to the sender only |
| ServerState.Registry.ValidateRoom | back/SignalingServer/server.js:43-52 | The validate-room handler sends the sender the room-validation reply and changes nothing |
| ServerState.Registry.ValidatePassword | back/SignalingServer/server.js:54-70 | The guarded validate-password handler sends "Room not found" or the comparison, and changes nothing |
| ServerState.Registry.ValidatePasswordUnchecked | back/server.js:69-74 | The unguarded handler needs the room to exist and sends `success` exactly on a password match |
| ServerState.Registry.Relay | back/SignalingServer/server.js:73-85 | The relay loop, with its break, sends exactly the relay's specification and changes no room |
| ServerState.Registry.SendToUser | server.js:43-51 | `sendToUser` sends to the open members of the named room that have the given id, and nothing when the room is missing |
| ServerState.Registry.RelayThroughSendToUser | server.js:24-29 | server.js's relay branch finds the sender's first room and hands the annotated message to `sendToUser` |
| ServerState.Registry.Leave | back/SignalingServer/server.js:89-116 | The close loop, with its break, leaves the first room the connection is in, deletes it if empty, and sends user-left only when notifying |
| SignalingServer.Handle | back/SignalingServer/server.js:14-86 | The switch's effect on the registry and the sends, case by case; OnMessage is proved equal to it and HandleInvariants states its properties |
| SignalingServer.OnMessage | back/SignalingServer/server.js:11-87 | The message handler leaves the registry well formed and does what `Handle` states for the message's type |
| SignalingServer.OnClose | back/SignalingServer/server.js:89-116 | The close handler leaves the first room and notifies the open members that remain |
| SignalingServer.HandleInvariants | back/SignalingServer/server.js:14-86 | Every message keeps the registry well formed; only join-room and create-room change it; the three queries answer the sender alone with one message |
| SignalingServer.DisconnectIsRelayed | back/SignalingServer/server.js:73-85 | `client:disconnect` has no case of its own and is relayed like a peer message |
| SignalingServer.ThreeLeaveScenario | back/SignalingServer/server.js:89-116 | Room R holds A, B and C; A closes, so B and C each get one user-left naming A and R keeps B and C; after B and C close, no room is left |
| BackServer.Handle | back/server.js:30-88 | back/server.js's switch, with `Threw` for validate-password on a missing room; AgreesWithSignalingServer relates it to SignalingServer.Handle |
| BackServer.OnMessage | back/server.js:27-88 | The message handler does what back/server.js's `Handle` states, and reports the TypeError of validate-password on a missing room, with nothing changed or sent |
| BackServer.OnClose | back/server.js:90-98 | The close handler leaves the first room, deletes it when empty, and sends nothing |
| BackServer.AgreesWithSignalingServer | back/server.js:30-87 | back/server.js behaves as back/SignalingServer/server.js on every message, except that validate-password on a missing room throws |
| BackServer.PasswordCheck | back/server.js:69-74 | With the room present, validate-password changes nothing and answers `success` exactly when the stored password equals the supplied one |
| LegacyServer.DrawnUserId | server.js:13 | The drawn user id is a string of one or two decimal digits that reads back as the draw |
| LegacyServer.Handle | server.js:9-29 | server.js's one case and its relay; its properties are JoinIgnoresClientUserId, OthersAreRelayed and HandleKeepsValid |
| LegacyServer.OnMessage | server.js:7-30 | The message handler does what server.js's `Handle` states and keeps the registry well formed |
| LegacyServer.OnClose | server.js:32-40 | The close handler leaves the first room, deletes it when empty, and sends nothing |
| LegacyServer.JoinIgnoresClientUserId | server.js:9-16 | join-room registers the sender under the drawn id whatever user id the client sent, and welcomes it with that id |
| LegacyServer.OthersAreRelayed | server.js:24-29 | Every message other than join-room is relayed and changes no room; a sender in no room sends nothing |
| LegacyServer.CreateRoomIsRelayed | server.js:24-29 | create-room, in either spelling, is relayed rather than answered |
| LegacyServer.HandleKeepsValid | server.js:7-30 | Every message keeps the registry well formed |
| Correlator.AfterConnect | front/src/utils/SignalingClient.js:14-23 | Connecting happens only when `ws` is null; afterwards `ws` is set, and it is open exactly when the connection succeeded |
| Correlator.CreateRoomRequest | front/src/utils/SignalingClient.js:61 | createRoom's request has the create-room type and `password \|\| null`, which is never undefined |
| Correlator.ValidateRoomRequest | front/src/utils/SignalingClient.js:75 | validateRoom's request carries its type and the room id |
| Correlator.ValidatePasswordRequest | front/src/utils/SignalingClient.js:88 | validatePassword's request carries its type, the room id and the password |
| Correlator.JoinRequest | front/src/utils/SignalingClient.js:104 | enterRoom's request carries the join-room type, the room id and the client's user id |
| Correlator.Envelope | front/src/utils/SignalingClient.js:47-49 | `sendToUser` sends `{target, type, data, from}` and no other field |
| Correlator.ReceiverOf | front/src/utils/SignalingClient.js:29-38 | An incoming message goes to the pending request for its type exactly when one exists; otherwise to the handler for that type if there is one; otherwise to nobody |
| Correlator.OnMessageStep | front/src/utils/SignalingClient.js:29-38 | One message causes at most one event and clears the pending entry for its type, if any |
| Correlator.ReplyTakenOnce | front/src/utils/SignalingClient.js:29-35 | The first reply of a pending type resolves the request; a second one goes to the handler |
| Correlator.NamespacedRequestsRoute | back/SignalingServer/server.js:14-70 | The namespaced client's four requests reach their own cases in the servers |
| Correlator.NamespacedRepliesKeyed | back/SignalingServer/server.js:21-69 | Each reply the server sends has the type key under which the matching request waits |
| Correlator.PlainRequestsRoute | server.js:9 | The plain client's join-room matches server.js's one case; the later servers relay all four plain requests |
| Correlator.PlainNotNamespaced | back/server.js:30-76 | No plain client-to-server name matches a case of the namespaced switch |
| Correlator.EnvelopeRelayed | back/SignalingServer/server.js:80 | A `sendToUser` envelope arrives unchanged when the sender joined under its own id; otherwise only `from` is replaced |
| ReactSignaling.SignalingClient.constructor | front/src/utils/SignalingClient.js:4-12 | A new client has no pending request, no handler, no socket and no room |
| ReactSignaling.SignalingClient.EnsureConnected | front/src/utils/SignalingClient.js:52 | `if (this.ws === null) await this.connect()` connects only when there is no socket, and fails only when it connected and the socket reported an error |
| ReactSignaling.SignalingClient.OnMessage | front/src/utils/SignalingClient.js:25-39 | `onmessage` resolves and clears the pending entry for the message's type, or otherwise calls that type's handler, or otherwise does nothing |
| ReactSignaling.SignalingClient.SetHandler | front/src/utils/SignalingClient.js:45 | `setHandler` replaces the handler for the type and changes nothing else |
| ReactSignaling.SignalingClient.SendToUser | front/src/utils/SignalingClient.js:47-49 | `sendToUser` sends exactly one envelope, from the client's user id |
| ReactSignaling.SignalingClient.CreateRoom | front/src/utils/SignalingClient.js:51-63 | createRoom rejects when the connection fails, or when a room creation is pending, and then sends nothing; otherwise it registers one pending entry and sends one create-room with `password \|\| null` |
| ReactSignaling.SignalingClient.ValidateRoom | front/src/utils/SignalingClient.js:65-77 | validateRoom rejects on a failed connection or a pending validation, and then sends nothing; otherwise it registers one entry and sends one request |
| ReactSignaling.SignalingClient.ValidatePassword | front/src/utils/SignalingClient.js:79-90 | validatePassword never connects; it rejects while one is pending; without a socket it registers the entry and then rejects with a TypeError; otherwise it sends one request |
| ReactSignaling.SignalingClient.EnterRoom | front/src/utils/SignalingClient.js:92-106 | enterRoom rejects on a failed connection or while joining; otherwise it sets `roomId`, registers the welcome entry and sends join-room with the client's user id |
| ReactSignaling.SignalingClient.Disconnect | front/src/utils/SignalingClient.js:108-113 | disconnect closes the socket only when it is open, and always forgets it |
| PlainSignaling.SignalingClient.constructor | front/js/SignalingClient.js:2-8 | A new client has no pending request, no handler and no socket |
| PlainSignaling.SignalingClient.EnsureConnected | front/js/SignalingClient.js:51 | Connecting happens only when there is no socket, and fails only when the new socket reported an error |
| PlainSignaling.SignalingClient.OnMessage | front/js/SignalingClient.js:26-34 | `onmessage` resolves and clears a pending entry before it considers handlers |
| PlainSignaling.SignalingClient.SetHandler | front/js/SignalingClient.js:39-41 | `setHandler` replaces any earlier handler for the type |
| PlainSignaling.SignalingClient.SendToUser | front/js/SignalingClient.js:44-46 | `sendToUser` sends one `{target, type, data, from}` envelope |
| PlainSignaling.SignalingClient.CreateRoom | front/js/SignalingClient.js:49-62 | A duplicate `room-created` request is refused with no send; otherwise one entry, then one `create-room` with `password \|\| null` |
| PlainSignaling.SignalingClient.ValidateRoom | front/js/SignalingClient.js:65-76 | A duplicate `room-validation` request is refused with no send; otherwise one entry, then one `validate-room` |
| PlainSignaling.SignalingClient.ValidatePassword | front/js/SignalingClient.js:79-88 | A duplicate `password-validation` request is refused; without a socket the entry stays and the promise rejects; otherwise one `validate-password` |
| PlainSignaling.SignalingClient.EnterRoom | front/js/SignalingClient.js:91-104 | A duplicate `welcome` request is refused with no send; otherwise one entry, then one `join-room` with the client's user id |
| PlainSignaling.SignalingClient.Disconnect | front/js/SignalingClient.js:106-109 | disconnect needs a socket, always closes it, and forgets it |
| PhonemeDecoder.MapPath | stt/processor.py:132 | Each state on the path becomes its phoneme, position by position |
| PhonemeDecoder.Collapse | stt/processor.py:138 | The collapse keeps the first and last elements and never lengthens the list |
| PhonemeDecoder.RemoveSilence | stt/processor.py:141 | Removing silence never lengthens the list |
| PhonemeDecoder.FinalTokens | stt/processor.py:138-141 | The collapse followed by silence removal; its properties are FinalTokensProperties and RepeatAcrossSilence |
| PhonemeDecoder.JoinSpaces | stt/processor.py:143 | `" ".join(final)`; SplitJoin and JoinSplit relate it to SplitSpaces |
| PhonemeDecoder.DecodeSequence | stt/processor.py:118-148 | `decode_sequence`, with the Viterbi result as a parameter; its properties are DecodeGuards, DecodeMapped and StandardDecode |
| PhonemeDecoder.SplitSpaces | stt/processor.py:143 | Not in the source: the inverse of the join, defined for the round-trip lemmas; it gives at least one token |
| PhonemeDecoder.CollapseHasNoAdjacentDuplicates | stt/processor.py:138 | After the collapse, no element equals the one before it |
| PhonemeDecoder.CollapseIdentity | stt/processor.py:138 | The collapse leaves a list with no adjacent duplicates unchanged |
| PhonemeDecoder.CollapseIdempotent | stt/processor.py:138 | Collapsing twice gives the same list as collapsing once |
| PhonemeDecoder.CollapseEmbeds | stt/processor.py:138 | The collapsed list is an order-preserving subsequence of its input |
| PhonemeDecoder.RemoveSilenceEmbeds | stt/processor.py:141 | Removing silence gives an order-preserving subsequence |
| PhonemeDecoder.RemoveSilenceHasNoSilence | stt/processor.py:141 | No `SIL` is left after silence removal |
| PhonemeDecoder.FinalTokensProperties | stt/processor.py:138-141 | The final tokens contain no `SIL` and appear, in order, in the mapped path |
| PhonemeDecoder.RepeatAcrossSilence | stt/processor.py:138-143 | Collapsing runs before silence removal, so `A SIL A` gives `A A` |
| PhonemeDecoder.JoinSplit | stt/processor.py:143 | Splitting any text at spaces and joining it again gives the text back |
| PhonemeDecoder.SplitJoin | stt/processor.py:143 | Joining non-empty token lists whose tokens hold no space, then splitting, gives the tokens back |
| PhonemeDecoder.DecodeGuards | stt/processor.py:119-125 | No model gives "[HMM Init Error]"; a non-array, non-2-D or empty input gives ""; a column count other than `mfcc_dim` gives "[MFCC Dim Error]"; a raising decoder or an unmapped state gives "[Decoding Error]" |
| PhonemeDecoder.DecodeMapped | stt/processor.py:127-144 | Past the guards, the text is the final tokens joined by single spaces |
| PhonemeDecoder.StandardDecode | stt/processor.py:127-144 | With the standard 14-state model, every path of states below 14 decodes without error; the text has no `SIL`, keeps the path's order and reads back as its tokens |
| PhonemeDecoder.StandardPhonemes | stt/phonemes.py:6-29 | Every state below 14 has a phoneme in `INDEX_MAP`, and no phoneme name holds a space |
| PhonemeDecoder.EmptyPath | stt/processor.py:134-136 | An empty Viterbi path gives the empty text |
| PhonemeDecoder.StandardRepeatAcrossSilence | stt/processor.py:127-144 | The path 2, 0, 2 decodes to "AY AY" |

## Left out

- Transport: the `ws` library, sockets, ports and the network are left out. Connections are numbers, and each handler receives the set of open ones.
- Parsing: `JSON.parse` on the server is not modelled. It throws on bad input with no catch; inbound messages are already-parsed objects.
- Logging: all `console` output is left out.
- `Math.random`:
  - the create-room id, `toString(36).slice(2, 10)`, is any string passed in; its format is not modelled;
  - server.js's user id is a draw below 100 passed in.
- Registry.sent: the send log is ghost. The JSON text a send would hold is modelled as the object it stringifies.
- Open sockets during a broadcast: the `open` set is fixed for one handler run. A socket closing while a handler runs is not modelled.
- Client concurrency: each client method is one atomic step, and the event loop is not modelled. For example, two calls racing over one `connect()` are outside the model.
- Client promises: resolve and reject closures are events in a ghost log.
- Handler and resolution effects: what a registered handler or a resolved promise does next is left out.
- Inherited keys: `pendingRequests` and `handlers` are plain objects, so keys such as `constructor` are inherited from `Object.prototype`. These lookups are not modelled; every key is an own property.
- Socket closed by the server: a socket closed from the server side is not modelled. `ReactSignaling.SignalingClient.Disconnect` treats a socket that opened as still open.
- Message binding per socket: after a reconnect, `onmessage` is bound to the new socket. The model has one message stream.
- `getUserId`: it only returns the user id, which is a constant field of the class.
- Other client files: the WebRTC clients, UI pages, contexts, the static file server and the speech-to-text HTTP endpoint are outside the modelled core.
- HMM numerics: stt/hmm.py is floating-point log-space decoding and is not modelled. The Viterbi result is a parameter.
- Model loading: `load_hmm`, MFCC extraction and audio decoding are not modelled. The loaded model is the parameter `model`.
- Array shape: an input array is only its shape.
- Other decoder exceptions: only a raising decoder and a missing `index_map` key are modelled among the KeyErrors and other exceptions the `try` catches.
- Path entries: the states on a path are integers; numpy integer types are not modelled.
- Non-integer numbers: `Json.Value` holds integers only, so a message field such as a numeric password 1.5 cannot be represented, and `String(n)` is modelled for non-negative integers only.

## Findings

| source | as written | input that shows it | evidently intended | confidence | as-written member | corrected member |
|---|---|---|---|---|---|---|
| back/server.js:69-74 | validate-password reads `rooms.get(data.roomId).password` with no check that the room exists | `{type: "client:validate-password", roomId: "nope"}` with no room "nope": reading `.password` of `undefined` throws a TypeError with no catch, and nothing is answered; the throw escapes the message listener, and with no process-level handler it probably ends the Node process | answer `success: false, error: "Room not found"` and change nothing, as back/SignalingServer/server.js:57-64 does | not executed; high | BackServer.AgreesWithSignalingServer | Protocol.UnknownRoom |
| back/SignalingServer/server.js:90-113 | close leaves only the first room holding the socket (`break`), though join-room lets a socket join several rooms; back/server.js:90-98 and server.js:32-40 do the same | socket 1 joins rooms "q" and "r", socket 2 joins "r"; both close: "r" survives holding the closed socket 1, and nothing ever removes it | remove the socket from every room it is in and delete each room it empties | not executed; medium | Protocol.StaleMemberAfterClose | Protocol.LeaveAllClears |

The server models keep both behaviours as written. The corrected versions are stated beside them: the guarded validate-password of back/SignalingServer/server.js, and `Protocol.LeaveAll` for the close.
