/**
 * front/src/utils/SignalingClient.js: the client the React front end uses,
 * over the namespaced vocabulary. Each method runs as one step: the await
 * on `connect()` is folded into it, with whether the socket opens as a
 * parameter.
 */
module ReactSignaling {
  import opened Json
  import opened EventTypes
  import opened Correlator

  class SignalingClient {
    const userId: Value
    /** The reply types with a truthy `pendingRequests` entry. */
    var pending: set<string>
    var handlers: map<string, HandlerId>
    var ws: Socket
    var roomId: Value
    ghost var events: seq<Event>

    /** Only the four request methods register pending entries. */
    ghost predicate Valid()
      reads this
    {
      pending <= ReplyKeys(Namespaced)
    }

    constructor (userId: Value)
      ensures Valid()
      ensures this.userId == userId && pending == {} && handlers == map[]
      ensures ws == NoSocket && roomId == Undefined && events == []
    {
      this.userId := userId;
      pending := {};
      handlers := map[];
      ws := NoSocket;
      roomId := Undefined;
      events := [];
    }

    /** `this.ws.send(JSON.stringify(msg))`. */
    method Send(msg: Object)
      modifies this
      ensures pending == old(pending) && handlers == old(handlers) && ws == old(ws) && roomId == old(roomId)
      ensures events == old(events) + [Sent(msg)]
    {
      events := events + [Sent(msg)];
    }

    /** `if (this.ws === null) await this.connect()`; `ok` is false when the
        new socket reports an error, which rejects the caller's promise. */
    method EnsureConnected(connects: bool) returns (ok: bool)
      modifies this
      ensures pending == old(pending) && handlers == old(handlers) && roomId == old(roomId) && events == old(events)
      ensures ws == AfterConnect(old(ws), connects)
      ensures ok <==> !ConnectFails(old(ws), connects)
    {
      ok := true;
      if ws == NoSocket {
        if connects {
          ws := Open;
        } else {
          ws := Broken;
          ok := false;
        }
      }
    }

    /** `ws.onmessage`: the pending request for the message's type takes it
        and its entry is cleared; otherwise the handler for the type is
        called; otherwise nothing happens. */
    method OnMessage(data: Object)
      requires Valid()
      modifies this
      ensures Valid()
      ensures handlers == old(handlers) && ws == old(ws) && roomId == old(roomId)
      ensures var key := PropertyKey(Get(data, "type"));
        && pending == OnMessageStep(old(pending), handlers, key, data).0
        && events == old(events) + OnMessageStep(old(pending), handlers, key, data).1
    {
      var key := PropertyKey(Get(data, "type"));
      if key in pending {
        events := events + [Resolved(key, data)];
        pending := pending - {key};
      } else if key in handlers {
        events := events + [HandlerCalled(handlers[key], data)];
      }
    }

    /** `setHandler(type, handler)` replaces any earlier handler for `type`. */
    method SetHandler(kind: Value, handler: HandlerId)
      modifies this
      ensures handlers == old(handlers)[PropertyKey(kind) := handler]
      ensures pending == old(pending) && ws == old(ws) && roomId == old(roomId) && events == old(events)
    {
      handlers := handlers[PropertyKey(kind) := handler];
    }

    /** `sendToUser`: dereferences `this.ws`, so the socket must exist. */
    method SendToUser(target: Value, kind: Value, data: Value)
      requires ws != NoSocket
      modifies this
      ensures pending == old(pending) && handlers == old(handlers) && ws == old(ws) && roomId == old(roomId)
      ensures events == old(events) + [Sent(Envelope(target, kind, data, userId))]
    {
      Send(Envelope(target, kind, data, userId));
    }

    /** `createRoom(password)`: connect if needed, refuse a second creation
        while one is pending, otherwise wait for room-created. */
    method CreateRoom(password: Value, connects: bool) returns (r: Outcome)
      requires Valid()
      modifies this
      ensures Valid()
      ensures handlers == old(handlers) && roomId == old(roomId)
      ensures ws == AfterConnect(old(ws), connects)
      ensures var key := Name(ServerRoomCreated);
        if ConnectFails(old(ws), connects) then
          r == Rejected(Failure(ConnectFailed)) && pending == old(pending) && events == old(events)
        else if key in old(pending) then
          r == Rejected(Failure(CreateBusy)) && pending == old(pending) && events == old(events)
        else
          && r == Awaiting && pending == old(pending) + {key}
          && events == old(events) + [Sent(CreateRoomRequest(Namespaced, password))]
    {
      var ok := EnsureConnected(connects);
      if !ok {
        return Rejected(Failure(ConnectFailed));
      }
      if Name(ServerRoomCreated) in pending {
        return Rejected(Failure(CreateBusy));
      }
      pending := pending + {Name(ServerRoomCreated)};
      Send(CreateRoomRequest(Namespaced, password));
      r := Awaiting;
    }

    /** `validateRoom(roomId)`. */
    method ValidateRoom(id: Value, connects: bool) returns (r: Outcome)
      requires Valid()
      modifies this
      ensures Valid()
      ensures handlers == old(handlers) && roomId == old(roomId)
      ensures ws == AfterConnect(old(ws), connects)
      ensures var key := Name(ServerRoomValidation);
        if ConnectFails(old(ws), connects) then
          r == Rejected(Failure(ConnectFailed)) && pending == old(pending) && events == old(events)
        else if key in old(pending) then
          r == Rejected(Failure(ValidateBusy)) && pending == old(pending) && events == old(events)
        else
          && r == Awaiting && pending == old(pending) + {key}
          && events == old(events) + [Sent(ValidateRoomRequest(Namespaced, id))]
    {
      var ok := EnsureConnected(connects);
      if !ok {
        return Rejected(Failure(ConnectFailed));
      }
      if Name(ServerRoomValidation) in pending {
        return Rejected(Failure(ValidateBusy));
      }
      pending := pending + {Name(ServerRoomValidation)};
      Send(ValidateRoomRequest(Namespaced, id));
      r := Awaiting;
    }

    /** `validatePassword(roomId, password)` never connects. With no socket,
        the entry is registered and then `this.ws.send` throws, which rejects
        the promise and leaves the entry in place. */
    method ValidatePassword(id: Value, password: Value) returns (r: Outcome)
      requires Valid()
      modifies this
      ensures Valid()
      ensures handlers == old(handlers) && roomId == old(roomId) && ws == old(ws)
      ensures var key := Name(ServerPasswordValidation);
        if key in old(pending) then
          r == Rejected(Failure(PasswordBusy)) && pending == old(pending) && events == old(events)
        else if ws == NoSocket then
          r == Rejected(TypeError) && pending == old(pending) + {key} && events == old(events)
        else
          && r == Awaiting && pending == old(pending) + {key}
          && events == old(events) + [Sent(ValidatePasswordRequest(Namespaced, id, password))]
    {
      if Name(ServerPasswordValidation) in pending {
        return Rejected(Failure(PasswordBusy));
      }
      pending := pending + {Name(ServerPasswordValidation)};
      if ws == NoSocket {
        return Rejected(TypeError);
      }
      Send(ValidatePasswordRequest(Namespaced, id, password));
      r := Awaiting;
    }

    /** `enterRoom(roomId)`: remember the room, then join it under this
        client's user id and wait for the welcome. */
    method EnterRoom(id: Value, connects: bool) returns (r: Outcome)
      requires Valid()
      modifies this
      ensures Valid()
      ensures handlers == old(handlers)
      ensures ws == AfterConnect(old(ws), connects)
      ensures var key := Name(ServerWelcome);
        if ConnectFails(old(ws), connects) then
          && r == Rejected(Failure(ConnectFailed))
          && pending == old(pending) && roomId == old(roomId) && events == old(events)
        else if key in old(pending) then
          && r == Rejected(Failure(JoinBusy))
          && pending == old(pending) && roomId == old(roomId) && events == old(events)
        else
          && r == Awaiting && pending == old(pending) + {key} && roomId == id
          && events == old(events) + [Sent(JoinRequest(Namespaced, id, userId))]
    {
      var ok := EnsureConnected(connects);
      if !ok {
        return Rejected(Failure(ConnectFailed));
      }
      if Name(ServerWelcome) in pending {
        return Rejected(Failure(JoinBusy));
      }
      roomId := id;
      pending := pending + {Name(ServerWelcome)};
      Send(JoinRequest(Namespaced, id, userId));
      r := Awaiting;
    }

    /** `disconnect()`: close the socket only if it is open, and forget it
        in every case. Pending entries and handlers stay. */
    method Disconnect()
      modifies this
      ensures ws == NoSocket
      ensures pending == old(pending) && handlers == old(handlers) && roomId == old(roomId)
      ensures events == old(events) + (if old(ws) == Open then [SocketClosed] else [])
    {
      if ws == Open {
        events := events + [SocketClosed];
      }
      ws := NoSocket;
    }
  }
}
