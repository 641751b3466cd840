/**
 * The servers' process-wide registry `rooms: Map<roomId, Map<ws, userId>>`,
 * with the `password` property each inner map carries. JavaScript maps keep
 * their keys in insertion order, and the servers' "first room that contains
 * the connection" rule depends on it, so both levels are sequences here:
 * a room is its id, its password and its members in join order.
 */
module RoomStore {
  import opened Json

  /** A connection (a `ws` object), by identity. */
  type Conn = nat

  datatype Member = Member(conn: Conn, userId: Value)

  /** `password` is `Undefined` for a room that join-room created, because a
      fresh `Map` has no `password` property; create-room sets it. */
  datatype Room = Room(id: Value, password: Value, members: seq<Member>)

  /** One `send` on connection `to`. */
  datatype Delivery = Delivery(to: Conn, msg: Object)

  // ---------------------------------------------------------------------
  // One room's members: a Map<ws, userId> in insertion order.
  // ---------------------------------------------------------------------

  /** Where connection `c` sits among the members, if anywhere. */
  function FindConn(ms: seq<Member>, c: Conn): (r: Option<nat>)
    ensures r.Some? ==> r.value < |ms| && ms[r.value].conn == c
    ensures r.Some? ==> forall j :: 0 <= j < r.value ==> ms[j].conn != c
    ensures r.None? ==> forall j :: 0 <= j < |ms| ==> ms[j].conn != c
  {
    if ms == [] then None
    else if ms[0].conn == c then Some(0)
    else match FindConn(ms[1..], c)
      case None => None
      case Some(i) => Some(i + 1)
  }

  /** `users.has(c)`. */
  predicate HasConn(ms: seq<Member>, c: Conn)
  {
    FindConn(ms, c).Some?
  }

  /** `users.get(c)`. */
  function UserOf(ms: seq<Member>, c: Conn): (u: Value)
    requires HasConn(ms, c)
    ensures Member(c, u) in ms
  {
    ms[FindConn(ms, c).value].userId
  }

  /** Map keys are unique. */
  ghost predicate DistinctConns(ms: seq<Member>)
  {
    forall i, j :: 0 <= i < j < |ms| ==> ms[i].conn != ms[j].conn
  }

  lemma UserOfUnique(ms: seq<Member>, c: Conn, u: Value)
    requires DistinctConns(ms) && Member(c, u) in ms
    ensures HasConn(ms, c) && UserOf(ms, c) == u
  {
    var k :| 0 <= k < |ms| && ms[k] == Member(c, u);
    assert FindConn(ms, c).Some?;
  }

  /** `users.set(c, u)`: an existing key keeps its place and takes the new
      value; a new key goes last. */
  function Put(ms: seq<Member>, c: Conn, u: Value): (r: seq<Member>)
    ensures |r| == if HasConn(ms, c) then |ms| else |ms| + 1
    ensures forall i :: 0 <= i < |ms| ==> r[i].conn == ms[i].conn
    ensures forall i :: 0 <= i < |ms| && ms[i].conn != c ==> r[i] == ms[i]
    ensures !HasConn(ms, c) ==> r[|ms|] == Member(c, u)
    ensures Member(c, u) in r
    ensures DistinctConns(ms) ==> DistinctConns(r) && HasConn(r, c) && UserOf(r, c) == u
  {
    match FindConn(ms, c)
    case Some(i) =>
      var r := ms[i := Member(c, u)];
      assert r[i] == Member(c, u);
      r
    case None =>
      var r := ms + [Member(c, u)];
      assert r[|ms|] == Member(c, u);
      r
  }

  /** `users.delete(c)`. */
  function Remove(ms: seq<Member>, c: Conn): (r: seq<Member>)
    ensures |r| == if HasConn(ms, c) then |ms| - 1 else |ms|
    ensures forall m :: m in r ==> m in ms
    ensures DistinctConns(ms) ==> DistinctConns(r) && !HasConn(r, c)
    ensures DistinctConns(ms) ==> forall m :: m in ms && m.conn != c ==> m in r
  {
    match FindConn(ms, c)
    case Some(i) =>
      var r := ms[..i] + ms[i + 1..];
      assert forall k :: 0 <= k < |r| ==> r[k] == if k < i then ms[k] else ms[k + 1];
      assert forall m :: m in ms && m != ms[i] ==> m in r by {
        forall m | m in ms && m != ms[i] ensures m in r {
          var k :| 0 <= k < |ms| && ms[k] == m;
          if k < i { assert r[k] == m; } else { assert r[k - 1] == m; }
        }
      }
      r
    case None => ms
  }

  // ---------------------------------------------------------------------
  // The registry: a Map<roomId, room> in insertion order.
  // ---------------------------------------------------------------------

  /** Where room `id` sits in the registry, if anywhere. */
  function FindRoom(rs: seq<Room>, id: Value): (r: Option<nat>)
    ensures r.Some? ==> r.value < |rs| && rs[r.value].id == id
    ensures r.Some? ==> forall j :: 0 <= j < r.value ==> rs[j].id != id
    ensures r.None? ==> forall j :: 0 <= j < |rs| ==> rs[j].id != id
  {
    if rs == [] then None
    else if rs[0].id == id then Some(0)
    else match FindRoom(rs[1..], id)
      case None => None
      case Some(i) => Some(i + 1)
  }

  /** `rooms.get(id)`. */
  function Lookup(rs: seq<Room>, id: Value): Option<Room>
  {
    match FindRoom(rs, id)
    case Some(i) => Some(rs[i])
    case None => None
  }

  ghost predicate DistinctIds(rs: seq<Room>)
  {
    forall i, j :: 0 <= i < j < |rs| ==> rs[i].id != rs[j].id
  }

  /** What the two levels of JavaScript maps guarantee: keys are unique. */
  ghost predicate Valid(rs: seq<Room>)
  {
    DistinctIds(rs) && forall i :: 0 <= i < |rs| ==> DistinctConns(rs[i].members)
  }

  lemma FindRoomAt(rs: seq<Room>, k: nat)
    requires DistinctIds(rs) && k < |rs|
    ensures FindRoom(rs, rs[k].id) == Some(k)
  {
  }

  lemma LookupAt(rs: seq<Room>, k: nat)
    requires DistinctIds(rs) && k < |rs|
    ensures Lookup(rs, rs[k].id) == Some(rs[k])
  {
    FindRoomAt(rs, k);
  }

  /** Lookup is determined by the rooms present, whatever their order. */
  lemma LookupByContents(rs: seq<Room>, rs': seq<Room>, id: Value)
    requires DistinctIds(rs) && DistinctIds(rs')
    requires forall r :: r in rs && r.id == id ==> r in rs'
    requires forall r :: r in rs' && r.id == id ==> r in rs
    ensures Lookup(rs, id) == Lookup(rs', id)
  {
    match FindRoom(rs, id)
    case Some(i) =>
      assert rs[i] in rs';
      var k :| 0 <= k < |rs'| && rs'[k] == rs[i];
      FindRoomAt(rs', k);
    case None =>
  }

  /** `rooms.set(room.id, room)`: an existing key keeps its place, a new key
      goes last; no other room changes. */
  function SetRoom(rs: seq<Room>, room: Room): (r: seq<Room>)
    ensures |r| == if FindRoom(rs, room.id).Some? then |rs| else |rs| + 1
    ensures forall i :: 0 <= i < |rs| ==> r[i].id == rs[i].id
    ensures forall i :: 0 <= i < |rs| && rs[i].id != room.id ==> r[i] == rs[i]
    ensures room in r
    ensures DistinctIds(rs) ==> DistinctIds(r) && Lookup(r, room.id) == Some(room)
    ensures DistinctIds(rs) ==> forall id :: id != room.id ==> Lookup(r, id) == Lookup(rs, id)
    ensures Valid(rs) && DistinctConns(room.members) ==> Valid(r)
  {
    match FindRoom(rs, room.id)
    case Some(i) =>
      var r := rs[i := room];
      assert r[i] == room;
      assert DistinctIds(rs) ==> Lookup(r, room.id) == Some(room) by {
        if DistinctIds(rs) { LookupAt(r, i); }
      }
      assert DistinctIds(rs) ==> forall id :: id != room.id ==> Lookup(r, id) == Lookup(rs, id) by {
        if DistinctIds(rs) {
          forall id | id != room.id ensures Lookup(r, id) == Lookup(rs, id) {
            ReplaceLookup(rs, i, room, id);
          }
        }
      }
      r
    case None =>
      var r := rs + [room];
      assert r[|rs|] == room;
      assert DistinctIds(rs) ==> Lookup(r, room.id) == Some(room) by {
        if DistinctIds(rs) { LookupAt(r, |rs|); }
      }
      assert DistinctIds(rs) ==> forall id :: id != room.id ==> Lookup(r, id) == Lookup(rs, id) by {
        if DistinctIds(rs) {
          forall id | id != room.id ensures Lookup(r, id) == Lookup(rs, id) {
            LookupByContents(rs, r, id);
          }
        }
      }
      r
  }

  /** Replacing the room at `i` by one with the same id leaves every other
      id's lookup alone. */
  lemma ReplaceLookup(rs: seq<Room>, i: nat, room: Room, id: Value)
    requires i < |rs| && rs[i].id == room.id && DistinctIds(rs) && id != room.id
    ensures Lookup(rs[i := room], id) == Lookup(rs, id)
  {
    var r := rs[i := room];
    forall x | x in rs && x.id == id ensures x in r {
      var k :| 0 <= k < |rs| && rs[k] == x;
      assert k != i && r[k] == x;
    }
    forall x | x in r && x.id == id ensures x in rs {
      var k :| 0 <= k < |r| && r[k] == x;
      assert k != i && rs[k] == x;
    }
    LookupByContents(rs, r, id);
  }

  /** The room at position `i`, with its members replaced and its place kept:
      what mutating the inner map in place amounts to. */
  function UpdateMembers(rs: seq<Room>, i: nat, ms: seq<Member>): (r: seq<Room>)
    requires i < |rs|
    ensures |r| == |rs| && r[i] == rs[i].(members := ms)
    ensures forall j :: 0 <= j < |rs| && j != i ==> r[j] == rs[j]
    ensures Valid(rs) && DistinctConns(ms) ==> Valid(r)
  {
    rs[i := rs[i].(members := ms)]
  }

  /** `rooms.delete(rs[i].id)`: the other rooms keep their order. */
  function DeleteAt(rs: seq<Room>, i: nat): (r: seq<Room>)
    requires i < |rs|
    ensures |r| == |rs| - 1
    ensures forall j :: 0 <= j < |r| ==> r[j] == if j < i then rs[j] else rs[j + 1]
    ensures Valid(rs) ==> Valid(r) && Lookup(r, rs[i].id) == None
    ensures DistinctIds(rs) ==> forall id :: id != rs[i].id ==> Lookup(r, id) == Lookup(rs, id)
  {
    var r := rs[..i] + rs[i + 1..];
    assert forall j :: 0 <= j < |r| ==> r[j] == if j < i then rs[j] else rs[j + 1];
    assert Valid(rs) ==> Valid(r) && Lookup(r, rs[i].id) == None by {
      if Valid(rs) { DeleteAtValid(rs, i); }
    }
    assert DistinctIds(rs) ==> forall id :: id != rs[i].id ==> Lookup(r, id) == Lookup(rs, id) by {
      if DistinctIds(rs) {
        forall id | id != rs[i].id ensures Lookup(r, id) == Lookup(rs, id) {
          DeleteAtLookup(rs, i, id);
        }
      }
    }
    r
  }

  lemma DeleteAtValid(rs: seq<Room>, i: nat)
    requires i < |rs| && Valid(rs)
    ensures var r := rs[..i] + rs[i + 1..];
      Valid(r) && Lookup(r, rs[i].id) == None
  {
    var r := rs[..i] + rs[i + 1..];
    assert forall j :: 0 <= j < |r| ==> r[j] == if j < i then rs[j] else rs[j + 1];
  }

  lemma DeleteAtLookup(rs: seq<Room>, i: nat, id: Value)
    requires i < |rs| && DistinctIds(rs) && id != rs[i].id
    ensures Lookup(rs[..i] + rs[i + 1..], id) == Lookup(rs, id)
  {
    var r := rs[..i] + rs[i + 1..];
    assert forall j :: 0 <= j < |r| ==> r[j] == if j < i then rs[j] else rs[j + 1];
    forall x | x in rs && x.id == id ensures x in r {
      var k :| 0 <= k < |rs| && rs[k] == x;
      if k < i { assert r[k] == x; } else { assert k != i; assert r[k - 1] == x; }
    }
    LookupByContents(rs, r, id);
  }

  /** The first room, in registry order, whose members include `c`: the room
      the servers' `for … of rooms … break` loops stop at. */
  function FirstRoomWith(rs: seq<Room>, c: Conn): (r: Option<nat>)
    ensures r.Some? ==> r.value < |rs| && HasConn(rs[r.value].members, c)
    ensures r.Some? ==> forall j :: 0 <= j < r.value ==> !HasConn(rs[j].members, c)
    ensures r.None? ==> forall j :: 0 <= j < |rs| ==> !HasConn(rs[j].members, c)
  {
    if rs == [] then None
    else if HasConn(rs[0].members, c) then Some(0)
    else match FirstRoomWith(rs[1..], c)
      case None => None
      case Some(i) => Some(i + 1)
  }

  lemma FirstRoomWithAt(rs: seq<Room>, c: Conn, i: nat)
    requires i < |rs| && HasConn(rs[i].members, c)
    requires forall j :: 0 <= j < i ==> !HasConn(rs[j].members, c)
    ensures FirstRoomWith(rs, c) == Some(i)
  {
  }

  // ---------------------------------------------------------------------
  // Sending one message to some of a room's members.
  // ---------------------------------------------------------------------

  /** Who a `for (const [client, id] of users) if (…) client.send(…)` loop
      sends to; only open connections (`readyState === OPEN`) get a send. */
  datatype Audience =
    | AllExcept(except: Conn)   // every member but the sender
    | Everyone                  // every member
    | WithUserId(target: Value) // the members registered under one user id

  predicate Selected(a: Audience, m: Member, open: set<Conn>)
  {
    m.conn in open &&
    match a
    case AllExcept(x) => m.conn != x
    case Everyone => true
    case WithUserId(t) => m.userId == t
  }

  /** The sends of such a loop, in member order. */
  function Broadcast(ms: seq<Member>, a: Audience, open: set<Conn>, msg: Object): seq<Delivery>
  {
    if ms == [] then []
    else
      var last := ms[|ms| - 1];
      Broadcast(ms[..|ms| - 1], a, open, msg) + (if Selected(a, last, open) then [Delivery(last.conn, msg)] else [])
  }

  /** How many sends go to connection `c`. */
  function CountTo(ds: seq<Delivery>, c: Conn): nat
  {
    if ds == [] then 0
    else CountTo(ds[..|ds| - 1], c) + (if ds[|ds| - 1].to == c then 1 else 0)
  }

  lemma {:induction false} CountToAppend(a: seq<Delivery>, b: seq<Delivery>, c: Conn)
    ensures CountTo(a + b, c) == CountTo(a, c) + CountTo(b, c)
    decreases |b|
  {
    if b != [] {
      assert (a + b)[..|a + b| - 1] == a + b[..|b| - 1];
      CountToAppend(a, b[..|b| - 1], c);
    } else {
      assert a + b == a;
    }
  }

  /** Some member on connection `c` is in the audience. */
  ghost predicate Reaches(ms: seq<Member>, a: Audience, open: set<Conn>, c: Conn)
  {
    exists k :: 0 <= k < |ms| && ms[k].conn == c && Selected(a, ms[k], open)
  }

  /** With unique keys, a broadcast sends exactly once to each connection in
      its audience and never to any other. */
  lemma {:induction false} BroadcastExactlyOnce(ms: seq<Member>, a: Audience, open: set<Conn>, msg: Object, c: Conn)
    requires DistinctConns(ms)
    ensures CountTo(Broadcast(ms, a, open, msg), c) == if Reaches(ms, a, open, c) then 1 else 0
    decreases |ms|
  {
    if ms != [] {
      var n := |ms| - 1;
      var init, last := ms[..n], ms[n];
      assert DistinctConns(init) by {
        forall i, j | 0 <= i < j < |init| ensures init[i].conn != init[j].conn {
          assert init[i] == ms[i] && init[j] == ms[j];
        }
      }
      var tail := if Selected(a, last, open) then [Delivery(last.conn, msg)] else [];
      assert Broadcast(ms, a, open, msg) == Broadcast(init, a, open, msg) + tail;
      BroadcastExactlyOnce(init, a, open, msg, c);
      CountToAppend(Broadcast(init, a, open, msg), tail, c);
      if tail != [] { CountToSingle(tail[0], c); assert tail == [tail[0]]; }
      if last.conn == c {
        assert !Reaches(init, a, open, c) by {
          forall k | 0 <= k < |init| ensures init[k].conn != c {
            assert init[k] == ms[k];
          }
        }
        ReachesSnoc(ms, a, open, c);
      } else {
        ReachesSnoc(ms, a, open, c);
      }
    }
  }

  lemma ReachesSnoc(ms: seq<Member>, a: Audience, open: set<Conn>, c: Conn)
    requires ms != []
    ensures Reaches(ms, a, open, c) <==>
      Reaches(ms[..|ms| - 1], a, open, c) || (ms[|ms| - 1].conn == c && Selected(a, ms[|ms| - 1], open))
  {
    var init := ms[..|ms| - 1];
    if Reaches(ms, a, open, c) {
      var k :| 0 <= k < |ms| && ms[k].conn == c && Selected(a, ms[k], open);
      if k < |ms| - 1 { assert init[k] == ms[k]; }
    }
    if Reaches(init, a, open, c) {
      var k :| 0 <= k < |init| && init[k].conn == c && Selected(a, init[k], open);
      assert ms[k] == init[k];
    }
  }

  /** Every send of a broadcast carries its message to a connection in its audience. */
  lemma {:induction false} BroadcastCarries(ms: seq<Member>, a: Audience, open: set<Conn>, msg: Object)
    ensures forall d :: d in Broadcast(ms, a, open, msg) ==> d.msg == msg && Reaches(ms, a, open, d.to)
    decreases |ms|
  {
    if ms != [] {
      var init, last := ms[..|ms| - 1], ms[|ms| - 1];
      BroadcastCarries(init, a, open, msg);
      forall d | d in Broadcast(ms, a, open, msg) ensures d.msg == msg && Reaches(ms, a, open, d.to) {
        ReachesSnoc(ms, a, open, d.to);
      }
    }
  }

  lemma CountToSingle(d: Delivery, c: Conn)
    ensures CountTo([d], c) == if d.to == c then 1 else 0
  {
    assert [d][..0] == [];
  }

  /** A reply to the sender followed by a broadcast to everyone else: the
      sender gets the reply alone, and every other connection gets the
      broadcast exactly when it is an open member. */
  lemma AnnounceReachesSender(w: Delivery, ms: seq<Member>, open: set<Conn>, msg: Object)
    requires DistinctConns(ms)
    ensures var ds := [w] + Broadcast(ms, AllExcept(w.to), open, msg);
      && ds[0] == w
      && CountTo(ds, w.to) == 1
      && (forall k :: 1 <= k < |ds| ==> ds[k].to != w.to && ds[k].msg == msg)
  {
    var b := Broadcast(ms, AllExcept(w.to), open, msg);
    var ds := [w] + b;
    CountToAppend([w], b, w.to);
    CountToSingle(w, w.to);
    BroadcastExactlyOnce(ms, AllExcept(w.to), open, msg, w.to);
    BroadcastCarries(ms, AllExcept(w.to), open, msg);
    forall k | 1 <= k < |ds| ensures ds[k].to != w.to && ds[k].msg == msg {
      assert ds[k] == b[k - 1] && b[k - 1] in b;
    }
  }

  lemma AnnounceReachesOthers(w: Delivery, ms: seq<Member>, open: set<Conn>, msg: Object, c: Conn)
    requires DistinctConns(ms)
    ensures var ds := [w] + Broadcast(ms, AllExcept(w.to), open, msg);
      c != w.to ==> CountTo(ds, c) == if c in open && HasConn(ms, c) then 1 else 0
  {
    if c != w.to {
      var b := Broadcast(ms, AllExcept(w.to), open, msg);
      CountToAppend([w], b, c);
      CountToSingle(w, c);
      BroadcastExactlyOnce(ms, AllExcept(w.to), open, msg, c);
      if Reaches(ms, AllExcept(w.to), open, c) {
        var j :| 0 <= j < |ms| && ms[j].conn == c && Selected(AllExcept(w.to), ms[j], open);
      }
      if c in open && HasConn(ms, c) {
        assert Selected(AllExcept(w.to), ms[FindConn(ms, c).value], open);
      }
    }
  }

  /** A broadcast to the members left after `ws` is removed reaches every
      other open member exactly once, and carries the one message. */
  lemma FarewellReaches(ms: seq<Member>, ws: Conn, open: set<Conn>, msg: Object, c: Conn)
    requires DistinctConns(ms)
    ensures var ds := Broadcast(Remove(ms, ws), Everyone, open, msg);
      && CountTo(ds, c) == (if c in open && c != ws && HasConn(ms, c) then 1 else 0)
      && (forall d :: d in ds ==> d.msg == msg)
  {
    var rest := Remove(ms, ws);
    BroadcastExactlyOnce(rest, Everyone, open, msg, c);
    BroadcastCarries(rest, Everyone, open, msg);
    if Reaches(rest, Everyone, open, c) {
      var j :| 0 <= j < |rest| && rest[j].conn == c && Selected(Everyone, rest[j], open);
      assert rest[j] in rest;
    }
    if c in open && c != ws && HasConn(ms, c) {
      var m := ms[FindConn(ms, c).value];
      assert m in rest;
      var j :| 0 <= j < |rest| && rest[j] == m;
    }
  }
}
