/** The signalling server (server/index.js): the `rooms` table from room id to
    the set of socket ids in that room, and the events the server emits.
    A JavaScript `Map` iterates in insertion order, and the disconnect handler
    emits in that order, so the table is kept as the sequence of its entries.
    Every `emit` is recorded in `outbox` as one delivery: the set of sockets
    it reaches and the event. */
module SignalingServer {
  import opened Wrappers

  type SocketId = string
  type RoomId = string

  /** One entry of the `rooms` map. */
  datatype Room = Room(id: RoomId, users: set<SocketId>)

  /** The four client events the server forwards without looking inside. */
  datatype RelayedKind = Offer | Answer | IceCandidate | ChatMessage

  /** What the server emits. `payload` is `data.offer`, `data.answer`,
      `data.candidate` or `data.message`, an opaque value to the server. */
  datatype Event =
    | UserJoined(userId: SocketId)
    | RoomUsers(users: set<SocketId>)
    | Relayed(kind: RelayedKind, payload: string, from: SocketId)
    | UserLeft(userId: SocketId)

  /** One `emit`: the sockets it reaches and what it carries. */
  datatype Delivery = Delivery(to: set<SocketId>, event: Event)

  /** Where the entry for `roomId` sits in the table (`rooms.has` / `rooms.get`). */
  function IndexOf(table: seq<Room>, roomId: RoomId): (r: Option<nat>)
    ensures r.Some? ==> r.value < |table| && table[r.value].id == roomId
    ensures r.None? <==> forall i :: 0 <= i < |table| ==> table[i].id != roomId
  {
    if table == [] then None
    else if table[|table| - 1].id == roomId then Some(|table| - 1)
    else IndexOf(table[..|table| - 1], roomId)
  }

  /** The members of a room, none when the room does not exist. */
  function Members(table: seq<Room>, roomId: RoomId): set<SocketId>
  {
    match IndexOf(table, roomId)
    case Some(i) => table[i].users
    case None => {}
  }

  /** No two entries share a room id, and no room is ever left empty. */
  predicate WellFormed(table: seq<Room>)
  {
    table == [] ||
    var last := table[|table| - 1];
    && last.users != {}
    && IndexOf(table[..|table| - 1], last.id) == None
    && WellFormed(table[..|table| - 1])
  }

  /** The table after `socketId` joins `roomId`: a new entry at the end for
      a new room, the same entry with one more member otherwise. */
  function AfterJoin(table: seq<Room>, roomId: RoomId, socketId: SocketId): seq<Room>
  {
    match IndexOf(table, roomId)
    case None => table + [Room(roomId, {socketId})]
    case Some(i) => table[i := Room(roomId, table[i].users + {socketId})]
  }

  /** What the disconnect loop leaves of one entry. */
  function LeaveEntry(room: Room, socketId: SocketId): seq<Room>
  {
    if socketId !in room.users then [room]
    else if room.users - {socketId} == {} then []
    else [Room(room.id, room.users - {socketId})]
  }

  /** The table after `socketId` disconnects. */
  function AfterLeave(table: seq<Room>, socketId: SocketId): seq<Room>
  {
    if table == [] then []
    else AfterLeave(table[..|table| - 1], socketId) + LeaveEntry(table[|table| - 1], socketId)
  }

  /** The `user-left` emit for one entry, if it held `socketId`. */
  function LeftNotice(room: Room, socketId: SocketId): seq<Delivery>
  {
    if socketId in room.users then [Delivery(room.users - {socketId}, UserLeft(socketId))] else []
  }

  /** The `user-left` emits of a disconnect, in iteration order. */
  function LeftNotices(table: seq<Room>, socketId: SocketId): (notices: seq<Delivery>)
    ensures |notices| <= |table|
  {
    if table == [] then []
    else LeftNotices(table[..|table| - 1], socketId) + LeftNotice(table[|table| - 1], socketId)
  }

  /** The events that reach `socketId`, in emission order. */
  function Received(outbox: seq<Delivery>, socketId: SocketId): seq<Event>
  {
    if outbox == [] then []
    else
      var d := outbox[|outbox| - 1];
      Received(outbox[..|outbox| - 1], socketId) + (if socketId in d.to then [d.event] else [])
  }

  class RoomRegistry {
    /** `rooms` of the server, as its entries in insertion order. */
    var rooms: seq<Room>
    /** Every emit so far. */
    var outbox: seq<Delivery>

    ghost predicate Valid()
      reads this
    {
      WellFormed(rooms)
    }

    constructor ()
      ensures Valid()
      ensures rooms == [] && outbox == []
    {
      rooms, outbox := [], [];
    }

    /** `join-room`: create the room if it is absent, add the joiner, tell the
        others `user-joined` and answer the joiner with the other members. */
    method JoinRoom(socketId: SocketId, roomId: RoomId)
      requires Valid()
      modifies this
      ensures Valid()
      ensures rooms == AfterJoin(old(rooms), roomId, socketId)
      ensures outbox == old(outbox) + [
                Delivery(Members(old(rooms), roomId) - {socketId}, UserJoined(socketId)),
                Delivery({socketId}, RoomUsers(Members(old(rooms), roomId) - {socketId}))]
    {
      JoinWellFormed(rooms, roomId, socketId);
      var found := IndexOf(rooms, roomId);
      var i: nat;
      if found.None? {
        rooms := rooms + [Room(roomId, {})];
        i := |rooms| - 1;
      } else {
        i := found.value;
      }
      var roomUsers := rooms[i].users + {socketId};
      assert found.None? ==> roomUsers == {socketId};
      assert roomUsers - {socketId} == Members(old(rooms), roomId) - {socketId};
      rooms := rooms[i := Room(roomId, roomUsers)];
      // socket.to(roomId) reaches the room's sockets other than the joiner
      outbox := outbox + [Delivery(roomUsers - {socketId}, UserJoined(socketId)),
                          Delivery({socketId}, RoomUsers(roomUsers - {socketId}))];
    }

    /** `offer`, `answer`, `ice-candidate` and `chat-message`: forward the
        payload, tagged with the sender, to everyone else in `roomId`. The
        sender's own membership is not checked. */
    method Forward(socketId: SocketId, kind: RelayedKind, roomId: RoomId, payload: string)
      requires Valid()
      modifies this
      ensures Valid()
      ensures rooms == old(rooms)
      ensures outbox == old(outbox) + [Delivery(Members(rooms, roomId) - {socketId}, Relayed(kind, payload, socketId))]
    {
      var audience := Members(rooms, roomId) - {socketId};
      outbox := outbox + [Delivery(audience, Relayed(kind, payload, socketId))];
    }

    /** `disconnect`: walk the entries in order; from each room that holds the
        socket, remove it, tell the rest `user-left`, and delete the entry once
        the room is empty. Deleting the current entry does not disturb the
        iteration: the walk goes on with the entry after it. */
    method Disconnect(socketId: SocketId)
      requires Valid()
      modifies this
      ensures Valid()
      ensures rooms == AfterLeave(old(rooms), socketId)
      ensures outbox == old(outbox) + LeftNotices(old(rooms), socketId)
    {
      ghost var table, outbox0 := rooms, outbox;
      var i := 0;
      ghost var visited := 0;
      while i < |rooms|
        invariant 0 <= visited <= |table| && 0 <= i <= |rooms|
        invariant rooms[..i] == AfterLeave(table[..visited], socketId)
        invariant rooms[i..] == table[visited..]
        invariant outbox == outbox0 + LeftNotices(table[..visited], socketId)
        decreases |rooms| - i
      {
        assert rooms[i] == table[visited] && rooms[i + 1..] == table[visited + 1..] by {
          assert rooms[i + 1..] == rooms[i..][1..];
        }
        LeaveStep(table, visited, socketId);
        i := LeaveAt(i, socketId);
        visited := visited + 1;
      }
      assert table[..visited] == table;
      assert rooms[..i] == rooms;
      LeaveWellFormed(table, socketId);
    }

    /** One turn of the disconnect loop, on the entry at `i`; `next` is where
        the walk goes on. */
    method LeaveAt(i: nat, socketId: SocketId) returns (next: nat)
      requires i < |rooms|
      modifies this
      ensures next <= |rooms|
      ensures rooms[..next] == old(rooms[..i]) + LeaveEntry(old(rooms[i]), socketId)
      ensures rooms[next..] == old(rooms[i + 1..])
      ensures outbox == old(outbox) + LeftNotice(old(rooms[i]), socketId)
    {
      var room := rooms[i];
      next := i + 1;
      if socketId in room.users {
        var users := room.users - {socketId};
        outbox := outbox + [Delivery(users, UserLeft(socketId))];
        if users == {} {
          // the emptied set is dropped together with its entry
          rooms := rooms[..i] + rooms[i + 1..];
          next := i;
        } else {
          rooms := rooms[i := Room(room.id, users)];
        }
      }
    }
  }

  /** One more entry visited by the disconnect loop. */
  lemma LeaveStep(table: seq<Room>, visited: nat, socketId: SocketId)
    requires visited < |table|
    ensures AfterLeave(table[..visited + 1], socketId) == AfterLeave(table[..visited], socketId) + LeaveEntry(table[visited], socketId)
    ensures LeftNotices(table[..visited + 1], socketId) == LeftNotices(table[..visited], socketId) + LeftNotice(table[visited], socketId)
  {
    assert table[..visited + 1][..visited] == table[..visited];
  }

  lemma {:induction false} UpdateKeepsIndex(table: seq<Room>, i: nat, users: set<SocketId>, roomId: RoomId)
    requires i < |table|
    ensures IndexOf(table[i := Room(table[i].id, users)], roomId) == IndexOf(table, roomId)
  {
    if i < |table| - 1 {
      var t := table[i := Room(table[i].id, users)];
      assert t[..|t| - 1] == table[..|table| - 1][i := Room(table[i].id, users)];
      UpdateKeepsIndex(table[..|table| - 1], i, users, roomId);
    }
  }

  lemma {:induction false} UpdateWellFormed(table: seq<Room>, i: nat, users: set<SocketId>)
    requires WellFormed(table) && i < |table| && users != {}
    ensures WellFormed(table[i := Room(table[i].id, users)])
  {
    var t := table[i := Room(table[i].id, users)];
    if i == |table| - 1 {
      assert t[..|t| - 1] == table[..|table| - 1];
    } else {
      var init := table[..|table| - 1];
      assert t[..|t| - 1] == init[i := Room(init[i].id, users)];
      UpdateWellFormed(init, i, users);
      UpdateKeepsIndex(init, i, users, table[|table| - 1].id);
    }
  }

  /** Joining keeps the table well formed. */
  lemma JoinWellFormed(table: seq<Room>, roomId: RoomId, socketId: SocketId)
    requires WellFormed(table)
    ensures WellFormed(AfterJoin(table, roomId, socketId))
  {
    match IndexOf(table, roomId)
    case None =>
      var t := table + [Room(roomId, {socketId})];
      assert t[..|t| - 1] == table;
    case Some(i) =>
      UpdateWellFormed(table, i, table[i].users + {socketId});
  }

  /** An entry the disconnect keeps was an entry before, under the same id. */
  lemma {:induction false} LeaveKeepsIds(table: seq<Room>, socketId: SocketId, roomId: RoomId)
    requires IndexOf(table, roomId) == None
    ensures IndexOf(AfterLeave(table, socketId), roomId) == None
  {
    if table != [] {
      LeaveKeepsIds(table[..|table| - 1], socketId, roomId);
    }
  }

  /** Disconnecting keeps the table well formed. */
  lemma {:induction false} LeaveWellFormed(table: seq<Room>, socketId: SocketId)
    requires WellFormed(table)
    ensures WellFormed(AfterLeave(table, socketId))
  {
    if table != [] {
      var init, last := table[..|table| - 1], table[|table| - 1];
      LeaveWellFormed(init, socketId);
      LeaveKeepsIds(init, socketId, last.id);
      var t := AfterLeave(table, socketId);
      if LeaveEntry(last, socketId) != [] {
        assert t[..|t| - 1] == AfterLeave(init, socketId);
      } else {
        assert t == AfterLeave(init, socketId);
      }
    }
  }

  /** A join adds the joiner to its room and to no other. */
  lemma JoinMembers(table: seq<Room>, roomId: RoomId, socketId: SocketId, x: RoomId)
    ensures IndexOf(AfterJoin(table, roomId, socketId), x).Some? <==> x == roomId || IndexOf(table, x).Some?
    ensures Members(AfterJoin(table, roomId, socketId), x)
            == if x == roomId then Members(table, roomId) + {socketId} else Members(table, x)
  {
    match IndexOf(table, roomId)
    case None =>
      var t := table + [Room(roomId, {socketId})];
      assert t[..|t| - 1] == table;
    case Some(i) =>
      UpdateKeepsIndex(table, i, table[i].users + {socketId}, x);
  }

  /** Joining twice is joining once. */
  lemma JoinIdempotent(table: seq<Room>, roomId: RoomId, socketId: SocketId)
    ensures AfterJoin(AfterJoin(table, roomId, socketId), roomId, socketId) == AfterJoin(table, roomId, socketId)
  {
    var t := AfterJoin(table, roomId, socketId);
    match IndexOf(table, roomId)
    case None =>
      assert t[..|t| - 1] == table;
      assert {socketId} + {socketId} == {socketId};
    case Some(i) =>
      UpdateKeepsIndex(table, i, table[i].users + {socketId}, roomId);
  }

  /** Looking a room up in a table with one more entry at the end. */
  lemma MembersSnoc(table: seq<Room>, e: Room, x: RoomId)
    ensures IndexOf(table + [e], x).Some? <==> x == e.id || IndexOf(table, x).Some?
    ensures Members(table + [e], x) == if x == e.id then e.users else Members(table, x)
  {
    assert (table + [e])[..|table|] == table;
  }

  /** A disconnect removes the socket from every room, deletes exactly the
      rooms it was the last member of, and leaves the others' members alone. */
  lemma {:induction false} LeaveMembers(table: seq<Room>, socketId: SocketId, x: RoomId)
    requires WellFormed(table)
    ensures IndexOf(AfterLeave(table, socketId), x).Some? <==> IndexOf(table, x).Some? && Members(table, x) != {socketId}
    ensures Members(AfterLeave(table, socketId), x) == Members(table, x) - {socketId}
  {
    if table != [] {
      var init, last := table[..|table| - 1], table[|table| - 1];
      LeaveMembers(init, socketId, x);
      assert table == init + [last];
      if LeaveEntry(last, socketId) == [] {
        LeaveDropsLast(init, last, socketId, x);
      } else {
        LeaveKeepsLast(init, last, socketId, x);
      }
    }
  }

  /** The step of `LeaveMembers` for a last entry the disconnect deletes. */
  lemma LeaveDropsLast(init: seq<Room>, last: Room, socketId: SocketId, x: RoomId)
    requires WellFormed(init + [last]) && LeaveEntry(last, socketId) == []
    requires IndexOf(AfterLeave(init, socketId), x).Some? <==> IndexOf(init, x).Some? && Members(init, x) != {socketId}
    requires Members(AfterLeave(init, socketId), x) == Members(init, x) - {socketId}
    ensures IndexOf(AfterLeave(init + [last], socketId), x).Some? <==>
            IndexOf(init + [last], x).Some? && Members(init + [last], x) != {socketId}
    ensures Members(AfterLeave(init + [last], socketId), x) == Members(init + [last], x) - {socketId}
  {
    var table := init + [last];
    assert table[..|table| - 1] == init;
    MembersSnoc(init, last, x);
    assert AfterLeave(table, socketId) == AfterLeave(init, socketId);
    if x == last.id {
      LeaveKeepsIds(init, socketId, x);
      assert last.users == {socketId};
    }
  }

  /** The step of `LeaveMembers` for a last entry that survives the disconnect. */
  lemma LeaveKeepsLast(init: seq<Room>, last: Room, socketId: SocketId, x: RoomId)
    requires WellFormed(init + [last]) && LeaveEntry(last, socketId) != []
    requires IndexOf(AfterLeave(init, socketId), x).Some? <==> IndexOf(init, x).Some? && Members(init, x) != {socketId}
    requires Members(AfterLeave(init, socketId), x) == Members(init, x) - {socketId}
    ensures IndexOf(AfterLeave(init + [last], socketId), x).Some? <==>
            IndexOf(init + [last], x).Some? && Members(init + [last], x) != {socketId}
    ensures Members(AfterLeave(init + [last], socketId), x) == Members(init + [last], x) - {socketId}
  {
    var table := init + [last];
    assert table[..|table| - 1] == init;
    MembersSnoc(init, last, x);
    var left := AfterLeave(init, socketId);
    var e := LeaveEntry(last, socketId)[0];
    assert AfterLeave(table, socketId) == left + [e];
    MembersSnoc(left, e, x);
    if socketId !in last.users {
      assert last.users - {socketId} == last.users;
    }
  }

  /** A room its last member left is gone: the next joiner creates it
      afresh and is told it is empty. */
  lemma RejoinEmptiedRoom(table: seq<Room>, roomId: RoomId, socketId: SocketId, joiner: SocketId)
    requires WellFormed(table) && Members(table, roomId) == {socketId}
    ensures IndexOf(AfterLeave(table, socketId), roomId) == None
    ensures Members(AfterJoin(AfterLeave(table, socketId), roomId, joiner), roomId) == {joiner}
  {
    var left := AfterLeave(table, socketId);
    LeaveMembers(table, socketId, roomId);
    assert Members(left, roomId) == {};
    JoinMembers(left, roomId, joiner, roomId);
  }

  /** Every `user-left` of a disconnect names the socket that left, goes to
      the other members of a room it was in, and never back to it; every
      room it was in gets one. */
  lemma {:induction false} LeftNoticesExact(table: seq<Room>, socketId: SocketId)
    ensures forall d :: d in LeftNotices(table, socketId) ==>
      && d.event == UserLeft(socketId) && socketId !in d.to
      && exists i :: 0 <= i < |table| && socketId in table[i].users && d.to == table[i].users - {socketId}
    ensures forall i :: 0 <= i < |table| && socketId in table[i].users ==>
      Delivery(table[i].users - {socketId}, UserLeft(socketId)) in LeftNotices(table, socketId)
  {
    if table != [] {
      var init := table[..|table| - 1];
      LeftNoticesExact(init, socketId);
      forall d | d in LeftNotices(table, socketId)
        ensures exists i :: 0 <= i < |table| && socketId in table[i].users && d.to == table[i].users - {socketId}
      {
        if d in LeftNotices(init, socketId) {
          var i :| 0 <= i < |init| && socketId in init[i].users && d.to == init[i].users - {socketId};
          assert table[i] == init[i];
        } else {
          assert socketId in table[|table| - 1].users;
        }
      }
      forall i | 0 <= i < |table| && socketId in table[i].users
        ensures Delivery(table[i].users - {socketId}, UserLeft(socketId)) in LeftNotices(table, socketId)
      {
        if i < |init| {
          assert table[i] == init[i];
        }
      }
    }
  }

  /** The positions of the rooms that hold `socketId`, in table order. */
  function Holding(table: seq<Room>, socketId: SocketId): seq<nat>
  {
    if table == [] then []
    else Holding(table[..|table| - 1], socketId) + (if socketId in table[|table| - 1].users then [|table| - 1] else [])
  }

  /** `Holding` lists every room that holds the socket and no other, each
      once, in increasing order. */
  lemma {:induction false} HoldingExact(table: seq<Room>, socketId: SocketId)
    ensures forall k :: 0 <= k < |Holding(table, socketId)| ==>
      Holding(table, socketId)[k] < |table| && socketId in table[Holding(table, socketId)[k]].users
    ensures forall i :: 0 <= i < |table| && socketId in table[i].users ==> i in Holding(table, socketId)
    ensures forall k, l :: 0 <= k < l < |Holding(table, socketId)| ==>
      Holding(table, socketId)[k] < Holding(table, socketId)[l]
  {
    if table != [] {
      var init := table[..|table| - 1];
      HoldingExact(init, socketId);
      var before, held := Holding(init, socketId), Holding(table, socketId);
      var extra := if socketId in table[|table| - 1].users then [|table| - 1] else [];
      assert held == before + extra;
      forall k | 0 <= k < |before|
        ensures held[k] == before[k] < |init| && socketId in table[before[k]].users
      {
        assert table[before[k]] == init[before[k]];
      }
      forall i | 0 <= i < |table| && socketId in table[i].users
        ensures i in held
      {
        if i < |init| {
          assert table[i] == init[i];
          var k :| 0 <= k < |before| && before[k] == i;
          assert held[k] == i;
        } else {
          assert held[|held| - 1] == i;
        }
      }
    }
  }

  /** A disconnect sends exactly one `user-left` per room that held the
      socket, in table order: the k-th notice belongs to the k-th such room
      and goes to that room's other members. */
  lemma {:induction false} LeftNoticesPerRoom(table: seq<Room>, socketId: SocketId)
    ensures |LeftNotices(table, socketId)| == |Holding(table, socketId)|
    ensures var held := Holding(table, socketId);
      forall k :: 0 <= k < |held| ==>
        && held[k] < |table|
        && LeftNotices(table, socketId)[k] == Delivery(table[held[k]].users - {socketId}, UserLeft(socketId))
  {
    HoldingExact(table, socketId);
    if table != [] {
      var init := table[..|table| - 1];
      LeftNoticesPerRoom(init, socketId);
      HoldingExact(init, socketId);
      var before, held := Holding(init, socketId), Holding(table, socketId);
      var notices := LeftNotices(table, socketId);
      assert held == before + (if socketId in table[|table| - 1].users then [|table| - 1] else []);
      forall k | 0 <= k < |before|
        ensures held[k] == before[k] < |init| && notices[k] == LeftNotices(init, socketId)[k]
      {
        assert table[before[k]] == init[before[k]];
      }
    }
  }

  /** `Received` of a longer outbox. */
  lemma ReceivedAppend(outbox: seq<Delivery>, d: Delivery, socketId: SocketId)
    ensures Received(outbox + [d], socketId) == Received(outbox, socketId) + (if socketId in d.to then [d.event] else [])
  {
    assert (outbox + [d])[..|outbox|] == outbox;
  }

  /** The deliveries of two sockets joining an empty server one after the
      other, and of the offer and answer they then exchange. */
  function JoinEmits(a: SocketId, b: SocketId): seq<Delivery>
  {
    [Delivery({}, UserJoined(a)), Delivery({a}, RoomUsers({})),
     Delivery({a}, UserJoined(b)), Delivery({b}, RoomUsers({a}))]
  }

  function HandshakeEmits(a: SocketId, b: SocketId, offer: string, answer: string): seq<Delivery>
  {
    JoinEmits(a, b) + [Delivery({a}, Relayed(Offer, offer, b)), Delivery({b}, Relayed(Answer, answer, a))]
  }

  /** Two sockets join an empty server one after the other. */
  method TwoPeersJoin(a: SocketId, b: SocketId, roomId: RoomId) returns (server: RoomRegistry)
    requires a != b
    ensures fresh(server) && server.Valid()
    ensures server.rooms == [Room(roomId, {a, b})]
    ensures server.outbox == JoinEmits(a, b)
  {
    server := new RoomRegistry();
    server.JoinRoom(a, roomId);
    assert Members([], roomId) - {a} == {};
    assert IndexOf([Room(roomId, {a})], roomId) == Some(0);
    assert Members([Room(roomId, {a})], roomId) - {b} == {a} && {a} + {b} == {a, b};
    server.JoinRoom(b, roomId);
  }

  /** After both have joined, the joiner sends an offer and the first answers. */
  method TwoPeerHandshake(a: SocketId, b: SocketId, roomId: RoomId, offer: string, answer: string)
      returns (server: RoomRegistry)
    requires a != b
    ensures fresh(server) && server.Valid()
    ensures server.outbox == HandshakeEmits(a, b, offer, answer)
  {
    server := TwoPeersJoin(a, b, roomId);
    assert IndexOf(server.rooms, roomId) == Some(0);
    assert {a, b} - {b} == {a} && {a, b} - {a} == {b};
    server.Forward(b, Offer, roomId, offer);
    server.Forward(a, Answer, roomId, answer);
  }

  /** In that exchange each side hears exactly its half of the handshake:
      the first joiner learns the room was empty, then who joined, then the
      offer; the second learns who was there, then the answer. */
  lemma HandshakeHeard(a: SocketId, b: SocketId, offer: string, answer: string)
    requires a != b
    ensures Received(HandshakeEmits(a, b, offer, answer), a) == [RoomUsers({}), UserJoined(b), Relayed(Offer, offer, b)]
    ensures Received(HandshakeEmits(a, b, offer, answer), b) == [RoomUsers({a}), Relayed(Answer, answer, a)]
  {
    var o := HandshakeEmits(a, b, offer, answer);
    assert o[..1] == o[..0] + [o[0]];
    ReceivedAppend(o[..0], o[0], a);
    ReceivedAppend(o[..0], o[0], b);
    assert o[..2] == o[..1] + [o[1]];
    ReceivedAppend(o[..1], o[1], a);
    ReceivedAppend(o[..1], o[1], b);
    assert o[..3] == o[..2] + [o[2]];
    ReceivedAppend(o[..2], o[2], a);
    ReceivedAppend(o[..2], o[2], b);
    assert o[..4] == o[..3] + [o[3]];
    ReceivedAppend(o[..3], o[3], a);
    ReceivedAppend(o[..3], o[3], b);
    assert o[..5] == o[..4] + [o[4]];
    ReceivedAppend(o[..4], o[4], a);
    ReceivedAppend(o[..4], o[4], b);
    assert o[..6] == o[..5] + [o[5]];
    ReceivedAppend(o[..5], o[5], a);
    ReceivedAppend(o[..5], o[5], b);
    assert o[..6] == o;
  }
}
